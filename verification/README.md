# Proofs about Sniper's trace format and profiling tools

This project models the parts of the Sniper simulator in which several pieces of state must stay in step, and proves
what they promise each other.

**SIFT traces.** `Sift::Writer` turns the calls of an instrumented program into a byte stream and `Sift::Reader` turns
the stream back into instructions and callbacks. Both sides keep the running address that lets an instruction that
falls through go without one, the sets of code pages and page mappings already sent, the reader's code image, its cache
of static instructions with the `next` shortcut, and an XOR checksum.

- `Bytes`, `SiftFormat`: little-endian numbers, the checksum, the records and their bytes.
- `SiftImage`, `SiftReplay`: the reader as a function of the stream: the code image, the static cache, one record, all.
- `SiftRecord`: the writer as a function of the calls.
- `SiftTrace`, `SiftPages`: the round trip, corrupted and extended traces, page mappings.
- `SiftMemory`, `SiftReply`: memory accesses and replies on the response stream.
- `SiftProtocol`: writer and reader as two processes joined by two byte streams, with the writer's file buffer, nested
  memory requests and shutdown, and the invariant that every action keeps.
- `SiftRuns`: what this means for whole runs: safety, the values that calls return, progress.
- `SiftReader`, `SiftWriter`, `SiftEndToEnd`: the two classes as they work, updating their fields in loops, each proved
  to compute what the specification functions say, and put together through a trace file.

**Profiles.** `Graph`, `Tarjan`, `Prune` and `TimeProfile` are `gprof2dot.Profile`: cycles, pruning, call ratios and
time propagation. `CallTree` and `CallProfile` are the call forest of `gen_profile` and its folding.

**Smaller cores.** `SharedPtr` is the reference counting of `rombauts::shared_ptr`; `Json` and `JsonStreams` the JSON
reader and writer; `Scheduling`, `SchedulingScores` and `Scheduler` the locality scheduler; `MapSum`, `BuildStack`,
`StackPlaces` and `CpiStack` the CPI stacks; `BottleGraph` the on-line bottle graphs.

Objects that a source updates in place are classes whose methods are proved against functions of their old state;
where such objects are reached through one dictionary only (functions and calls of a profile), the dictionary's entries
are the class's fields. `dafny verify dfyconfig.toml` checks everything.

What the code does and its documentation or intent does not say:

- The "one-byte" short instruction record is eight bytes on disk: the structures are not packed (`SiftFormat`).
- An instruction of size 0 is accepted by the writer and cannot be read back, in either form of the record
  (`InstructionNeedsSize`).
- The `executed` flag of an instruction that falls through is not transmitted; the reader takes it as executed, which
  is right for all but predicated instructions (`TraceRoundTrip`).
- A memory write of 2^32 - 20 bytes or more wraps the size field and is dropped by the writer (`RequestHandled`).
- The other blocking calls answer no memory requests: an access from their handlers makes them give up
  (`ServedExactlyWhen`).
- `Cycle.add_function` never merges an old cycle: the function is already in the set when it asks, so the loop is proved
  to do nothing (`AddFunction`).
- Call ratios of a function sum to 1 exactly when its event total is positive or just one call has the event
  (`SharesSumToOne`); two calls with no event make them sum to 2 (`SharesCanExceedOne`). What roots account for differs
  from the self time by exactly the excess (`TimeBalance`).
- Two threads can share a core if a thread resumes while cores are still being handed out (`EarlyResumeShares`). In
  every run, cores stay exclusive if and only if no thread starts onto a core that another is on (`RunExclusive`); the
  assertion of the periodic hook holds in every run all the same (`RunAsserts`).
- Data of a folded root is lost from the calls that are shown (`Build`).
- White space may stand between all tokens of a JSON text, but not in an empty list (`NoBlankInEmptyList`).
- An imbalance component that was there before is lost from a CPI stack (`ParsedSum`). With negative uncounted cycles
  the shares of the waiting components may divide by zero (`FixStart`, `Divides`).

## Model

| member | source | states |
|---|---|---|
| `Bytes.Fold` | sift/zfstream.h:115-120 | the loop over the bytes of a write computes the checksum that all other statements speak about |
| `Bytes.ChecksumConcat` | sift/zfstream.h:105-180 | the checksum of a stream does not depend on how it was cut into writes or reads |
| `Bytes.ChecksumInjective` | sift/zfstream.h:105-180 | different registers stay different over the same bytes |
| `Bytes.ChecksumDetectsOneByte` | sift/zfstream.h:105-180 | replacing exactly one byte always changes the checksum |
| `Bytes.ChecksumUndo` | sift/sift_reader.cc:155-176 | XORing the header bytes out again restores the register as it was before the header |
| `SiftFormat.RoundTrip` | sift/sift_format.h:61-138 | for every message and every padding, decoding at the front of any stream gives the message and its exact length |
| `SiftFormat.InstructionNeedsSize` | sift/sift_reader.cc:444-487 | the record of an instruction, short or extended, decodes to itself if and only if its size is not 0 |
| `SiftFormat.DecodeLocal` | sift/sift_reader.cc:143-500 | a record is recognised from its own bytes alone, whatever follows |
| `SiftImage.StoreSound` | sift/sift_reader.cc:193-221 | storing code bytes that straddle pages keeps every defined byte equal to the program's |
| `SiftImage.PageSound` | sift/sift_reader.cc:184-192 | storing a whole page keeps every defined byte equal to the program's |
| `SiftImage.StoreInPage` | sift/sift_reader.cc:193-221 | writing a piece that stays on one page into that page at its offset is storing its bytes one by one |
| `SiftImage.RebuildSound` | sift/sift_reader.cc:600-620 | rebuilding a covered range succeeds and gives exactly the program's bytes |
| `SiftReplay.ReplayFlatten` | sift/sift_reader.cc:134-506 | the bytes of any list of records play back as those records, whatever follows them |
| `SiftReplay.ReplayByReads` | sift/sift_reader.cc:134-506 | calling `Read` until it reports the end plays back the stream |
| `SiftReplay.ApplyIgnoresChecksum` | sift/sift_reader.cc:143-500 | the register influences nothing but checksum verdicts |
| `SiftTrace.LookupAgrees` | sift/sift_reader.cc:600-646 | in every state in step with the writer, the shortcut, the cache and a fresh rebuild give the program's instruction |
| `SiftTrace.SentCodeCovers` | sift/sift_writer.cc:193-250 | once the code of an instruction was sent, in whole-page or per-instruction mode, all its bytes are in the image |
| `SiftTrace.FeedCall` | sift/sift_writer.cc:183-319 | the records of any one call show the client exactly that call and leave both sides in step |
| `SiftTrace.FeedCalls` | sift/sift_writer.cc:183-319 | so do the records of any sequence of calls |
| `SiftTrace.FeedChecksum` | sift/sift_reader.cc:155-176 | the reader's register is the checksum of every byte it has consumed |
| `SiftTrace.TraceRoundTrip` | sift/sift_writer.cc:120-141 | playing back a finished trace shows exactly the calls in order with their arguments, then a passed checksum, and consumes all bytes |
| `SiftTrace.EventOf` | sift/sift_reader.cc:134-506 | call by call: each call but an instruction-set change is one event, in order, with the call's own arguments, the program's bytes, the instruction set chosen last, and the exact rule for the `executed` flag |
| `SiftTrace.RunToChecksum` | sift/zfstream.h:144-180 | on any stream, the register at a record boundary is the checksum of everything before it |
| `SiftTrace.CorruptionDetected` | sift/sift_reader.cc:155-176 | changing exactly one earlier byte without moving the boundary makes the comparison fail |
| `SiftTrace.ReplayIgnoresChecksum` | sift/sift_reader.cc:143-500 | what is played back does not depend on the register, but for verdicts |
| `SiftTrace.UnknownRecordsAreInvisible` | sift/sift_reader.cc:434-439 | a record of unknown type, inserted at any record boundary of any stream, changes nothing but verdicts |
| `SiftPages.TranslationAgrees` | sift/sift_reader.cc:722-739 | after a call, the instruction address, the data addresses, the cache-only addresses or the futex address that it names translate to frame and offset, and on unmapped pages to 0 |
| `SiftPages.TraceTranslates` | sift/sift_reader.cc:722-739 | after the records of any sequence of calls, every address that any of them names translates so |
| `SiftPages.TraceOnce` | sift/sift_writer.cc:1010-1036 | over a whole trace no page is sent twice, and the writer's set is exactly what was sent |
| `SiftPages.TracePages` | sift/sift_writer.cc:1010-1036 | the pages sent are exactly the mapped pages of the addresses that the calls name |
| `SiftMemory.PokeThenPeek` | sift/sift_writer.cc:873-962 | a write, wrapping at 2^64, is read back byte for byte |
| `SiftMemory.PokeElsewhere` | sift/sift_writer.cc:873-962 | a write changes no other byte |
| `SiftMemory.RunAnswers` | sift/sift_writer.cc:873-962 | over any valid accesses, each byte that a load gives is the one saved last at its address, or the initial one |
| `SiftMemory.RequestHandled` | sift/sift_writer.cc:873-962 | the writer performs exactly the requested access, if and only if it is valid |
| `SiftMemory.ResponseAccepted` | sift/sift_reader.cc:544-598 | the reader takes from the response exactly the bytes of the access |
| `SiftMemory.RemoteIsDirect` | sift/sift_reader.cc:508-598 | a remote access succeeds exactly when it is valid, and then it is the access on one memory directly |
| `SiftMemory.RemoteBytes` | sift/sift_reader.cc:508-598 | byte by byte: a remote load gives the bytes of the memory at its addresses, a remote save replaces exactly those |
| `SiftReply.ReplyReceived` | sift/sift_reader.cc:648-707 | every blocking call recognises the reply sent for it and takes the value that was sent |
| `SiftReply.RequestReceived` | sift/sift_writer.cc:489-549 | a memory request during a serving call is recognised and performed |
| `SiftReply.ShutdownReceived` | sift/sift_writer.cc:473-476 | every blocking call recognises the shutdown notice |
| `SiftReply.ServedExactlyWhen` | sift/sift_writer.cc:428-797 | memory requests are served by Syscall, Sync, Magic and Emulate, and make every other blocking call give up |
| `SiftProtocol.StepKeepsInv` | sift/sift_writer.cc:321-365 | every action of either process keeps streams, codec state and the one pending item consistent |
| `SiftRuns.RunInv` | sift/sift_reader.cc:230-389 | so does every run |
| `SiftRuns.Safety` | sift/sift_reader.cc:230-389 | in every state of every run nobody has crashed, the client has seen a prefix of the calls, all of them when done, loads gave what was saved last, and values and requests correspond one to one |
| `SiftRuns.CallWaits` | sift/sift_writer.cc:428-797 | after Syscall, Sync, Magic, Emulate, NewThread, Join, Fork and InstructionCount the writer waits for that request, and after no other call |
| `SiftRuns.RunAnswered` | sift/sift_reader.cc:230-389 | in every run those calls number the values returned, plus one while the writer waits or once it left at a shutdown; the values sent answer them one by one, with the right sizes |
| `SiftRuns.OnePending` | sift/sift_writer.cc:428-797 | a waiting writer has exactly one pending item, and a reply has the type and size it waits for |
| `SiftRuns.NoDeadlock` | sift/sift_writer.cc:428-797 | until the trace is done or the writer has left, some party can take a step that serves the call |
| `SiftRuns.WaitingEnds` | sift/sift_writer.cc:428-797 | every step while the writer waits brings its reply closer, except a new memory access of the handler |
| `SiftReader.TraceReader.Take` | sift/zfstream.h:160-167 | reading folds exactly the bytes read into the register |
| `SiftReader.TraceReader.StaticInfo` | sift/sift_reader.cc:600-620 | the page-by-page copy loop gives the rebuilt bytes, or fails when a page is missing |
| `SiftReader.TraceReader.Find` | sift/sift_reader.cc:622-646 | the instruction found is the one of the lookup, and is stored in the cache or new |
| `SiftReader.TraceReader.GetStatic` | sift/sift_reader.cc:622-646 | the pointers stay in the cache, the successor is linked, and the result is that of the lookup |
| `SiftReader.TraceReader.StoreCode` | sift/sift_reader.cc:193-221 | the loop that splits code at page boundaries and writes each piece into its page stores every byte where it belongs |
| `SiftReader.TraceReader.Respond` | sift/sift_reader.cc:648-707 | exactly one reply with the handler's value goes out |
| `SiftReader.TraceReader.Dispatch` | sift/sift_reader.cc:177-439 | every record other than instructions and checksums has its effect and callbacks, and each of the eight requests, and nothing else, exactly one answer |
| `SiftReader.TraceReader.ReadBody` | sift/sift_reader.cc:177-439 | the field-by-field reads take exactly the body of the record |
| `SiftReader.TraceReader.ReadInstructionRecord` | sift/sift_reader.cc:444-487 | short and extended records are told apart and read completely |
| `SiftReader.TraceReader.ReadChecksum` | sift/sift_reader.cc:155-176 | the comparison is against the checksum of all bytes before the record |
| `SiftReader.TraceReader.Read` | sift/sift_reader.cc:134-506 | one call returns the next instruction or the end, with all callbacks in between, as the specification says |
| `SiftReader.TraceReader.AccessMemory` | sift/sift_reader.cc:508-598 | one request goes out, and the result is the accepted response or a failure |
| `SiftReader.Play` | sift/sift_reader.cc:134-506 | a client that reads to the end sees exactly the play-back of the stream |
| `SiftWriter.AwaitServes` | sift/sift_writer.cc:489-549 | whatever accesses come before the reply, the waiting call performs exactly those, in order, then returns the value |
| `SiftWriter.TraceWriter.Write` | sift/zfstream.h:115-120 | the output grows by the bytes and the register stays its checksum |
| `SiftWriter.TraceWriter.WriteFields` | sift/sift_formatters.cc:8-30 | the fields written one by one are the body of the record |
| `SiftWriter.TraceWriter.SendVa2pa` | sift/sift_writer.cc:1010-1036 | a page is sent once; one that is not mapped now is tried again |
| `SiftWriter.TraceWriter.SendPages` | sift/sift_writer.cc:225-250 | exactly the pages of the instruction not sent before are sent |
| `SiftWriter.TraceWriter.SendCode` | sift/sift_writer.cc:193-250 | the code records are those of the mode in use |
| `SiftWriter.TraceWriter.WriteInstruction` | sift/sift_writer.cc:261-319 | the short form is used exactly for instructions that fall through and are not predicated, and the running address moves on |
| `SiftWriter.TraceWriter.Instruction` | sift/sift_writer.cc:183-319 | one call writes the code, the mappings of its own and its data addresses and the instruction, and moves the state with them |
| `SiftWriter.TraceWriter.Record` | sift/sift_writer.cc:367-426 | so do the other calls |
| `SiftWriter.TraceWriter.Finish` | sift/sift_writer.cc:120-141 | the trace ends with the checksum of everything before and the end record |
| `SiftWriter.TraceWriter.HandleMemoryRequest` | sift/sift_writer.cc:873-962 | a valid request is performed on the memory and answered, an invalid one dropped |
| `SiftWriter.TraceWriter.Ask` | sift/sift_writer.cc:428-797 | a call that returns a value writes its mappings and record, then waits, serves and returns as the specification says |
| `SiftWriter.TraceWriter.AwaitReply` | sift/sift_writer.cc:489-549 | the waiting loop serves requests in order and returns as the specification says |
| `SiftEndToEnd.HeaderAccepted` | sift/sift_reader.cc:51-114 | the reader accepts the header the writer writes, compressed or not, with the same options |
| `SiftEndToEnd.WriteTrace` | sift/sift_writer.cc:46-99 | the file is the header, then the records of the calls and the closing records, compressed if asked for |
| `SiftEndToEnd.WriteThenRead` | sift/sift_reader.cc:134-506 | for every program and all valid calls, compressed or not, writing and reading back shows exactly the calls and a passed checksum |
| `Tarjan.Component` | tools/gprof2dot.py:393-406 | when a function's lowlink is its own number, what lies above it on the stack is exactly its component |
| `Tarjan.AssignOk` | tools/gprof2dot.py:378-407 | giving a component a cycle keeps all cycles right, also when the component had been found before |
| `Tarjan.Profile.AddFunction` | tools/gprof2dot.py:275-283 | the function joins the new cycle, the merge loop never merges, and no other function or cycle is changed |
| `Tarjan.Profile.Visit` | tools/gprof2dot.py:378-407 | the recursive visit keeps the stack, numbers and cycles consistent and returns the least number reached |
| `Tarjan.Profile.FindCycles` | tools/gprof2dot.py:312-324 | two functions share a cycle exactly when each reaches the other; a function has one exactly when some other is mutual with it |
| `Tarjan.Profile.ListCycles` | tools/gprof2dot.py:319-324 | the cycles listed are those in use, each once |
| `Prune.PruneRoot` | tools/gprof2dot.py:331-343 | exactly the functions reachable from the root stay; it fails exactly when an undefined one is reachable |
| `Prune.PruneLeaf` | tools/gprof2dot.py:345-369 | exactly the functions that reach the leaf stay, with exactly the calls among them |
| `Prune.LeafKeepsWalks` | tools/gprof2dot.py:345-369 | pruning keeps reachability between the functions that are left |
| `TimeProfile.ShareIsPart` | tools/gprof2dot.py:435-448 | with a positive total, ratios of calls are their parts of the total |
| `TimeProfile.SharesSumToOne` | tools/gprof2dot.py:435-448 | incoming ratios sum to 1 if and only if the total is positive or one call has the event |
| `TimeProfile.SharesCanExceedOne` | tools/gprof2dot.py:435-448 | two calls of a function with event value 0 have ratios that sum to 2 |
| `TimeProfile.HandedUpByCallee` | tools/gprof2dot.py:483-501 | time summed over calls is time summed over called functions |
| `TimeProfile.TimeBalance` | tools/gprof2dot.py:450-501 | on every profile, outputs of uncalled functions are all self time plus the exact excess |
| `TimeProfile.TimeConserved` | tools/gprof2dot.py:450-501 | with positive totals they are exactly all self time |
| `TimeProfile.Integrator.SumIncoming` | tools/gprof2dot.py:411-430 | pass 1 gives every function the event over all calls from others |
| `TimeProfile.Integrator.SetRatios` | tools/gprof2dot.py:432-448 | pass 2 gives every call from another function its ratio, and self calls none |
| `TimeProfile.Integrator.IntegrateFunction` | tools/gprof2dot.py:483-493 | the memoised recursion ends, and integrated functions are balanced and never change again |
| `TimeProfile.Integrator.IntegrateCall` | tools/gprof2dot.py:495-501 | each call is given its value once: it had none before |
| `TimeProfile.Integrator.Integrate` | tools/gprof2dot.py:450-481 | afterwards every function is balanced, every call has its value, and the profile's total is all self time |
| `TimeProfile.PropagateTime` | tools/gprof2dot.py:409-501 | ratios and integration together: uncalled functions account for the whole, up to the exact excess |
| `CallTree.SubtreeSum` | tools/gen_profile.py:35-45 | the sum over a call's subtree is its own value and the sums of its children |
| `CallTree.RootSum` | tools/gen_profile.py:153-156 | the subtrees of the roots hold every call exactly once |
| `CallTree.ShownParts` | tools/gen_profile.py:46-53 | replacing folded children by theirs gives the nearest calls that are not folded |
| `CallTree.AbsorbedSum` | tools/gen_profile.py:46-53 | the data of a call with its folded children is that of all calls reached through folded calls only |
| `CallProfile.Profile.AddLine` | tools/gen_profile.py:140-151 | a line with any counters adds a call under its parent, or its data counter by counter to a known call |
| `CallProfile.Profile.FindRoots` | tools/gen_profile.py:153-156 | the roots are the calls whose parent is no call, and each removal finds its child |
| `CallProfile.Profile.OrderCalls` | tools/gen_profile.py:158-164 | the worklist ends and lists each call once, children before their parents |
| `CallProfile.FoldKids` | tools/gen_profile.py:39-53 | the loop adds all children to the total, the folded ones to the data, and replaces them by their children |
| `CallProfile.Profile.BuildTotal` | tools/gen_profile.py:35-55 | one visit keeps totals, data and children right for all visited calls |
| `CallProfile.Profile.BuildTotals` | tools/gen_profile.py:165-169 | so do all visits in the order of the worklist |
| `CallProfile.Profile.Build` | tools/gen_profile.py:153-169 | every total is the sum over its subtree, root totals sum to the totals, exactly the calls named .plt are folded, and each call's data is its own and that of the calls it absorbs; no child set holds a folded call; data not folded sums to the totals less that of folded roots |
| `SharedPtr.ReleaseKeeps` | frontend/shared_ptr.h:79-93 | giving up a link keeps every counter equal to its handles and every object accounted for |
| `SharedPtr.TakeKeeps` | frontend/shared_ptr.h:54-78 | so does taking over a new object |
| `SharedPtr.ShareKeeps` | frontend/shared_ptr.h:144-151 | so does sharing a link |
| `SharedPtr.SwapKeeps` | frontend/shared_ptr.h:176-181 | so does swapping two handles |
| `SharedPtr.AssignIs` | frontend/shared_ptr.h:152-157 | copy, swap and destroy come to sharing the new link and giving up the old one unless it was the same |
| `SharedPtr.ReleaseDeletes` | frontend/shared_ptr.h:79-93 | an object is deleted exactly when its last handle leaves |
| `SharedPtr.AllDeleted` | frontend/shared_ptr.h:158-162 | with no handle left, every object handed over has been deleted, once |
| `SharedPtr.Memory.Acquire` | frontend/shared_ptr.h:54-78 | a handle without a counter gets a new one at 1, one with a counter raises it |
| `SharedPtr.Memory.Release` | frontend/shared_ptr.h:79-93 | the counter falls, and at zero object and counter go |
| `SharedPtr.Memory.Default` | frontend/shared_ptr.h:114-119 | an empty handle joins and shares nothing |
| `SharedPtr.Memory.Construct` | frontend/shared_ptr.h:120-126 | the handle owns the object alone, with a new counter |
| `SharedPtr.Memory.Copy` | frontend/shared_ptr.h:144-151 | the assertion holds, nothing is allocated, and the counter rises |
| `SharedPtr.Memory.Assign` | frontend/shared_ptr.h:152-157 | the handle shares the other's object, also on self-assignment |
| `SharedPtr.Memory.Swap` | frontend/shared_ptr.h:176-181 | pointers and counters change places together |
| `SharedPtr.Memory.Reset` | frontend/shared_ptr.h:163-174 | the old link is given up and the new object taken over |
| `SharedPtr.Memory.Destroy` | frontend/shared_ptr.h:158-162 | the link is given up and the handle gone |
| `SharedPtr.Memory.UseCount` | frontend/shared_ptr.h:43-52 | the count is the number of handles that share, and 0 exactly for null |
| `SharedPtr.Play` | frontend/shared_ptr.h:107-227 | all of this after any sequence of operations, and when no handle is left every object has been deleted, once |
| `Json.PassesAreOneEscape` | tools/localjson.py:326-334 | the successive replace passes equal one escape per character |
| `Json.ReadBack` | tools/localjson.py:92-115 | wherever a written text stands in a text, the reader gives the value and stops right after it |
| `Json.LaidReadBack` | tools/localjson.py:276-283 | so does a text with any spaces, tabs and line breaks between its tokens |
| `Json.NoBlankInEmptyList` | tools/localjson.py:236-250 | an empty list is read if and only if nothing stands in its brackets |
| `Json.RoundTrip` | tools/localjson.py:302-348 | every text the writer may produce for a value is read back as that value |
| `Json.StringReadBack` | tools/localjson.py:164-194 | an escaped string is read back, with or without escaped slashes |
| `Json.NumberReadBack` | tools/localjson.py:143-162 | a decimal integer of either sign is read back |
| `JsonStreams.Reader.EatWhitespace` | tools/localjson.py:276-283 | the index moves to the first character that is not whitespace |
| `JsonStreams.Reader.TakeNumber` | tools/localjson.py:143-162 | the loop reads the number, fails on a lone sign, and stops before a floating-point part |
| `JsonStreams.Reader.TakeString` | tools/localjson.py:164-194 | the loop reads and unescapes up to the closing quote, or fails |
| `JsonStreams.Reader.Read` | tools/localjson.py:92-115 | the recursive reader returns, fails and moves its index as the specification says |
| `JsonStreams.Reader.TakeArray` | tools/localjson.py:236-250 | lists, separators and their failures |
| `JsonStreams.Reader.TakeObject` | tools/localjson.py:252-274 | dictionaries, keys that must be strings, separators and their failures |
| `JsonStreams.EscapeString` | tools/localjson.py:326-334 | the passes of the writer give the escape of the string |
| `JsonStreams.Writer.Write` | tools/localjson.py:302-348 | the result grows by a text of the value, dictionaries in any order |
| `JsonStreams.WriteThenRead` | tools/localjson.py:350-354 | reading what was written gives the value, for every value |
| `Scheduling.StartKeeps` | scripts/scheduler-locality.py:68-76 | a start leaves threads on cores runnable and on known cores; while every runnable thread holds a handed-out core, the next core is free |
| `Scheduling.StartExclusive` | scripts/scheduler-locality.py:68-76 | a start leaves cores exclusive if and only if the core it hands out is not in use by another thread |
| `Scheduling.StallKeeps` | scripts/scheduler-locality.py:81-94 | a stall or exit that passes the core on keeps exclusive cores exclusive and the threads on them runnable, in any state |
| `Scheduling.ResumeKeeps` | scripts/scheduler-locality.py:96-107 | so does a resume to any free core, in any state |
| `Scheduling.EnoughCores` | scripts/scheduler-locality.py:121-128 | there is a free core for every newcomer, even where threads share cores; with exclusive cores exactly one for each if some runnable thread is left out |
| `Scheduling.PeriodicKeeps` | scripts/scheduler-locality.py:109-135 | the periodic hook keeps exclusive cores exclusive and the threads on them runnable, in any state |
| `Scheduling.PeriodicSelects` | scripts/scheduler-locality.py:109-135 | exactly as many runnable threads as cores allow are on cores, none left off has a smaller score, and those that had a core keep it |
| `Scheduling.StepKeeps` | scripts/scheduler-locality.py:68-135 | every event keeps threads on cores runnable and on known cores, and keeps exclusive cores exclusive if and only if it is not a start onto a used core |
| `Scheduling.RunSound` | scripts/scheduler-locality.py:68-135 | in every state of every run threads on cores are runnable and on known cores, and as many cores are handed out as threads started, up to all |
| `Scheduling.RunAsserts` | scripts/scheduler-locality.py:126-128 | in every state of every run the assertion of the periodic hook holds, whatever is selected |
| `Scheduling.RunExclusive` | scripts/scheduler-locality.py:68-135 | in every run, all states have exclusive cores if and only if every start is handed a core that no other thread is on |
| `Scheduling.PatientRun` | scripts/scheduler-locality.py:68-135 | so it is in every run in which no thread resumes before as many threads have started as there are cores |
| `SchedulingScores.RunScores` | scripts/scheduler-locality.py:23-31 | in every run a score is the value set last, 0 at a start or the lowest score at a resume, plus the metric gained from then to its last reading |
| `SchedulingScores.RunSelects` | scripts/scheduler-locality.py:109-135 | after the periodic hook no runnable thread left off has gained less than one on a core; as many run as can, and keepers stay |
| `SchedulingScores.RunPasses` | scripts/scheduler-locality.py:81-94 | a core that a thread leaves goes to a waiting thread that has gained least, and nobody else moves |
| `SchedulingScores.ResumeRuns` | scripts/scheduler-locality.py:96-107 | a thread that resumes is runnable and on a core that was free, if there was one |
| `Scheduling.EarlyResumeShares` | scripts/scheduler-locality.py:96-107 | with cores 1 and 8 and a resume before the second start, two threads share core 8 |
| `Scheduler.SortByScore` | scripts/scheduler-locality.py:116-116 | sorting orders the threads by score and loses none |
| `Scheduler.Locality.constructor` | scripts/scheduler-locality.py:59-66 | the cores are those of the mask, each once |
| `Scheduler.Locality.HookThreadStart` | scripts/scheduler-locality.py:68-76 | the new thread gets the next core until they are exhausted |
| `Scheduler.Locality.HookThreadStall` | scripts/scheduler-locality.py:81-94 | the core goes to a waiting thread with the lowest score, unless the thread was only scheduled out |
| `Scheduler.Locality.HookThreadExit` | scripts/scheduler-locality.py:78-79 | an exit is a stall that frees the core |
| `Scheduler.Locality.HookThreadResume` | scripts/scheduler-locality.py:96-107 | the thread restarts at the lowest score on a free core if there is one |
| `Scheduler.Locality.HookPeriodic` | scripts/scheduler-locality.py:109-135 | in every state of a run the assertion holds and the hook takes the step that `RunSelects` is about; with exclusive cores they stay so |
| `BuildStack.WalkConserves` | tools/buildstack.py:8-42 | for all trees and thresholds, entries and other sum to the total, which is what the values named lost, each once |
| `BuildStack.StackConserves` | tools/buildstack.py:44-55 | the entries of a stack sum to the input total |
| `BuildStack.StackTitled` | tools/buildstack.py:8-55 | with unique titles in the tree the entries have unique titles |
| `StackPlaces.StackShows` | tools/buildstack.py:8-55 | the entries are exactly, and in order, the leaves above their thresholds and the groups above theirs without such an item, under groups all above theirs; each has the sum of its keys that no earlier item named, and other everything else |
| `BuildStack.Values.CountKeys` | tools/buildstack.py:26-34 | keys are counted once and deleted |
| `BuildStack.Values.GetItems` | tools/buildstack.py:8-42 | the recursion over the shared dictionary computes the walk that `StackShows` describes |
| `StackPlaces.MergeValues` | tools/buildstack.py:44-55 | one core's stack as `StackShows` describes it, its scale and total, and other as the sum of the values that no entry has |
| `CpiStack.MoveKeepsSum` | tools/cpistack_data.py:101-104 | moving cycles between components keeps the sum and all other components |
| `CpiStack.FixUpKeeps` | tools/cpistack_data.py:112-122 | for any uncounted cycles, the fix-up takes them all or, where the waiting components it would shorten sum to zero, nothing |
| `CpiStack.FixUpTakes` | tools/cpistack_data.py:112-122 | positive uncounted cycles never divide by zero, are taken from the larger waiting components, and leave each of these positive and shorter |
| `CpiStack.CloseSum` | tools/cpistack_data.py:123-123 | closing makes the stack sum to the time, less an imbalance that was there before |
| `CpiStack.ParsedSum` | tools/cpistack_data.py:57-123 | so after all steps together |
| `CpiStack.Components` | tools/cpistack_data.py:74-111 | every component by name: which critical-path counter it gains, scaled by the base cycles beyond the best, what Issue gains, what Base pays, and that the others stay |
| `CpiStack.Waiting` | tools/cpistack_data.py:112-122 | every waiting component: those larger than the uncounted cycles share these in proportion |
| `CpiStack.CoreData.SplitBaseCycles` | tools/cpistack_data.py:96-104 | the loop moves every counter's scaled value to its component |
| `CpiStack.CoreData.TakeIssue` | tools/cpistack_data.py:105-111 | the loop moves the issue counters out of the base component |
| `CpiStack.CoreData.FixStart` | tools/cpistack_data.py:112-122 | the loop shortens the waiting components by their shares, and fails exactly when it would divide by zero |
| `CpiStack.CoreData.Parse` | tools/cpistack_data.py:57-123 | the steps in their order, closed to the time of the run; it fails exactly when a share divides by zero |
| `CpiStack.TimeStackSum` | tools/cpistack_results.py:20-33 | with unique titles the parts sum to the entries over the cycles |
| `CpiStack.TimeData` | tools/cpistack_results.py:20-40 | titles that a core lacks are added as zero |
| `CpiStack.CoreStack` | tools/cpistack_results.py:4-33 | a core's time stack sums to 1 if and only if its cycles exceed those of the first core by the earlier imbalance; no stack exactly when parsing fails |
| `CpiStack.TimeStacks` | tools/cpistack_results.py:4-40 | every core sums to its cycles in the longest time, less earlier imbalance, over the first core's cycles, so to 1 at equal frequency without imbalance; no result exactly without cycles or when parsing fails |
| `BottleGraph.ContributionsAreBusy` | scripts/bottlegraph.py:15-27 | contributions of all threads sum to the time in which some thread ran |
| `BottleGraph.ThreadBounds` | scripts/bottlegraph.py:15-27 | every recorded thread has a positive contribution, at most its run time, at most the total |
| `BottleGraph.Parallelism` | scripts/bottlegraph.py:54-56 | its parallelism lies between 1 and the number of threads seen |
| `BottleGraph.PieceOf` | scripts/bottlegraph.py:15-52 | over any events: when a piece of time ends and how long it is, and that its threads are exactly those that started or resumed and neither exited nor really stalled since |
| `BottleGraph.Graph.Update` | scripts/bottlegraph.py:15-27 | a later time inside the region ends a piece and credits its threads; an earlier one counts nothing |
| `BottleGraph.Graph.Hook` | scripts/bottlegraph.py:29-52 | every hook moves the clock as stated and keeps the accounts |
| `BottleGraph.Graph.SimEnd` | scripts/bottlegraph.py:54-56 | the figures at the end have all these properties |
| `BottleGraph.Play` | scripts/bottlegraph.py:7-52 | they hold over every sequence of events, in whatever order their times come |

## Left out

- zlib itself, opening of files and pipes, `stat` and the page-map lookup of the operating system: streams are byte
  sequences, the lookup is a function, and compression is a pair of functions of which one undoes the other.
- A stream that ends inside a record is one outcome (`Unreadable`); the assertions that fail on it are not told apart.
- Whole-page mode is for programs that do not touch the topmost page of the address space, as the writer's loop over
  pages would not end there; instructions have 1 to 15 bytes, one size per address, and code does not change.
- Output and Syscall payloads are not empty; the futex special case of short Syscall data is not modelled.
- Counters and statistics of the writer, `getPosition`, `getLength`, and the decoder library: they only add easy members.
- `frontEndStop` and process exit are final states of the protocol.
- `shared_ptr` pointer casts and allocation failure.
- gprof2dot: parsers, themes, output, and `_integrate_cycle`, which only approximates.
- TimeProfile.Integrator.IntegrateFunction: for profiles without cycles; functions in a cycle go to `_integrate_cycle`.
- TimeProfile.Integrator.IntegrateCall: for profiles without cycles, as above.
- TimeProfile.Integrator.Integrate: for profiles without cycles, as above.
- TimeProfile.PropagateTime: for profiles without cycles, as above.
- gprof2dot, gen_profile: functions and calls are entries of dictionaries, not objects; none is reached any other way.
- localjson: tuples and stream reading.
- JsonStreams.Reader.EatWhitespace: a comment is reported as outside the model, not skipped; the writer makes none.
- JsonStreams.Reader.TakeNumber: a floating-point number is reported as outside the model, as numbers are integers here.
- JsonStreams.Reader.TakeString: a `\u` escape is reported as outside the model; the writer makes none.
- JsonStreams.Reader.Read: text with any of these three is reported as outside the model.
- Scheduler: times of the last scheduling in and out, which nothing reads, and command-line parsing.
- gen_profile: reading the trace file, translating addresses and printing.
- CallProfile.Profile.Build: every call has all counters, as every line of a trace does; the script stops with a key
  error otherwise.
- CPI stacks: the repair of missing start times for old result files, `aggregate`, other metrics, colours.
- Bottle graphs: the plot.
- Floating-point rounding everywhere: numbers are reals.
- standalone/, plotting tools, report generation and the small trace scripts.
