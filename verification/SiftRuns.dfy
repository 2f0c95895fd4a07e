/** Whole runs of the two processes: safety, the values that calls return, and progress. */
module SiftRuns {
  import opened Bytes
  import opened SiftFormat
  import opened SiftReplay
  import opened SiftRecord
  import opened SiftTrace
  import opened SiftMemory
  import opened SiftReply
  import opened SiftProtocol

  // ----- whole runs

  ghost predicate IsRun(p: Program, mem0: Memory, run: seq<System>, actions: seq<Action>) {
    && |run| == |actions| + 1 && Init(run[0], mem0)
    && forall i :: 0 <= i < |actions| ==> Enabled(p, run[i], actions[i]) && run[i + 1] == Next(p, run[i], actions[i])
  }

  lemma {:induction false} RunInv(p: Program, mem0: Memory, run: seq<System>, actions: seq<Action>, k: nat)
    requires IsRun(p, mem0, run, actions) && k < |run|
    ensures Inv(p, mem0, run[k])
  {
    hide Inv, Enabled, Next, Init;
    if k == 0 {
      InitInv(p, mem0, run[0]);
    } else {
      RunInv(p, mem0, run, actions, k - 1);
      StepKeepsInv(p, mem0, run[k - 1], actions[k - 1]);
    }
  }

  /** SAFETY. In every state of every run: neither side has crashed or failed; what the reader's client has seen
      is a prefix of the writer's calls, and all of them with a passed checksum once the trace is finished; the
      memory accesses so far gave the bytes they give on one memory directly; and every value a blocking call
      returned is the one the reader sent for it. */
  lemma Safety(p: Program, mem0: Memory, run: seq<System>, actions: seq<Action>, k: nat)
    requires IsRun(p, mem0, run, actions) && k < |run|
    ensures var s := run[k];
            && !s.rpc.Crashed? && !s.wpc.Failed?
            && ValidCalls(p, s.calls)
            && s.events <= TraceSeen(p, 0, 0, s.calls) + [Checked(true)]
            && (s.rpc.Done? ==> s.events == TraceSeen(p, 0, 0, s.calls) + [Checked(true)])
            && DirectRun(mem0, s.accesses).1 == s.results && Answers(mem0, s.accesses, s.results)
            && s.returned <= s.sent && Answered(s)
  {
    hide Init, Enabled, Next, TraceSeen, LastOf, IsaOf, Checksum, InStep, NoRequests, Flatten, IsRun, Answers, Requests;
    RunInv(p, mem0, run, actions, k);
    RunAnswered(p, mem0, run, actions, k);
    var s := run[k];
    RunAnswers(mem0, s.accesses);
    var e := Feed(s.reader, s.pending);
    assert s.events + e.events <= TraceSeen(p, 0, 0, s.calls) + [Checked(true)];
    assert s.events <= s.events + e.events;
  }

  // ----- requests and values

  /** The calls that return a value, in order. */
  function Requests(cs: seq<Call>): seq<Msg> {
    if cs == [] then []
    else
      var c := cs[|cs| - 1];
      Requests(cs[..|cs| - 1]) + if c.Record? && Asks(c.msg) then [c.msg] else []
  }

  lemma RequestsSnoc(cs: seq<Call>, c: Call)
    ensures Requests(cs + [c]) == Requests(cs) + if c.Record? && Asks(c.msg) then [c.msg] else []
  {
    assert (cs + [c])[..|cs|] == cs;
  }

  /** The size of the value that a call returns: the program gets 64 bits from a system call or a magic instruction,
      a flag and a reply structure from an emulated instruction, and 32 bits from the others. */
  function ValueSize(m: Msg): nat {
    if m.Syscall? || m.Magic? then 8 else if m.Emu? then 1 + EMU_REPLY_SIZE else 4
  }

  /** The last request is the one the writer waits for, or left without; all others have returned. The values sent
      answer the requests one by one. */
  ghost predicate Answered(s: System) {
    var rs := Requests(s.calls);
    && |rs| == |s.returned| + (if s.wpc.Waiting? || s.wpc.Exited? then 1 else 0)
    && (s.wpc.Waiting? ==> rs[|rs| - 1] == s.wpc.request)
    && |s.sent| <= |rs| && (forall i :: 0 <= i < |s.sent| ==> |s.sent[i]| == ValueSize(rs[i]))
    && (forall i :: 0 <= i < |s.accesses| ==> ValidAccess(s.accesses[i]))
  }

  /** The writer waits after exactly the calls that return a value. */
  lemma CallWaits(p: Program, s: System, c: Call, ws: seq<Wire>)
    requires Enabled(p, s, DoCall(c, ws))
    ensures Next(p, s, DoCall(c, ws)).wpc ==
            if c.Record? && (c.msg.Syscall? || c.msg.Sync? || c.msg.Magic? || c.msg.Emu? || c.msg.NewThread?
                             || c.msg.Join? || c.msg.Fork? || c.msg.InstructionCount?)
            then Waiting(c.msg) else Running
  {
    hide CallMsgs, CallNext, Checksum, Flatten;
  }

  lemma CallAnswered(p: Program, mem0: Memory, s: System, c: Call, ws: seq<Wire>)
    requires Inv(p, mem0, s) && Answered(s) && Enabled(p, s, DoCall(c, ws))
    ensures Answered(Next(p, s, DoCall(c, ws)))
  {
    hide CallMsgs, CallNext, Checksum, Flatten, Requests, Codec, Settled, Msgs;
    CallWaits(p, s, c, ws);
    RequestsSnoc(s.calls, c);
    AllReturned(mem0, s);
  }

  lemma AllReturned(mem0: Memory, s: System)
    requires Phase(mem0, s) && s.wpc.Running?
    ensures s.returned == s.sent
  {
    hide Settled, NoRequests;
  }

  lemma ReplyAnswered(p: Program, mem0: Memory, s: System, v: seq<byte>, pad: seq<byte>)
    requires Inv(p, mem0, s) && Answered(s) && Enabled(p, s, SendReply(v, pad))
    ensures Answered(Next(p, s, SendReply(v, pad)))
  {
    hide Requests, Codec, Settled, Reply;
  }

  lemma StepAnswered(p: Program, mem0: Memory, s: System, a: Action)
    requires Inv(p, mem0, s) && Answered(s) && Enabled(p, s, a)
    ensures Answered(Next(p, s, a))
  {
    hide Codec, Phase, Requests, Checksum, Flatten, Handle, Receive, Direct, Response, Decode, Consume, Request, Accept;
    hide Reply, Shutdown, CallMsgs, Msgs, NextCall;
    match a
    case DoCall(c, ws) => CallAnswered(p, mem0, s, c, ws);
    case TakeReply => TakeReplyKeeps(p, mem0, s);
    case TakeOther => TakeOtherKeeps(p, mem0, s);
    case Malformed => MalformedNever(p, mem0, s);
    case EndAccess => EndAnswered(p, mem0, s);
    case SendReply(v, y) => ReplyAnswered(p, mem0, s, v, y);
    case _ =>
  }

  lemma EndAnswered(p: Program, mem0: Memory, s: System)
    requires Inv(p, mem0, s) && Answered(s) && Enabled(p, s, EndAccess)
    ensures Answered(Next(p, s, EndAccess))
  {
    hide Codec, Phase, Requests, Accept, Checksum, ValidAccess, ValueSize;
    AccessIsValid(mem0, s);
  }

  lemma AccessIsValid(mem0: Memory, s: System)
    requires Phase(mem0, s) && s.rpc.Accessing?
    ensures ValidAccess(s.rpc.access)
  {
    hide MemoryRequestPending, MemoryResponsePending, ValidAccess;
  }

  lemma InitAnswered(mem0: Memory, s: System)
    requires Init(s, mem0)
    ensures Answered(s)
  {
  }

  /** VALUES. In every run the calls that return a value and the values returned correspond one to one: only the call
      that the writer waits in, or left at a shutdown, has none. Each value has the size that its call returns and is
      the one the reader sent for it. */
  lemma {:induction false} RunAnswered(p: Program, mem0: Memory, run: seq<System>, actions: seq<Action>, k: nat)
    requires IsRun(p, mem0, run, actions) && k < |run|
    ensures Answered(run[k])
  {
    hide Inv, Enabled, Next, Answered, Init;
    if k == 0 {
      InitAnswered(mem0, run[0]);
    } else {
      RunAnswered(p, mem0, run, actions, k - 1);
      RunInv(p, mem0, run, actions, k - 1);
      StepAnswered(p, mem0, run[k - 1], actions[k - 1]);
    }
  }

  ghost function One(b: bool): nat {
    if b then 1 else 0
  }

  /** ONE PENDING ITEM. In every run, while the writer waits and the reader has not shut down, exactly one thing is
      pending: the request in transit, its handling, a memory request, a memory response, or the reply, and a reply
      has the type and size that the call waits for. */
  lemma OnePending(p: Program, mem0: Memory, run: seq<System>, actions: seq<Action>, k: nat)
    requires IsRun(p, mem0, run, actions) && k < |run| && run[k].wpc.Waiting? && !run[k].rpc.Stopped?
    ensures var s := run[k];
            && One(s.rpc.Reading? && s.pending != []) + One(s.rpc.Handling?) + One(s.rpc.Reading? && s.toWriter != [])
               + One(s.rpc.Accessing? && s.toWriter != []) + One(s.rpc.Accessing? && s.toReader != []) == 1
            && (s.rpc.Reading? && s.toWriter != [] ==>
                 Blocking(s.wpc.request) && Receive(s.wpc.request, s.toWriter).Value?)
  {
    hide Init, Enabled, Next, Codec, IsRun, DirectRun, Receive, ReplySize, ReplyType;
    RunInv(p, mem0, run, actions, k);
    var s := run[k];
    if s.rpc.Reading? && s.pending == [] {
      ReplyIsNext(s, []);
    } else if s.rpc.Accessing? {
      NotEmpty(mem0, s);
    }
  }

  lemma NotEmpty(mem0: Memory, s: System)
    requires s.rpc.Accessing?
    ensures MemoryRequestPending(mem0, s, s.rpc.access) ==> s.toReader == [] && s.toWriter != []
    ensures MemoryResponsePending(mem0, s, s.rpc.access) ==> s.toReader != [] && s.toWriter == []
  {
    hide DirectRun, Direct;
  }

  lemma ReadingCanStep(p: Program, mem0: Memory, s: System)
    requires Inv(p, mem0, s) && s.rpc.Reading? && !s.wpc.Running?
    ensures if s.pending != [] then Enabled(p, s, ReadRecord) else Enabled(p, s, TakeReply)
  {
    hide Receive, Decode, DirectRun, Feed, InStep, TraceSeen, LastOf, IsaOf, Checksum, NoRequests, Reply;
    if s.pending != [] {
      CanRead(s.pending, s.toReader);
    } else {
      ReplyIsNext(s, []);
    }
  }

  lemma AccessingCanStep(p: Program, mem0: Memory, s: System) returns (a: Action)
    requires Inv(p, mem0, s) && s.rpc.Accessing?
    ensures Enabled(p, s, a) && (a.ServeMemory? || a.EndAccess?)
  {
    hide Codec, Receive, Handle, Accept, MemoryRequestPending, MemoryResponsePending;
    if MemoryRequestPending(mem0, s, s.rpc.access) {
      RequestIsNext(mem0, s, s.rpc.request, s.rpc.access);
      a := ServeMemory([0, 0]);
    } else {
      ResponseIsNext(mem0, s, s.rpc.access);
      a := EndAccess;
    }
  }

  lemma StoppedCanStep(p: Program, mem0: Memory, s: System) returns (a: Action)
    requires Inv(p, mem0, s) && s.rpc.Stopped? && s.wpc.Waiting?
    ensures Enabled(p, s, a) && (a.TakeOther? || a.TakeReply?)
  {
    hide Codec, Receive, Handle, ReplyPending, Shutdown;
    if ShutdownPending(s) {
      ShutdownIsNext(s, s.wpc.request);
      a := TakeOther;
    } else {
      var pad: seq<byte> :| |pad| == 2 && ReplyPending(s, Shutdown(pad));
      ReplyIsNext(s, Shutdown(pad));
      a := TakeReply;
    }
  }

  /** PROGRESS. Whenever the writer waits some party can take a step that serves its call; when it runs it can
      end the trace; and when it has ended, the reader can read on until it is done. Only a writer that left
      after a shutdown notice, and a finished trace, are at rest. */
  lemma NoDeadlock(p: Program, mem0: Memory, s: System) returns (a: Action)
    requires Inv(p, mem0, s)
    requires !s.wpc.Exited? && !(s.wpc.Ended? && (s.rpc.Done? || s.rpc.Stopped?))
    ensures Enabled(p, s, a) && !a.Spill? && !a.StartAccess? && !a.Stop? && !a.DoCall?
  {
    hide Codec, Settled, RequestPending, ReplyPending, MemoryRequestPending, MemoryResponsePending;
    if s.wpc.Running? {
      a := DoEnd([0, 0], [0, 0]);
    } else if s.rpc.Reading? {
      ReadingCanStep(p, mem0, s);
      a := if s.pending != [] then ReadRecord else TakeReply;
    } else if s.rpc.Handling? {
      a := SendReply(seq(ReplySize(s.rpc.request), i => 0), [0, 0]);
    } else if s.rpc.Accessing? {
      a := AccessingCanStep(p, mem0, s);
    } else {
      a := StoppedCanStep(p, mem0, s);
    }
  }

  lemma CanRead(ws: seq<Wire>, arrived: seq<byte>)
    requires ws != [] && ValidWires(ws) && arrived + [] == Flatten(ws)
    ensures Decode(arrived).Got?
  {
    hide Encode, Decode;
    RoundTrip(ws[0].msg, ws[0].pad, Flatten(ws[1..]));
    assert arrived == Flatten(ws);
  }

  /** How many steps a waiting writer is away from its reply, not counting further memory accesses. */
  function Distance(s: System): nat {
    match s.rpc
    case Reading => if s.pending == [] then 1 else 5 + |s.pending|
    case Handling(_) => 5
    case Accessing(_, _) => if s.toWriter == [] then 6 else 7
    case _ => 0
  }

  /** Every step while the writer waits brings it closer to its reply, except that the reader's handler may
      start another memory access. */
  lemma WaitingEnds(p: Program, mem0: Memory, s: System, a: Action)
    requires Inv(p, mem0, s) && s.wpc.Waiting? && Enabled(p, s, a) && !a.StartAccess? && !a.Spill?
    ensures var s' := Next(p, s, a);
            !s'.wpc.Waiting? || Distance(s') < Distance(s)
  {
    hide Codec, Receive, Handle, DirectRun, NoRequests, Accept, Request, Response, Reply, Shutdown, Checksum, Direct;
    hide NextRead;
    match a
    case ReadRecord => ReadComesCloser(p, mem0, s);
    case Malformed => MalformedNever(p, mem0, s);
    case ServeMemory(x) =>
      WriterFinds(mem0, s);
      RequestIsNext(mem0, s, s.wpc.request, s.rpc.access);
    case TakeOther => TakeOtherKeeps(p, mem0, s);
    case EndAccess => EndAccessKeeps(p, mem0, s);
    case _ =>
  }

  lemma ReadComesCloser(p: Program, mem0: Memory, s: System)
    requires Inv(p, mem0, s) && s.wpc.Waiting? && Enabled(p, s, ReadRecord)
    ensures Distance(NextRead(s)) < Distance(s)
  {
    hide Codec, DirectRun, NoRequests, Consume, Decode, Flatten, Encode, ReplyPending;
    ReadKeepsCodec(p, mem0, s);
    var n := |s.pending|;
    if n > 1 {
      assert s.pending[0] == s.pending[..n - 1][0];
      PlainFirst(s.pending[..n - 1]);
    }
  }

  lemma PlainFirst(ws: seq<Wire>)
    requires NoRequests(ws) && ws != []
    ensures ReaderNext(ws[0].msg) == Reading
  {
  }
}
