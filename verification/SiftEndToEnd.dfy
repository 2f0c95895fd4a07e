/** From the writer's first call to the reader's last: the two classes put together through a trace file. */
module SiftEndToEnd {
  import opened Bytes
  import opened SiftFormat
  import opened SiftReplay
  import opened SiftRecord
  import opened SiftTrace
  import opened SiftReader
  import opened SiftWriter

  const MAGIC: u32 := 0x5446_4953
  const COMPRESSION: int := 4
  const ARCH_IA32: int := 8
  const PHYSICAL_ADDRESS: int := 16
  const ICACHE_VARIABLE: int := 32

  /** The option bits of a trace. */
  function Options(compressed: bool, arch32: bool, p: Program): int {
    COMPRESSION * Bit(compressed) + ARCH_IA32 * Bit(arch32) + PHYSICAL_ADDRESS * Bit(p.sendMapping)
    + ICACHE_VARIABLE * Bit(p.perInstruction)
  }

  /** The file header: magic number, size of extra header, option bits. */
  function FileHeader(compressed: bool, arch32: bool, p: Program): (h: seq<byte>)
    ensures |h| == 16
  {
    LE32(MAGIC) + LE32(0) + LE64(Options(compressed, arch32, p))
  }

  /** What `initStream` makes of a file: whether the records are compressed and have physical addresses, or a
      rejection. */
  datatype Opened = Opened(compressed: bool, hasPa: bool, body: seq<byte>) | Rejected

  /** Every option bit except the four the reader knows leads to a rejection. */
  function Open(file: seq<byte>): Opened {
    if |file| < 16 || U32(file[..4]) != MAGIC then Rejected
    else
      var options := U64(file[8..16]);
      if options % 4 != 0 || options >= 64 then Rejected
      else Opened(options / 4 % 2 == 1, options / 16 % 2 == 1, file[16..])
  }

  lemma HeaderAccepted(compressed: bool, arch32: bool, p: Program, body: seq<byte>)
    ensures Open(FileHeader(compressed, arch32, p) + body) == Opened(compressed, p.sendMapping, body)
  {
    hide LE, FromLE;
    var options := Options(compressed, arch32, p);
    var file := FileHeader(compressed, arch32, p) + body;
    assert file[..4] == LE32(MAGIC) && file[8..16] == LE64(options) && file[16..] == body;
    LE32RoundTrip(MAGIC);
    LE64RoundTrip(options);
  }

  /** The compression library: inflating undoes deflating. */
  ghost predicate Lossless(deflate: seq<byte> -> seq<byte>, inflate: seq<byte> -> seq<byte>) {
    forall s :: inflate(deflate(s)) == s
  }

  lemma {:induction false} TraceSnoc(p: Program, w: Writer, cs: seq<Call>, c: Call)
    requires ValidCalls(p, cs) && ValidCall(p, c)
    ensures TraceMsgs(p, w, cs + [c]) == TraceMsgs(p, w, cs) + CallMsgs(p, TraceNext(p, w, cs), c)
    ensures TraceNext(p, w, cs + [c]) == CallNext(p, TraceNext(p, w, cs), c)
    decreases |cs|
  {
    hide CallMsgs, CallNext;
    var all := cs + [c];
    if cs == [] {
      assert all[1..] == [];
    } else {
      assert all[1..] == cs[1..] + [c];
      TraceSnoc(p, CallNext(p, w, cs[0]), cs[1..], c);
    }
  }

  /** Writes a whole trace to a file. Without a response stream, blocking calls return at once. */
  method WriteTrace(p: Program, arch32: bool, cs: seq<Call>, compressed: bool, deflate: seq<byte> -> seq<byte>)
    returns (file: seq<byte>, ghost ws: seq<Wire>, ghost sumPad: seq<byte>, ghost endPad: seq<byte>)
    requires ValidCalls(p, cs)
    ensures ValidWires(ws) && Msgs(ws) == TraceMsgs(p, START, cs) && |sumPad| == 2 && |endPad| == 2
    ensures var records := Flatten(ws) + Closing(ws, sumPad, endPad);
            file == FileHeader(compressed, arch32, p) + if compressed then deflate(records) else records
  {
    hide Flatten, Msgs, TraceMsgs, TraceNext, CallMsgs, CallNext, Encode, Checksum, FileHeader, ValidCall;
    var writer := new TraceWriter(p, [], map[]);
    ws := [];
    NoWires();
    NoCalls(p);
    assert cs[..0] == [];
    for i := 0 to |cs|
      invariant writer.program == p && writer.State() == TraceNext(p, START, cs[..i])
      invariant writer.Valid() && ValidWires(ws)
      invariant Msgs(ws) == TraceMsgs(p, START, cs[..i]) && writer.output == Flatten(ws)
    {
      ghost var more;
      ValidKinds(p, cs[i]);
      if cs[i].Instruction? {
        more := writer.Instruction(cs[i].inst);
      } else {
        more := writer.Record(cs[i].msg);
      }
      TraceSnoc(p, START, cs[..i], cs[i]);
      assert cs[..i + 1] == cs[..i] + [cs[i]];
      WireConcat([], ws, more);
      assert [] + Flatten(ws + more) == Flatten(ws + more) && [] + Flatten(ws) == Flatten(ws);
      ws := ws + more;
    }
    assert cs[..|cs|] == cs;
    sumPad, endPad := writer.Finish();
    file := FileHeader(compressed, arch32, p) + if compressed then deflate(writer.output) else writer.output;
  }

  lemma ValidKinds(p: Program, c: Call)
    requires ValidCall(p, c)
    ensures c.Instruction? ==> ValidInst(p, c.inst) && c == SiftRecord.Instruction(c.inst)
    ensures c.Record? ==> Emittable(c.msg) && c == SiftRecord.Record(c.msg)
  {
  }

  lemma NoCalls(p: Program)
    ensures TraceMsgs(p, START, []) == [] && TraceNext(p, START, []) == START
  {
  }

  /** END TO END. For every program and every sequence of valid calls, compressed or not, the reader accepts the file
      the writer produced, and its client sees exactly the calls and a passed checksum. */
  method WriteThenRead(p: Program, arch32: bool, cs: seq<Call>, handler: Msg -> seq<byte>,
                       compressed: bool, deflate: seq<byte> -> seq<byte>, inflate: seq<byte> -> seq<byte>)
    returns (events: seq<Event>, finished: bool)
    requires ValidCalls(p, cs) && Answering(handler) && Lossless(deflate, inflate)
    ensures finished && events == TraceSeen(p, 0, 0, cs) + [Checked(true)]
  {
    hide Flatten, Msgs, TraceMsgs, TraceSeen, Closing, Replay, Open, FileHeader, Answering;
    var file;
    ghost var ws, sumPad, endPad;
    file, ws, sumPad, endPad := WriteTrace(p, arch32, cs, compressed, deflate);
    ghost var records := Flatten(ws) + Closing(ws, sumPad, endPad);
    HeaderAccepted(compressed, arch32, p, if compressed then deflate(records) else records);
    var trace := Open(file);
    var reader := new TraceReader(if trace.compressed then inflate(trace.body) else trace.body, handler);
    assert reader.input == records && reader.Rest() == records;
    TraceRoundTrip(p, cs, ws, sumPad, endPad);
    events, finished := Play(reader);
  }
}
