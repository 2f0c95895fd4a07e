/** Writer and reader as two processes connected by two byte streams. Blocking calls make the writer wait for
    a reply; while the reader handles such a call it may itself access the memory of the traced process. */
module SiftProtocol {
  import opened Bytes
  import opened SiftFormat
  import opened SiftImage
  import opened SiftReplay
  import opened SiftRecord
  import opened SiftTrace
  import opened SiftMemory
  import opened SiftReply

  // ----- the system

  datatype WriterPc = Running | Waiting(request: Msg) | Ended | Exited | Failed
  datatype ReaderPc =
    | Reading
    | Handling(request: Msg)
    | Accessing(request: Msg, access: Access)
    | Done
    | Stopped
    | Crashed

  /** `buffer` holds bytes the writer has not flushed. `pending` are the records in transit and `calls`,
      `events`, `accesses`, `results` and `returned` what has happened so far. */
  datatype System = System(
    writer: Writer, sum: byte, wpc: WriterPc, buffer: seq<byte>, mem: Memory,
    toReader: seq<byte>, toWriter: seq<byte>,
    reader: Reader, rpc: ReaderPc,
    pending: seq<Wire>, calls: seq<Call>, events: seq<Event>,
    accesses: seq<Access>, results: seq<seq<byte>>, sent: seq<seq<byte>>, returned: seq<seq<byte>>)

  ghost predicate Init(s: System, mem0: Memory) {
    s == System(START, 0, Running, [], mem0, [], [], INITIAL, Reading, [], [], [], [], [], [], [])
  }

  /** The actions of the two processes; pads are the uninitialised bytes of the records they send. */
  datatype Action =
    | DoCall(call: Call, wires: seq<Wire>)
    | Spill(count: nat)
    | DoEnd(sumPad: seq<byte>, endPad: seq<byte>)
    | ServeMemory(responsePad: seq<byte>)
    | TakeReply
    | TakeOther
    | ReadRecord
    | Malformed
    | StartAccess(access: Access, requestPad: seq<byte>)
    | EndAccess
    | SendReply(value: seq<byte>, replyPad: seq<byte>)
    | Stop(stopPad: seq<byte>)

  ghost predicate Enabled(p: Program, s: System, a: Action) {
    match a
    case DoCall(c, ws) => s.wpc.Running? && ValidCall(p, c) && ValidWires(ws) && Msgs(ws) == CallMsgs(p, s.writer, c)
    case Spill(n) => n <= |s.buffer|
    case DoEnd(x, y) => s.wpc.Running? && |x| == 2 && |y| == 2
    case ServeMemory(x) =>
      && |x| == 2 && s.wpc.Waiting? && Blocking(s.wpc.request)
      && Receive(s.wpc.request, s.toWriter).MemoryRequest?
      && Handle(Receive(s.wpc.request, s.toWriter).size, s.toWriter[8..]).Performed?
    case TakeReply => s.wpc.Waiting? && Blocking(s.wpc.request) && Receive(s.wpc.request, s.toWriter).Value?
    case TakeOther =>
      && s.wpc.Waiting? && Blocking(s.wpc.request)
      && var got := Receive(s.wpc.request, s.toWriter);
         got.Stops? || got.Skips? || got.Errs? || (got.MemoryRequest? && Handle(got.size, s.toWriter[8..]).Dropped?)
    case ReadRecord => s.rpc.Reading? && Decode(s.toReader).Got? && Consistent(s.reader)
    case Malformed => s.rpc.Reading? && forall t :: Decode(s.toReader + t).Bad?
    case StartAccess(x, y) => s.rpc.Handling? && ServesMemory(s.rpc.request) && ValidAccess(x) && |y| == 2
    case EndAccess => s.rpc.Accessing? && !Accept(s.rpc.access, s.toReader).Blocks?
    case SendReply(v, y) => s.rpc.Handling? && Blocking(s.rpc.request) && |v| == ReplySize(s.rpc.request) && |y| == 2
    case Stop(y) => (s.rpc.Reading? || s.rpc.Handling?) && (s.sent != [] || s.accesses != []) && |y| == 2
  }

  /** Emitting records; a blocking call and the end of the trace flush the buffer. */
  function Emit(s: System, ws: seq<Wire>, flush: bool): System
    requires ValidWires(ws)
  {
    var bytes := Flatten(ws);
    var buffer := s.buffer + bytes;
    s.(sum := Checksum(s.sum, bytes), pending := s.pending + ws,
       toReader := if flush then s.toReader + buffer else s.toReader, buffer := if flush then [] else buffer)
  }

  function EndWires(s: System, sumPad: seq<byte>, endPad: seq<byte>): (ws: seq<Wire>)
    requires |sumPad| == 2 && |endPad| == 2
    ensures ValidWires(ws)
  {
    [Wire(Sum(s.sum), sumPad), Wire(End, endPad)]
  }

  function ReaderNext(m: Msg): ReaderPc {
    if Blocking(m) then Handling(m) else if m.End? then Done else Reading
  }

  function NextCall(p: Program, s: System, c: Call, ws: seq<Wire>): System
    requires ValidCall(p, c) && ValidWires(ws)
  {
    var blocking := c.Record? && Blocking(c.msg);
    Emit(s, ws, blocking).(writer := CallNext(p, s.writer, c), calls := s.calls + [c],
                           wpc := if blocking then Waiting(c.msg) else Running)
  }

  function NextServe(s: System, size: u32, pad: seq<byte>): System
    requires |pad| == 2 && |s.toWriter| >= 8 && Handle(size, s.toWriter[8..]).Performed?
  {
    var done := Handle(size, s.toWriter[8..]);
    HandleLength(size, s.toWriter[8..]);
    var (mem, data) := Direct(s.mem, done.access);
    var bytes := Response(done.access, data, pad);
    s.(mem := mem, toWriter := s.toWriter[8 + done.consumed..], sum := Checksum(s.sum, bytes),
       toReader := s.toReader + (s.buffer + bytes), buffer := [])
  }

  function NextOther(s: System, got: Received): System
    requires |s.toWriter| >= 8 && (got.MemoryRequest? ==> Handle(got.size, s.toWriter[8..]).Dropped?)
  {
    if got.Stops? then s.(wpc := Exited)
    else if got.Errs? then s.(wpc := Failed)
    else if got.MemoryRequest? then
      HandleLength(got.size, s.toWriter[8..]);
      s.(toWriter := s.toWriter[8 + Handle(got.size, s.toWriter[8..]).dropped..])
    else s.(toWriter := s.toWriter[8..])
  }

  function NextRead(s: System): System
    requires Decode(s.toReader).Got? && Consistent(s.reader)
  {
    DecodeLength(s.toReader);
    var d := Decode(s.toReader);
    var e := Consume(s.reader, d.msg, s.toReader[..d.length]);
    if e.Fault? then s.(rpc := Crashed)
    else
      s.(reader := e.state, events := s.events + e.events, toReader := s.toReader[d.length..], rpc := ReaderNext(d.msg),
         pending := if s.pending == [] then [] else s.pending[1..])
  }

  function NextEndAccess(s: System, m: Msg, a: Access): System
    requires !Accept(a, s.toReader).Blocks?
  {
    var out := Accept(a, s.toReader);
    if out.Failure? then s.(rpc := Crashed)
    else
      AcceptLength(a, s.toReader);
      s.(reader := s.reader.(checksum := Checksum(s.reader.checksum, s.toReader[..out.length])),
         toReader := s.toReader[out.length..], rpc := Handling(m), accesses := s.accesses + [a],
         results := s.results + [out.data])
  }

  ghost function Next(p: Program, s: System, a: Action): System
    requires Enabled(p, s, a)
  {
    match a
    case DoCall(c, ws) => NextCall(p, s, c, ws)
    case Spill(n) => s.(toReader := s.toReader + s.buffer[..n], buffer := s.buffer[n..])
    case DoEnd(x, y) => Emit(s, EndWires(s, x, y), true).(wpc := Ended)
    case ServeMemory(x) => NextServe(s, Receive(s.wpc.request, s.toWriter).size, x)
    case TakeReply =>
      var got := Receive(s.wpc.request, s.toWriter);
      s.(wpc := Running, toWriter := s.toWriter[got.length..], returned := s.returned + [got.value])
    case TakeOther => NextOther(s, Receive(s.wpc.request, s.toWriter))
    case ReadRecord => NextRead(s)
    case Malformed => s.(rpc := Crashed)
    case StartAccess(x, y) => s.(toWriter := s.toWriter + Request(x, y), rpc := Accessing(s.rpc.request, x))
    case EndAccess => NextEndAccess(s, s.rpc.request, s.rpc.access)
    case SendReply(v, y) =>
      s.(toWriter := s.toWriter + Reply(s.rpc.request, v, y), rpc := Reading, sent := s.sent + [v])
    case Stop(y) => s.(toWriter := s.toWriter + Shutdown(y), rpc := Stopped)
  }

  lemma AcceptLength(a: Access, s: seq<byte>)
    ensures Accept(a, s).Success? ==> Accept(a, s).length <= |s|
  {
  }

  // ----- the invariant

  /** Once the reader has consumed the records in transit it will be in step with the writer and will have
      shown its client exactly the calls made so far; the bytes in transit account for the checksums. */
  ghost predicate Codec(p: Program, s: System) {
    && ValidCalls(p, s.calls) && ValidWires(s.pending) && Consistent(s.reader)
    && s.writer.last == LastOf(0, s.calls)
    && Checksum(s.reader.checksum, s.toReader + s.buffer) == s.sum
    && Feed(s.reader, s.pending).Effect?
    && var e := Feed(s.reader, s.pending);
       && e.state.isa == IsaOf(0, s.calls)
       && InStep(p, s.writer, e.state.(seenEnd := false))
       && e.state.seenEnd == s.wpc.Ended?
       && s.events + e.events == TraceSeen(p, 0, 0, s.calls) + if s.wpc.Ended? then [Checked(true)] else []
  }

  ghost predicate NoRequests(ws: seq<Wire>) {
    forall i :: 0 <= i < |ws| ==> !Blocking(ws[i].msg) && !ws[i].msg.End?
  }

  /** Apart from memory traffic, the bytes in transit are the records in transit. */
  ghost predicate Settled(mem0: Memory, s: System) {
    && ValidWires(s.pending) && s.toReader + s.buffer == Flatten(s.pending)
    && DirectRun(mem0, s.accesses) == (s.mem, s.results)
  }

  /** The reply to the writer's request is the next thing on the response stream, followed by `tail`. */
  ghost predicate ReplyPending(s: System, tail: seq<byte>) {
    && s.wpc.Waiting? && Blocking(s.wpc.request)
    && s.sent != [] && s.sent[..|s.sent| - 1] == s.returned
    && |s.sent[|s.sent| - 1]| == ReplySize(s.wpc.request)
    && exists pad: seq<byte> :: |pad| == 2 && s.toWriter == Reply(s.wpc.request, s.sent[|s.sent| - 1], pad) + tail
  }

  ghost predicate ShutdownPending(s: System) {
    s.returned == s.sent && exists pad: seq<byte> :: |pad| == 2 && s.toWriter == Shutdown(pad)
  }

  ghost predicate ReplyAndShutdown(s: System) {
    exists pad: seq<byte> :: |pad| == 2 && ReplyPending(s, Shutdown(pad))
  }

  /** The request is the last record in transit. */
  ghost predicate RequestPending(s: System, m: Msg) {
    && s.buffer == [] && s.toWriter == [] && s.returned == s.sent
    && s.pending != [] && NoRequests(s.pending[..|s.pending| - 1]) && s.pending[|s.pending| - 1].msg == m
  }

  ghost predicate Quiet(s: System) {
    s.buffer == [] && s.toWriter == [] && s.pending == [] && s.returned == s.sent
  }

  ghost predicate MemoryRequestPending(mem0: Memory, s: System, a: Access) {
    && ValidAccess(a) && s.toReader == [] && DirectRun(mem0, s.accesses) == (s.mem, s.results)
    && exists pad: seq<byte> :: |pad| == 2 && s.toWriter == Request(a, pad)
  }

  ghost predicate MemoryResponsePending(mem0: Memory, s: System, a: Access) {
    var (mem, results) := DirectRun(mem0, s.accesses);
    && s.toWriter == [] && s.results == results && s.mem == Direct(mem, a).0
    && exists pad: seq<byte> :: |pad| == 2 && s.toReader == Response(a, Direct(mem, a).1, pad)
  }

  /** Where the one pending item is. A waiting writer has exactly one: its request in transit, the reader's
      handling of it, a memory request, a memory response, or the reply. */
  ghost predicate Phase(mem0: Memory, s: System) {
    match s.rpc
    case Reading =>
      && Settled(mem0, s)
      && (match s.wpc
          case Running => NoRequests(s.pending) && s.toWriter == [] && s.returned == s.sent
          case Waiting(m) =>
            && Blocking(m)
            && (RequestPending(s, m) || (s.pending == [] && s.buffer == [] && ReplyPending(s, [])))
          case Ended => RequestPending(s, End)
          case _ => false)
    case Handling(m) => s.wpc == Waiting(m) && Blocking(m) && Quiet(s) && Settled(mem0, s)
    case Accessing(m, a) =>
      && s.wpc == Waiting(m) && Blocking(m) && ServesMemory(m) && ValidAccess(a)
      && s.buffer == [] && s.pending == [] && s.returned == s.sent
      && (MemoryRequestPending(mem0, s, a) || MemoryResponsePending(mem0, s, a))
    case Done => s.wpc.Ended? && Quiet(s) && Settled(mem0, s)
    case Stopped =>
      && Settled(mem0, s) && !s.wpc.Failed? && (s.wpc.Waiting? ==> Blocking(s.wpc.request))
      && ((s.wpc.Exited? && s.returned == s.sent) || ShutdownPending(s) || ReplyAndShutdown(s))
    case Crashed => false
  }

  ghost predicate Inv(p: Program, mem0: Memory, s: System) {
    Codec(p, s) && Phase(mem0, s)
  }

  // ----- every action keeps it

  lemma InitInv(p: Program, mem0: Memory, s: System)
    requires Init(s, mem0)
    ensures Inv(p, mem0, s)
  {
    assert s.toReader + s.buffer == [];
    assert Feed(INITIAL, []) == Effect(INITIAL, []);
  }

  predicate Plain(m: Msg) {
    !Blocking(m) && !m.End?
  }

  /** The messages of a call are plain except perhaps the last, which is the one asked for. */
  lemma CallMsgsPlain(p: Program, w: Writer, c: Call) returns (front: seq<Msg>, last: Msg)
    requires ValidCall(p, c)
    ensures CallMsgs(p, w, c) == front + [last]
    ensures forall m :: m in front ==> Plain(m)
    ensures if c.Record? then last == c.msg else Plain(last)
  {
    hide MapMsgs, PageMsgs, CodeBytes;
    var maps := MapMsgs(p, w.va2pa, Touched(c));
    NoEndInMaps(p, w.va2pa, Touched(c));
    if c.Record? {
      front, last := maps, c.msg;
    } else {
      if !p.perInstruction {
        NoEndInPages(p, w.icache, PageOf(c.inst.addr), LastPage(c.inst));
      }
      front, last := CodeMsgs(p, w.icache, c.inst) + maps, InstMsg(w, c.inst);
    }
  }

  /** The records of a blocking call end with the request and contain no other. */
  lemma CallRequests(p: Program, w: Writer, c: Call, ws: seq<Wire>)
    requires ValidCall(p, c) && Msgs(ws) == CallMsgs(p, w, c)
    ensures ws != [] && NoRequests(ws[..|ws| - 1])
    ensures c.Record? ==> ws[|ws| - 1].msg == c.msg
    ensures !(c.Record? && Blocking(c.msg)) ==> NoRequests(ws)
  {
    hide CallMsgs;
    var front, last := CallMsgsPlain(p, w, c);
    var n := |front|;
    assert forall i :: 0 <= i < n ==> Msgs(ws)[i] in front;
    assert forall i :: 0 <= i <= n ==> ws[i].msg == Msgs(ws)[i];
  }

  lemma CallKeepsCodec(p: Program, mem0: Memory, s: System, c: Call, ws: seq<Wire>)
    requires Codec(p, s) && Settled(mem0, s) && s.wpc.Running?
    requires ValidCall(p, c) && ValidWires(ws) && Msgs(ws) == CallMsgs(p, s.writer, c)
    ensures Codec(p, NextCall(p, s, c, ws))
  {
    hide Feed, Flatten, CallMsgs, CallNext, Seen, LastAfter, IsaAfter, LastOf, IsaOf, Checksum, CodeInStep, MapInStep;
    hide StaticInStep;
    var e := Feed(s.reader, s.pending);
    assert e.state.(seenEnd := false) == e.state;
    FeedCall(p, s.writer, e.state, ws, c);
    FeedConcat(s.reader, s.pending, ws);
    TraceSeenSnoc(p, 0, 0, s.calls, c);
    NextLast(p, s.writer, c);
    var f := Feed(e.state, ws);
    assert s.events + (e.events + f.events) == (s.events + e.events) + f.events;
    var s' := NextCall(p, s, c, ws);
    assert s'.toReader + s'.buffer == (s.toReader + s.buffer) + Flatten(ws);
    ChecksumConcat(s.reader.checksum, s.toReader + s.buffer, Flatten(ws));
    assert f.state.(seenEnd := false) == f.state;
  }

  lemma EmitSettled(mem0: Memory, s: System, ws: seq<Wire>, flush: bool)
    requires Settled(mem0, s) && ValidWires(ws)
    ensures Settled(mem0, Emit(s, ws, flush))
  {
    hide Checksum, DirectRun, Flatten;
    FlattenConcat(s.pending, ws);
    var s' := Emit(s, ws, flush);
    assert s'.toReader + s'.buffer == (s.toReader + s.buffer) + Flatten(ws);
  }

  lemma NoRequestsConcat(xs: seq<Wire>, ys: seq<Wire>)
    requires NoRequests(xs) && NoRequests(ys)
    ensures NoRequests(xs + ys)
  {
  }

  lemma CallKeepsPhase(p: Program, mem0: Memory, s: System, c: Call, ws: seq<Wire>)
    requires Phase(mem0, s) && s.wpc.Running?
    requires ValidCall(p, c) && ValidWires(ws) && Msgs(ws) == CallMsgs(p, s.writer, c)
    ensures Phase(mem0, NextCall(p, s, c, ws))
  {
    hide CallMsgs, CallNext, Blocking, Msgs, NoRequests, DirectRun, Checksum, Shutdown, Flatten, Settled;
    var s' := NextCall(p, s, c, ws);
    CallRequests(p, s.writer, c, ws);
    EmitSettled(mem0, s, ws, c.Record? && Blocking(c.msg));
    SettledFields(mem0, Emit(s, ws, c.Record? && Blocking(c.msg)), s');
    if s.rpc.Reading? {
      var n := |s'.pending| - 1;
      var k := |ws| - 1;
      assert s'.pending[..n] == s.pending + ws[..k];
      NoRequestsConcat(s.pending, ws[..k]);
      if s'.wpc.Running? {
        NoRequestsConcat(s.pending, ws);
      }
    }
  }

  lemma SettledFields(mem0: Memory, s: System, s': System)
    requires Settled(mem0, s)
    requires s'.toReader + s'.buffer == s.toReader + s.buffer && s'.pending == s.pending
    requires s'.accesses == s.accesses && s'.mem == s.mem && s'.results == s.results
    ensures Settled(mem0, s')
  {
  }

  lemma SpillKeeps(p: Program, mem0: Memory, s: System, n: nat)
    requires Inv(p, mem0, s) && n <= |s.buffer|
    ensures Inv(p, mem0, s.(toReader := s.toReader + s.buffer[..n], buffer := s.buffer[n..]))
  {
    hide Codec, Settled, NoRequests, Reply, Shutdown, MemoryRequestPending, MemoryResponsePending;
    var s' := s.(toReader := s.toReader + s.buffer[..n], buffer := s.buffer[n..]);
    if s.buffer == [] {
      assert s'.toReader == s.toReader && s' == s;
    } else {
      assert s'.toReader + s'.buffer == s.toReader + s.buffer;
      CodecFields(p, s, s');
      KeepsSettled(mem0, s, s');
    }
  }

  /** The closing records pass the reader's checksum comparison and end the trace. */
  lemma FeedClosing(r: Reader, sum: u32, sumPad: seq<byte>, endPad: seq<byte>)
    requires Consistent(r) && sum == r.checksum && |sumPad| == 2 && |endPad| == 2
    ensures var e := Feed(r, [Wire(Sum(sum), sumPad), Wire(End, endPad)]);
            e.Effect? && e.events == [Checked(true)] && e.state == r.(seenEnd := true, checksum := e.state.checksum)
  {
    hide Encode, Checksum;
    var ws := [Wire(Sum(sum), sumPad), Wire(End, endPad)];
    assert ws[1..] == [Wire(End, endPad)] && ws[1..][1..] == [];
    var r1 := Consume(r, ws[0].msg, Encode(ws[0].msg, ws[0].pad)).state;
    assert Feed(r1, ws[1..]) == Prepend([], Feed(Consume(r1, End, Encode(End, endPad)).state, []));
  }

  lemma EndKeepsCodec(p: Program, mem0: Memory, s: System, x: seq<byte>, y: seq<byte>)
    requires Codec(p, s) && Settled(mem0, s) && s.wpc.Running? && |x| == 2 && |y| == 2
    ensures Codec(p, Emit(s, EndWires(s, x, y), true).(wpc := Ended))
  {
    hide Feed, Flatten, LastOf, IsaOf, Checksum, TraceSeen, CodeInStep, MapInStep, StaticInStep;
    var ws := EndWires(s, x, y);
    var e := Feed(s.reader, s.pending);
    FeedChecksum(s.reader, s.pending);
    FeedConcat(s.reader, s.pending, ws);
    FeedClosing(e.state, s.sum, x, y);
    var f := Feed(e.state, ws);
    assert s.events + (e.events + f.events) == (s.events + e.events) + f.events;
    assert TraceSeen(p, 0, 0, s.calls) + [] == TraceSeen(p, 0, 0, s.calls);
    var s' := Emit(s, ws, true);
    assert s'.toReader + s'.buffer == (s.toReader + s.buffer) + Flatten(ws);
    ChecksumConcat(s.reader.checksum, s.toReader + s.buffer, Flatten(ws));
  }

  lemma EndKeepsPhase(mem0: Memory, s: System, x: seq<byte>, y: seq<byte>)
    requires Phase(mem0, s) && s.wpc.Running? && |x| == 2 && |y| == 2
    ensures Phase(mem0, Emit(s, EndWires(s, x, y), true).(wpc := Ended))
  {
    hide DirectRun, Checksum, Shutdown, Flatten, Settled;
    var ws := EndWires(s, x, y);
    var s' := Emit(s, ws, true).(wpc := Ended);
    EmitSettled(mem0, s, ws, true);
    SettledFields(mem0, Emit(s, ws, true), s');
    var n := |s'.pending| - 1;
    assert s'.pending[..n] == s.pending + ws[..1] && s'.pending[n] == ws[1];
  }

  // ----- the reader

  /** The reader recognises the first record in transit as soon as all of its bytes have arrived. */
  lemma FirstRecord(ws: seq<Wire>, arrived: seq<byte>, buffer: seq<byte>)
    requires ValidWires(ws) && arrived + buffer == Flatten(ws) && Decode(arrived).Got?
    ensures ws != []
    ensures var bytes := Encode(ws[0].msg, ws[0].pad);
            && Decode(arrived) == Got(ws[0].msg, |bytes|) && |bytes| <= |arrived| && arrived[..|bytes|] == bytes
            && arrived[|bytes|..] + buffer == Flatten(ws[1..])
  {
    hide Encode, Decode;
    DecodeLength(arrived);
    var all := arrived + buffer;
    var n := Decode(arrived).length;
    assert all[..n] == arrived[..n];
    DecodeLocal(arrived, all);
    assert ws != [] by { assert |all| > 0; }
    var w := ws[0];
    RoundTrip(w.msg, w.pad, Flatten(ws[1..]));
    var bytes := Encode(w.msg, w.pad);
    assert all == bytes + Flatten(ws[1..]);
    assert arrived[..n] == all[..n] == bytes;
    assert arrived[n..] + buffer == all[n..] == Flatten(ws[1..]);
  }

  /** A stream that some continuation completes to whole records is never malformed. */
  lemma NeverMalformed(ws: seq<Wire>, arrived: seq<byte>, buffer: seq<byte>)
    requires ValidWires(ws) && arrived + buffer == Flatten(ws)
    ensures exists t :: Decode(arrived + t).Got?
  {
    hide Encode, Decode;
    if ws == [] {
      RoundTrip(End, [0, 0], []);
      var t := Encode(End, [0, 0]) + [];
      assert arrived == [] && arrived + t == t;
      assert Decode(arrived + t).Got?;
    } else {
      RoundTrip(ws[0].msg, ws[0].pad, Flatten(ws[1..]));
      assert Decode(arrived + buffer).Got?;
    }
  }

  lemma ReadKeepsCodec(p: Program, mem0: Memory, s: System)
    requires Codec(p, s) && Settled(mem0, s) && Decode(s.toReader).Got?
    ensures Codec(p, NextRead(s)) && s.pending != [] && NextRead(s).rpc == ReaderNext(s.pending[0].msg)
  {
    hide Encode, Decode, Consume, TraceSeen, LastOf, IsaOf, Checksum, InStep, Flatten;
    FirstRecord(s.pending, s.toReader, s.buffer);
    var w := s.pending[0];
    var bytes := Encode(w.msg, w.pad);
    var e := Consume(s.reader, w.msg, bytes);
    var f := Feed(e.state, s.pending[1..]);
    assert Feed(s.reader, s.pending) == Prepend(e.events, f);
    assert s.events + (e.events + f.events) == (s.events + e.events) + f.events;
    ConsumeChecksum(s.reader, w.msg, bytes);
    assert s.toReader + s.buffer == bytes + (s.toReader[|bytes|..] + s.buffer);
    ChecksumConcat(s.reader.checksum, bytes, s.toReader[|bytes|..] + s.buffer);
  }

  lemma ConsumeChecksum(r: Reader, m: Msg, bytes: seq<byte>)
    requires Consistent(r)
    ensures Consume(r, m, bytes).Effect? ==> Consume(r, m, bytes).state.checksum == Checksum(r.checksum, bytes)
  {
  }

  lemma ReadKeepsPhase(p: Program, mem0: Memory, s: System)
    requires Codec(p, s) && Phase(mem0, s) && s.rpc.Reading? && Decode(s.toReader).Got?
    ensures Phase(mem0, NextRead(s))
  {
    hide Encode, Decode, Consume, Feed, InStep, TraceSeen, LastOf, IsaOf, DirectRun, Checksum, Flatten;
    ReadKeepsCodec(p, mem0, s);
    FirstRecord(s.pending, s.toReader, s.buffer);
    var s' := NextRead(s);
    var n := |s.pending|;
    assert s'.pending == s.pending[1..];
    assert Settled(mem0, s');
    if n > 1 && !s.wpc.Running? {
      assert s.pending[0] == s.pending[..n - 1][0];
      assert s'.pending[..n - 2] == s.pending[..n - 1][1..];
    }
  }

  // ----- the waiting writer

  lemma CodecFields(p: Program, s: System, s': System)
    requires Codec(p, s) && s'.writer == s.writer && s'.sum == s.sum && s'.reader == s.reader && s'.pending == s.pending
    requires s'.toReader + s'.buffer == s.toReader + s.buffer
    requires s'.calls == s.calls && s'.events == s.events && s'.wpc.Ended? == s.wpc.Ended?
    ensures Codec(p, s')
  {
    hide Feed, InStep, TraceSeen, LastOf, IsaOf, Checksum;
  }

  lemma ReplyIsNext(s: System, tail: seq<byte>)
    requires ReplyPending(s, tail)
    ensures var v := s.sent[|s.sent| - 1];
            && Receive(s.wpc.request, s.toWriter) == Value(v, 8 + |v|)
            && 8 + |v| <= |s.toWriter| && s.toWriter[8 + |v|..] == tail
  {
    hide Receive, Reply;
    var v := s.sent[|s.sent| - 1];
    var pad: seq<byte> :| |pad| == 2 && s.toWriter == Reply(s.wpc.request, v, pad) + tail;
    ReplyReceived(s.wpc.request, v, pad, tail);
    assert |Reply(s.wpc.request, v, pad)| == 8 + |v| by { ReplyLength(s.wpc.request, v, pad); }
  }

  lemma ReplyLength(m: Msg, value: seq<byte>, pad: seq<byte>)
    requires Blocking(m) && |value| == ReplySize(m) && |pad| == 2
    ensures |Reply(m, value, pad)| == 8 + |value|
  {
  }

  lemma RequestIsNext(mem0: Memory, s: System, m: Msg, a: Access)
    requires MemoryRequestPending(mem0, s, a) && Blocking(m) && ServesMemory(m)
    ensures Receive(m, s.toWriter) == MemoryRequest(RequestSize(a))
    ensures |s.toWriter| >= 8 && Handle(RequestSize(a), s.toWriter[8..]) == Performed(a, |s.toWriter| - 8)
  {
    hide Receive, Request, Handle;
    var pad: seq<byte> :| |pad| == 2 && s.toWriter == Request(a, pad);
    assert Request(a, pad) + [] == s.toWriter;
    RequestReceived(m, a, pad, []);
    assert |Request(a, pad)| >= 8 by { RequestLength(a, pad); }
  }

  lemma ShutdownIsNext(s: System, m: Msg)
    requires ShutdownPending(s) && Blocking(m)
    ensures Receive(m, s.toWriter) == Stops
  {
    hide Receive, Shutdown;
    var pad: seq<byte> :| |pad| == 2 && s.toWriter == Shutdown(pad);
    assert Shutdown(pad) + [] == s.toWriter;
    ShutdownReceived(m, pad, []);
  }

  /** What the writer finds on the response stream, by phase: nothing, the reply, a memory request or the
      shutdown notice. */
  lemma WriterFinds(mem0: Memory, s: System)
    requires Phase(mem0, s) && s.wpc.Waiting?
    ensures Blocking(s.wpc.request)
    ensures var got := Receive(s.wpc.request, s.toWriter);
            && (got.Value? ==> if s.rpc.Stopped? then ReplyAndShutdown(s)
                               else s.rpc.Reading? && s.pending == [] && s.buffer == [] && ReplyPending(s, []))
            && (got.MemoryRequest? ==>
                  && s.rpc.Accessing? && s.rpc.request == s.wpc.request
                  && MemoryRequestPending(mem0, s, s.rpc.access) && got.size == RequestSize(s.rpc.access))
            && (got.Stops? ==> s.rpc.Stopped? && ShutdownPending(s))
            && !got.Errs? && !got.Skips?
  {
    hide Receive, ReplyPending, MemoryRequestPending, MemoryResponsePending, ShutdownPending, Settled, DirectRun;
    var m := s.wpc.request;
    EmptyReceive(m);
    match s.rpc
    case Reading =>
      if ReplyPending(s, []) {
        ReplyIsNext(s, []);
      }
    case Handling(_) =>
    case Accessing(_, a) =>
      if MemoryRequestPending(mem0, s, a) {
        RequestIsNext(mem0, s, m, a);
      } else {
        NothingToWriter(mem0, s, a);
      }
    case Done =>
    case Stopped =>
      if ShutdownPending(s) {
        ShutdownIsNext(s, m);
      } else {
        var pad: seq<byte> :| |pad| == 2 && ReplyPending(s, Shutdown(pad));
        ReplyIsNext(s, Shutdown(pad));
      }
  }

  lemma EmptyReceive(m: Msg)
    requires Blocking(m)
    ensures Receive(m, []) == NeedsMore
  {
  }

  lemma NothingToWriter(mem0: Memory, s: System, a: Access)
    requires MemoryResponsePending(mem0, s, a)
    ensures s.toWriter == []
  {
  }

  lemma TakeReplyKeeps(p: Program, mem0: Memory, s: System)
    requires Inv(p, mem0, s) && Enabled(p, s, TakeReply)
    ensures Inv(p, mem0, Next(p, s, TakeReply))
    ensures Next(p, s, TakeReply).returned == s.sent
  {
    hide Codec, Receive, Settled, DirectRun, Shutdown, Reply;
    WriterFinds(mem0, s);
    var s' := Next(p, s, TakeReply);
    var v := s.sent[|s.sent| - 1];
    assert s.sent == s.sent[..|s.sent| - 1] + [v];
    if s.rpc.Stopped? {
      var pad: seq<byte> :| |pad| == 2 && ReplyPending(s, Shutdown(pad));
      ReplyIsNext(s, Shutdown(pad));
      assert ShutdownPending(s');
    } else {
      ReplyIsNext(s, []);
    }
    CodecFields(p, s, s');
    KeepsSettled(mem0, s, s');
  }

  lemma TakeOtherKeeps(p: Program, mem0: Memory, s: System)
    requires Inv(p, mem0, s) && Enabled(p, s, TakeOther)
    ensures Inv(p, mem0, Next(p, s, TakeOther))
    ensures Next(p, s, TakeOther).wpc.Exited?
  {
    hide Codec, Receive, Settled, DirectRun, Shutdown, Reply, Handle;
    WriterFinds(mem0, s);
    var got := Receive(s.wpc.request, s.toWriter);
    if got.MemoryRequest? {
      RequestIsNext(mem0, s, s.wpc.request, s.rpc.access);
      assert false;
    }
    var s' := Next(p, s, TakeOther);
    CodecFields(p, s, s');
    KeepsSettled(mem0, s, s');
  }

  lemma ServeKeeps(p: Program, mem0: Memory, s: System, pad: seq<byte>)
    requires Inv(p, mem0, s) && Enabled(p, s, ServeMemory(pad))
    ensures Inv(p, mem0, Next(p, s, ServeMemory(pad)))
  {
    hide Receive, DirectRun, Direct, Shutdown, Reply, Handle, Response, Feed, InStep, TraceSeen, LastOf, IsaOf;
    hide Checksum, NoRequests;
    WriterFinds(mem0, s);
    var a := s.rpc.access;
    RequestIsNext(mem0, s, s.wpc.request, a);
    var s' := Next(p, s, ServeMemory(pad));
    var bytes := Response(a, Direct(s.mem, a).1, pad);
    assert s'.toReader == bytes && s'.toReader + s'.buffer == (s.toReader + s.buffer) + bytes;
    ChecksumConcat(s.reader.checksum, s.toReader + s.buffer, bytes);
    assert s'.toWriter == [];
    assert MemoryResponsePending(mem0, s', a);
  }

  lemma KeepsSettled(mem0: Memory, s: System, s': System)
    requires s'.toReader + s'.buffer == s.toReader + s.buffer && s'.pending == s.pending
    requires s'.accesses == s.accesses && s'.mem == s.mem && s'.results == s.results
    ensures Settled(mem0, s) ==> Settled(mem0, s')
  {
  }

  // ----- the handling reader

  lemma StartAccessKeeps(p: Program, mem0: Memory, s: System, a: Access, pad: seq<byte>)
    requires Inv(p, mem0, s) && Enabled(p, s, StartAccess(a, pad))
    ensures Inv(p, mem0, Next(p, s, StartAccess(a, pad)))
  {
    hide Codec, DirectRun, Request;
    var s' := Next(p, s, StartAccess(a, pad));
    CodecFields(p, s, s');
    assert s'.toWriter == Request(a, pad);
    assert s.toReader == [] by { assert Flatten([]) == []; }
    assert MemoryRequestPending(mem0, s', a);
  }

  /** The response on the stream is the one `AccessMemory` waits for, with the bytes of the direct access. */
  lemma ResponseIsNext(mem0: Memory, s: System, a: Access)
    requires MemoryResponsePending(mem0, s, a) && ValidAccess(a)
    ensures Accept(a, s.toReader) == Success(Direct(DirectRun(mem0, s.accesses).0, a).1, |s.toReader|)
  {
    hide Accept, Response, Direct, DirectRun;
    var mem := DirectRun(mem0, s.accesses).0;
    var pad: seq<byte> :| |pad| == 2 && s.toReader == Response(a, Direct(mem, a).1, pad);
    ResponseAccepted(mem, a, pad, []);
    assert s.toReader + [] == s.toReader;
  }

  lemma EndAccessKeeps(p: Program, mem0: Memory, s: System)
    requires Inv(p, mem0, s) && Enabled(p, s, EndAccess)
    ensures Inv(p, mem0, Next(p, s, EndAccess)) && Next(p, s, EndAccess).rpc.Handling?
  {
    hide Accept, Direct, DirectRun, InStep, TraceSeen, LastOf, IsaOf, Checksum, Response, Request;
    var a := s.rpc.access;
    var s' := Next(p, s, EndAccess);
    if MemoryRequestPending(mem0, s, a) {
      NothingToAccept(a);
      assert false;
    }
    ResponseIsNext(mem0, s, a);
    DirectRunSnoc(mem0, s.accesses, a);
    assert s.toReader[..|s.toReader|] == s.toReader && s'.toReader == [];
    assert s.toReader + s.buffer == s.toReader && s'.toReader + s'.buffer == [];
    EmptySum(s'.reader.checksum);
    CodecSum(p, s);
    hide Codec;
    AccessKeepsStep(p, s, s');
  }

  lemma CodecSum(p: Program, s: System)
    requires Codec(p, s)
    ensures Checksum(s.reader.checksum, s.toReader + s.buffer) == s.sum
  {
    hide Feed, InStep, TraceSeen, LastOf, IsaOf, Checksum;
  }

  lemma NothingToAccept(a: Access)
    ensures Accept(a, []) == Blocks
  {
  }

  lemma AccessKeepsStep(p: Program, s: System, s': System)
    requires Codec(p, s) && s.pending == [] && s'.pending == [] && s'.writer == s.writer && s'.sum == s.sum
    requires s'.reader == s.reader.(checksum := s'.reader.checksum)
    requires Checksum(s'.reader.checksum, s'.toReader + s'.buffer) == s'.sum
    requires s'.calls == s.calls && s'.events == s.events && s'.wpc == s.wpc
    ensures Codec(p, s')
  {
    hide TraceSeen, LastOf, IsaOf, Checksum, CodeInStep, MapInStep, StaticInStep;
  }

  lemma SendReplyKeeps(p: Program, mem0: Memory, s: System, v: seq<byte>, pad: seq<byte>)
    requires Inv(p, mem0, s) && Enabled(p, s, SendReply(v, pad))
    ensures Inv(p, mem0, Next(p, s, SendReply(v, pad)))
  {
    hide Codec, DirectRun, Reply, Settled;
    var s' := Next(p, s, SendReply(v, pad));
    CodecFields(p, s, s');
    KeepsSettled(mem0, s, s');
    assert s'.sent[..|s'.sent| - 1] == s.sent;
    assert s'.toWriter == Reply(s.rpc.request, v, pad) + [];
  }

  lemma StopKeeps(p: Program, mem0: Memory, s: System, pad: seq<byte>)
    requires Inv(p, mem0, s) && Enabled(p, s, Stop(pad))
    ensures Inv(p, mem0, Next(p, s, Stop(pad)))
  {
    hide Codec, DirectRun, Reply, Settled, Shutdown, NoRequests;
    var s' := Next(p, s, Stop(pad));
    CodecFields(p, s, s');
    KeepsSettled(mem0, s, s');
    if s.toWriter == [] {
      assert s'.toWriter == Shutdown(pad);
      assert ShutdownPending(s') || s.returned != s.sent;
    } else {
      var v := s.sent[|s.sent| - 1];
      var pad1: seq<byte> :| |pad1| == 2 && s.toWriter == Reply(s.wpc.request, v, pad1) + [];
      assert s'.toWriter == Reply(s.wpc.request, v, pad1) + Shutdown(pad);
      assert ReplyPending(s', Shutdown(pad));
    }
  }

  // ----- the theorem

  /** Every action keeps the invariant: no party ever crashes, fails or sees a message it does not expect. */
  lemma StepKeepsInv(p: Program, mem0: Memory, s: System, a: Action)
    requires Inv(p, mem0, s) && Enabled(p, s, a)
    ensures Inv(p, mem0, Next(p, s, a))
  {
    hide Codec, Phase;
    match a
    case DoCall(c, ws) => CallKeeps(p, mem0, s, c, ws);
    case Spill(n) => SpillKeeps(p, mem0, s, n);
    case DoEnd(x, y) => EndKeeps(p, mem0, s, x, y);
    case ServeMemory(x) => ServeKeeps(p, mem0, s, x);
    case TakeReply => TakeReplyKeeps(p, mem0, s);
    case TakeOther => TakeOtherKeeps(p, mem0, s);
    case ReadRecord => ReadKeeps(p, mem0, s);
    case Malformed => MalformedNever(p, mem0, s);
    case StartAccess(x, y) => StartAccessKeeps(p, mem0, s, x, y);
    case EndAccess => EndAccessKeeps(p, mem0, s);
    case SendReply(v, y) => SendReplyKeeps(p, mem0, s, v, y);
    case Stop(y) => StopKeeps(p, mem0, s, y);
  }

  lemma CallKeeps(p: Program, mem0: Memory, s: System, c: Call, ws: seq<Wire>)
    requires Inv(p, mem0, s) && Enabled(p, s, DoCall(c, ws))
    ensures Inv(p, mem0, NextCall(p, s, c, ws))
  {
    hide Codec, NextCall, Settled;
    CallKeepsCodec(p, mem0, s, c, ws);
    CallKeepsPhase(p, mem0, s, c, ws);
  }

  lemma EndKeeps(p: Program, mem0: Memory, s: System, x: seq<byte>, y: seq<byte>)
    requires Inv(p, mem0, s) && Enabled(p, s, DoEnd(x, y))
    ensures Inv(p, mem0, Next(p, s, DoEnd(x, y)))
  {
    hide Codec, Emit, Settled;
    EndKeepsCodec(p, mem0, s, x, y);
    EndKeepsPhase(mem0, s, x, y);
  }

  lemma ReadKeeps(p: Program, mem0: Memory, s: System)
    requires Inv(p, mem0, s) && Enabled(p, s, ReadRecord)
    ensures Inv(p, mem0, NextRead(s))
  {
    hide Codec, NextRead, Settled;
    ReadKeepsCodec(p, mem0, s);
    ReadKeepsPhase(p, mem0, s);
  }

  lemma MalformedNever(p: Program, mem0: Memory, s: System)
    requires Inv(p, mem0, s)
    ensures !Enabled(p, s, Malformed)
  {
    hide Codec, NoRequests, Reply, Flatten, DirectRun, Decode;
    if s.rpc.Reading? {
      NeverMalformed(s.pending, s.toReader, s.buffer);
    }
  }
}
