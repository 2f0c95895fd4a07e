/** The response stream: what a blocking call waits for and how it reads what arrives. */
module SiftReply {
  import opened Bytes
  import opened SiftFormat
  import opened SiftMemory

  // ----- replies

  /** The records after which the writer waits for a reply. */
  predicate Blocking(m: Msg) {
    m.InstructionCount? || m.Sync? || m.Syscall? || m.NewThread? || m.Join? || m.Fork? || m.Magic? || m.Emu?
  }

  /** The writer's calls that return a value to the traced program. */
  predicate Asks(m: Msg) {
    match m
    case Syscall(_, _) => true
    case Sync => true
    case Magic(_, _, _) => true
    case Emu(_, _) => true
    case NewThread => true
    case Join(_) => true
    case Fork => true
    case InstructionCount(_) => true
    case _ => false
  }

  /** The blocking calls that serve memory requests while they wait. */
  predicate ServesMemory(m: Msg) {
    m.Sync? || m.Syscall? || m.Magic? || m.Emu?
  }

  function ReplyType(m: Msg): byte
    requires Blocking(m)
  {
    match m
    case InstructionCount(_) => SYNC_RESPONSE
    case Sync => SYNC_RESPONSE
    case Syscall(_, _) => SYSCALL_RESPONSE
    case NewThread => NEW_THREAD_RESPONSE
    case Join(_) => JOIN_RESPONSE
    case Fork => FORK_RESPONSE
    case Magic(_, _, _) => MAGIC_RESPONSE
    case Emu(_, _) => EMU_RESPONSE
  }

  function ReplySize(m: Msg): nat
    requires Blocking(m)
  {
    if m.Syscall? || m.Magic? then 8 else if m.Emu? then 1 + EMU_REPLY_SIZE else 4
  }

  function Reply(m: Msg, value: seq<byte>, pad: seq<byte>): seq<byte>
    requires Blocking(m) && |value| == ReplySize(m) && |pad| == 2
  {
    Header(ReplyType(m), pad, |value|) + value
  }

  function Shutdown(pad: seq<byte>): (s: seq<byte>)
    requires |pad| == 2
    ensures |s| == 8
  {
    Header(SHUTDOWN, pad, 0)
  }

  /** What a waiting writer makes of the front of the response stream. */
  datatype Received =
    | Value(value: seq<byte>, length: nat)
    | MemoryRequest(size: u32)
    | Stops
    | Skips
    | Errs
    | NeedsMore

  /** The loops differ in what they expect and in what they do with anything else: `Syscall` goes on to the next
      header, the other calls give up. Emulate takes replies from servers with a smaller reply structure. */
  function Receive(m: Msg, s: seq<byte>): Received
    requires Blocking(m)
  {
    if |s| < 8 then NeedsMore
    else if s[0] != 0 then Errs
    else
      var kind, size := s[1], U32(s[4..8]);
      if kind == ReplyType(m) then
        if (if m.Emu? then 1 <= size <= ReplySize(m) else size == ReplySize(m)) then
          if |s| < 8 + size then NeedsMore else Value(s[8..8 + size], 8 + size)
        else Errs
      else if kind == MEMORY_REQUEST && ServesMemory(m) then MemoryRequest(size)
      else if kind == SHUTDOWN then Stops
      else if m.Syscall? then Skips
      else Errs
  }

  lemma ReplyReceived(m: Msg, value: seq<byte>, pad: seq<byte>, rest: seq<byte>)
    requires Blocking(m) && |value| == ReplySize(m) && |pad| == 2
    ensures Receive(m, Reply(m, value, pad) + rest) == Value(value, 8 + |value|)
    ensures (Reply(m, value, pad) + rest)[8 + |value|..] == rest
  {
    hide LE, FromLE;
    var s := Reply(m, value, pad) + rest;
    assert s[4..8] == LE32(|value|);
    LE32RoundTrip(|value|);
    assert s[8..8 + |value|] == value;
  }

  lemma RequestReceived(m: Msg, a: Access, pad: seq<byte>, rest: seq<byte>)
    requires Blocking(m) && ServesMemory(m) && ValidAccess(a) && |pad| == 2
    ensures Receive(m, Request(a, pad) + rest) == MemoryRequest(RequestSize(a))
    ensures Handle(RequestSize(a), (Request(a, pad) + rest)[8..]) == Performed(a, |Request(a, pad)| - 8)
    ensures (Request(a, pad) + rest)[|Request(a, pad)|..] == rest
  {
    hide LE, FromLE, Handle, RequestFields;
    var s := Request(a, pad) + rest;
    assert s[4..8] == LE32(RequestSize(a));
    LE32RoundTrip(RequestSize(a));
    assert s[8..] == RequestFields(a) + Payload(a) + rest;
    RequestHandled(a, rest);
  }

  lemma ShutdownReceived(m: Msg, pad: seq<byte>, rest: seq<byte>)
    requires Blocking(m) && |pad| == 2
    ensures Receive(m, Shutdown(pad) + rest) == Stops
  {
    hide LE, FromLE;
  }

  /** A memory access during one of the other blocking calls is not served: the waiting call gives up. */
  lemma ServedExactlyWhen(m: Msg, a: Access, pad: seq<byte>, rest: seq<byte>)
    requires Blocking(m) && ValidAccess(a) && |pad| == 2
    ensures var got, serves := Receive(m, Request(a, pad) + rest), m.Syscall? || m.Sync? || m.Magic? || m.Emu?;
            (got.MemoryRequest? <==> serves) && (got.Errs? <==> !serves)
  {
    hide LE, FromLE;
    var s := Request(a, pad) + rest;
    assert s[0] == 0 && s[1] == MEMORY_REQUEST;
  }
}
