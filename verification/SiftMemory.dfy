/** The nested protocol by which a simulator reads and writes the memory of the traced process: a request on
    the response stream, a callback in the traced process, and a response on the trace stream. */
module SiftMemory {
  import opened Bytes
  import opened SiftFormat

  type Memory = map<u64, byte>

  const MEM_READ: u32 := 1
  const MEM_WRITE: u32 := 2

  datatype Access = Load(lock: u32, addr: u64, size: u32) | Save(lock: u32, addr: u64, data: seq<byte>)

  // ----- direct access to one byte memory

  /** The writer clears its buffer before the callback fills it, so an address without memory reads as 0. */
  function Peek(mem: Memory, a: u64): byte {
    if a in mem then mem[a] else 0
  }

  function Fetch(mem: Memory, a: u64, n: nat): (s: seq<byte>)
    ensures |s| == n
    decreases n
  {
    if n == 0 then [] else [Peek(mem, a)] + Fetch(mem, Add64(a, 1), n - 1)
  }

  function Poke(mem: Memory, a: u64, data: seq<byte>): Memory
    decreases |data|
  {
    if data == [] then mem else Poke(mem[a := data[0]], Add64(a, 1), data[1..])
  }

  /** What an access does to a memory it is applied to directly: the new memory and the bytes read. */
  function Direct(mem: Memory, a: Access): (Memory, seq<byte>) {
    match a
    case Load(_, addr, size) => (mem, Fetch(mem, addr, size))
    case Save(_, addr, data) => (Poke(mem, addr, data), [])
  }

  /** A write changes exactly the bytes it covers, and reading them gives what was written. */
  lemma {:induction false} PokeThenPeek(mem: Memory, a: u64, data: seq<byte>, k: nat)
    requires k < |data| <= TWO64
    ensures Peek(Poke(mem, a, data), Add64(a, k)) == data[k]
    decreases |data|
  {
    if k == 0 {
      PokeElsewhere(mem[a := data[0]], Add64(a, 1), data[1..], a);
    } else {
      PokeThenPeek(mem[a := data[0]], Add64(a, 1), data[1..], k - 1);
      AddTwice(a, 1, k - 1);
    }
  }

  lemma {:induction false} PokeElsewhere(mem: Memory, a: u64, data: seq<byte>, x: u64)
    requires forall k :: 0 <= k < |data| ==> Add64(a, k) != x
    ensures Peek(Poke(mem, a, data), x) == Peek(mem, x)
    decreases |data|
  {
    if data != [] {
      assert Add64(a, 0) == a;
      forall k | 0 <= k < |data| - 1
        ensures Add64(Add64(a, 1), k) != x
      {
        AddTwice(a, 1, k);
      }
      PokeElsewhere(mem[a := data[0]], Add64(a, 1), data[1..], x);
    }
  }

  lemma {:induction false} FetchAt(mem: Memory, a: u64, n: nat, k: nat)
    requires k < n
    ensures Fetch(mem, a, n)[k] == Peek(mem, Add64(a, k))
    decreases n
  {
    if k == 0 {
      assert Add64(a, 0) == a;
    } else {
      AddTwice(a, 1, k - 1);
      hide Peek, Add64;
      FetchAt(mem, Add64(a, 1), n - 1, k - 1);
    }
  }

  /** How far an address lies behind another, around the end of the address space. */
  function Offset(a: u64, x: u64): u64 {
    (x - a) % TWO64
  }

  lemma OffsetIs(a: u64, x: u64, k: nat)
    requires k < TWO64
    ensures Add64(a, k) == x <==> k == Offset(a, x)
  {
  }

  /** Every byte of the memory after a write. */
  lemma PokeAt(mem: Memory, a: u64, data: seq<byte>, x: u64)
    requires |data| <= TWO64
    ensures Peek(Poke(mem, a, data), x) == if Offset(a, x) < |data| then data[Offset(a, x)] else Peek(mem, x)
  {
    hide Poke, Offset;
    forall k | 0 <= k < |data|
      ensures Add64(a, k) == x <==> k == Offset(a, x)
    {
      OffsetIs(a, x, k);
    }
    if Offset(a, x) < |data| {
      PokeThenPeek(mem, a, data, Offset(a, x));
    } else {
      PokeElsewhere(mem, a, data, x);
    }
  }

  // ----- the request

  predicate ValidAccess(a: Access) {
    match a
    case Load(_, _, size) => size > 0
    case Save(_, _, data) => 0 < |data| < TWO32 - 20
  }

  function Payload(a: Access): seq<byte> {
    if a.Save? then a.data else []
  }

  function Operation(a: Access): u32 {
    if a.Save? then MEM_WRITE else MEM_READ
  }

  function Size(a: Access): u32
    requires a.Save? ==> |a.data| < TWO32
  {
    if a.Save? then |a.data| else a.size
  }

  /** The 32-bit size field of a request wraps around for huge writes. */
  function RequestSize(a: Access): u32 {
    (20 + |Payload(a)|) % TWO32
  }

  function RequestFields(a: Access): (s: seq<byte>)
    requires a.Save? ==> |a.data| < TWO32
    ensures |s| == 20
  {
    LE64(a.addr) + LE32(Size(a)) + LE32(a.lock) + LE32(Operation(a))
  }

  function Request(a: Access, pad: seq<byte>): (s: seq<byte>)
    requires (a.Save? ==> |a.data| < TWO32) && |pad| == 2
  {
    Header(MEMORY_REQUEST, pad, RequestSize(a)) + RequestFields(a) + Payload(a)
  }

  // ----- the writer's answer

  /** What `handleMemoryRequest` does behind a header with this size: it performs the access and answers, it
      drops the request after reading `dropped` bytes, or it waits for more bytes. */
  datatype Answer = Performed(access: Access, consumed: nat) | Dropped(dropped: nat) | Waits

  function Handle(size: u32, s: seq<byte>): Answer {
    if size < 20 then Dropped(0)
    else if |s| < 20 then Waits
    else
      var addr, n, lock, op := U64(s[..8]), U32(s[8..12]), U32(s[12..16]), U32(s[16..20]);
      var payload := size - 20;
      if op == MEM_READ then
        if payload != 0 || n == 0 then Dropped(20) else Performed(Load(lock, addr, n), 20)
      else if op == MEM_WRITE then
        if payload == 0 || payload != n then Dropped(20)
        else if |s| < 20 + payload then Waits
        else Performed(Save(lock, addr, s[20..20 + payload]), 20 + payload)
      else Dropped(20)
  }

  /** The response record; the size field wraps around for the largest reads. */
  function Response(a: Access, data: seq<byte>, pad: seq<byte>): (s: seq<byte>)
    requires |pad| == 2
    ensures |s| == 20 + |data|
  {
    Header(MEMORY_RESPONSE, pad, (12 + |data|) % TWO32) + (LE64(a.addr) + LE32(Operation(a))) + data
  }

  // ----- the reader's view of the response

  /** What `AccessMemory` finds on the trace stream. */
  datatype Outcome = Success(data: seq<byte>, length: nat) | Failure | Blocks

  function Accept(a: Access, s: seq<byte>): Outcome {
    if |s| < 8 then Blocks
    else if s[1] != MEMORY_RESPONSE then Failure
    else if |s| < 20 then Blocks
    else if U64(s[8..16]) != a.addr then Failure
    else
      var payload := (U32(s[4..8]) - 12) % TWO32;
      match a
      case Load(_, _, size) =>
        if size != payload then Failure
        else if |s| < 20 + size then Blocks
        else Success(s[20..20 + size], 20 + size)
      case Save(_, _, _) => if payload != 0 then Failure else Success([], 20)
  }

  // ----- requests and responses are understood

  lemma FieldsRoundTrip(a: Access, rest: seq<byte>)
    requires a.Save? ==> |a.data| < TWO32
    ensures var s := RequestFields(a) + rest;
            U64(s[..8]) == a.addr && U32(s[8..12]) == Size(a) && U32(s[12..16]) == a.lock
            && U32(s[16..20]) == Operation(a)
  {
    hide LE, FromLE;
    var s := RequestFields(a) + rest;
    assert s[..8] == LE64(a.addr) && s[8..12] == LE32(Size(a));
    assert s[12..16] == LE32(a.lock) && s[16..20] == LE32(Operation(a));
    LE64RoundTrip(a.addr);
    LE32RoundTrip(Size(a));
    LE32RoundTrip(a.lock);
    LE32RoundTrip(Operation(a));
  }

  /** The writer performs exactly the access that was requested, and it does so if and only if the access is
      valid: for a write of 2^32 - 20 bytes or more the size field has wrapped around and the request is dropped. */
  lemma RequestHandled(a: Access, rest: seq<byte>)
    requires a.Save? ==> |a.data| < TWO32
    ensures Handle(RequestSize(a), RequestFields(a) + Payload(a) + rest) ==
            if ValidAccess(a) then Performed(a, 20 + |Payload(a)|)
            else Dropped(if RequestSize(a) < 20 then 0 else 20)
  {
    hide LE, FromLE, RequestFields;
    var s := RequestFields(a) + Payload(a) + rest;
    FieldsRoundTrip(a, Payload(a) + rest);
    assert s == RequestFields(a) + (Payload(a) + rest);
    if a.Save? && ValidAccess(a) {
      assert s[20..20 + |a.data|] == a.data;
    }
  }

  lemma ResponseAccepted(mem: Memory, a: Access, pad: seq<byte>, rest: seq<byte>)
    requires ValidAccess(a) && |pad| == 2
    ensures var data := Direct(mem, a).1;
            Accept(a, Response(a, data, pad) + rest) == Success(data, |Response(a, data, pad)|)
  {
    hide LE, FromLE, Fetch, Poke;
    var data := Direct(mem, a).1;
    var s := Response(a, data, pad) + rest;
    assert s[4..8] == LE32((12 + |data|) % TWO32);
    LE32RoundTrip((12 + |data|) % TWO32);
    assert s[8..16] == LE64(a.addr);
    LE64RoundTrip(a.addr);
    assert s[20..20 + |data|] == data;
  }

  // ----- whole sequences of accesses

  function DirectRun(mem: Memory, accesses: seq<Access>): (Memory, seq<seq<byte>>)
    decreases |accesses|
  {
    if accesses == [] then (mem, [])
    else
      var (mem1, data) := Direct(mem, accesses[0]);
      var (mem2, more) := DirectRun(mem1, accesses[1..]);
      (mem2, [data] + more)
  }

  lemma {:induction false} DirectRunSnoc(mem: Memory, accesses: seq<Access>, a: Access)
    ensures var (mem1, results) := DirectRun(mem, accesses);
            DirectRun(mem, accesses + [a]) == (Direct(mem1, a).0, results + [Direct(mem1, a).1])
    decreases |accesses|
  {
    hide Direct;
    var all := accesses + [a];
    if accesses == [] {
      assert all[1..] == [];
      var data := Direct(mem, a).1;
      assert [data] + [] == [] + [data];
    } else {
      assert all[1..] == accesses[1..] + [a];
      var (mem1, data) := Direct(mem, accesses[0]);
      DirectRunSnoc(mem1, accesses[1..], a);
      var (mem2, more) := DirectRun(mem1, accesses[1..]);
      assert [data] + (more + [Direct(mem2, a).1]) == ([data] + more) + [Direct(mem2, a).1];
    }
  }

  /** The byte last saved at an address, or the one that was there in the beginning. */
  function LastSaved(mem: Memory, accesses: seq<Access>, x: u64): byte {
    if accesses == [] then if x in mem then mem[x] else 0
    else
      var a := accesses[|accesses| - 1];
      if a.Save? && Offset(a.addr, x) < |a.data| then a.data[Offset(a.addr, x)]
      else LastSaved(mem, accesses[..|accesses| - 1], x)
  }

  lemma {:induction false} MemoryIsLastSaved(mem: Memory, accesses: seq<Access>, x: u64)
    requires forall i :: 0 <= i < |accesses| ==> ValidAccess(accesses[i])
    ensures Peek(DirectRun(mem, accesses).0, x) == LastSaved(mem, accesses, x)
  {
    if accesses != [] {
      var n := |accesses| - 1;
      var before, a := accesses[..n], accesses[n];
      assert before + [a] == accesses;
      hide DirectRun, Fetch, Poke, Offset;
      MemoryIsLastSaved(mem, before, x);
      DirectRunSnoc(mem, before, a);
      if a.Save? {
        PokeAt(DirectRun(mem, before).0, a.addr, a.data, x);
      }
    }
  }

  /** The bytes that the accesses give: a load, at each address, what was saved there last. */
  ghost predicate Answers(mem: Memory, accesses: seq<Access>, results: seq<seq<byte>>) {
    && |results| == |accesses|
    && forall i :: 0 <= i < |accesses| ==>
      if accesses[i].Save? then results[i] == []
      else Loaded(mem, accesses[..i], accesses[i].addr, accesses[i].size, results[i])
  }

  ghost predicate Loaded(mem: Memory, before: seq<Access>, addr: u64, size: u32, data: seq<byte>) {
    |data| == size && forall k :: 0 <= k < size ==> data[k] == LastSaved(mem, before, Add64(addr, k))
  }

  /** LAST WRITES. Over any sequence of valid accesses, every byte that a load gives is the one saved last at its
      address by an earlier access, or the initial one if there was none. */
  lemma {:induction false} RunAnswers(mem: Memory, accesses: seq<Access>)
    requires forall i :: 0 <= i < |accesses| ==> ValidAccess(accesses[i])
    ensures Answers(mem, accesses, DirectRun(mem, accesses).1)
  {
    if accesses != [] {
      var n := |accesses| - 1;
      var before, a := accesses[..n], accesses[n];
      assert before + [a] == accesses;
      hide DirectRun, Fetch, Poke, Loaded;
      RunAnswers(mem, before);
      DirectRunSnoc(mem, before, a);
      if a.Load? {
        LoadAnswers(mem, before, a.addr, a.size);
      }
      assert forall i :: 0 <= i < n ==> before[..i] == accesses[..i];
    }
  }

  lemma LoadAnswers(mem: Memory, before: seq<Access>, addr: u64, size: u32)
    requires forall i :: 0 <= i < |before| ==> ValidAccess(before[i])
    ensures Loaded(mem, before, addr, size, Fetch(DirectRun(mem, before).0, addr, size))
  {
    hide DirectRun, Fetch, LastSaved, Peek;
    var now := DirectRun(mem, before).0;
    forall k | 0 <= k < size
      ensures Fetch(now, addr, size)[k] == LastSaved(mem, before, Add64(addr, k))
    {
      FetchAt(now, addr, size, k);
      MemoryIsLastSaved(mem, before, Add64(addr, k));
    }
  }

  /** One access through the wire: request out, callback on the memory, response back. None when any
      of the three parties gives up. */
  datatype Remote = Remote(mem: Memory, data: seq<byte>) | Broken

  function RemoteAccess(mem: Memory, a: Access, pad: seq<byte>, pad': seq<byte>): Remote
    requires (a.Save? ==> |a.data| < TWO32) && |pad| == 2 && |pad'| == 2
  {
    var request := Request(a, pad);
    if request[0] != 0 || request[1] != MEMORY_REQUEST then Broken
    else
      match Handle(U32(request[4..8]), request[8..])
      case Waits => Broken
      case Dropped(_) => Broken
      case Performed(b, consumed) =>
        if consumed != |request| - 8 then Broken
        else
          var (mem', data) := Direct(mem, b);
          match Accept(a, Response(b, data, pad'))
          case Success(got, length) => if length != |Response(b, data, pad')| then Broken else Remote(mem', got)
          case _ => Broken
  }

  /** A remote access succeeds exactly when it is valid. Then a load gives the bytes of the memory at its addresses,
      and a save replaces exactly those. */
  lemma RemoteBytes(mem: Memory, a: Access, pad: seq<byte>, pad': seq<byte>)
    requires (a.Save? ==> |a.data| < TWO32) && |pad| == 2 && |pad'| == 2
    ensures var r := RemoteAccess(mem, a, pad, pad');
            && (r.Remote? <==> ValidAccess(a))
            && (r.Remote? && a.Load? ==>
                 && r.mem == mem && |r.data| == a.size
                 && forall k :: 0 <= k < a.size ==> r.data[k] == Peek(mem, Add64(a.addr, k)))
            && (r.Remote? && a.Save? ==>
                 && r.data == []
                 && forall x: u64 :: Peek(r.mem, x) ==
                      if Offset(a.addr, x) < |a.data| then a.data[Offset(a.addr, x)] else Peek(mem, x))
  {
    hide RemoteAccess, Fetch, Poke, Offset, Peek;
    RemoteIsDirect(mem, a, pad, pad');
    if ValidAccess(a) && a.Load? {
      forall k | 0 <= k < a.size
        ensures Fetch(mem, a.addr, a.size)[k] == Peek(mem, Add64(a.addr, k))
      {
        FetchAt(mem, a.addr, a.size, k);
      }
    } else if ValidAccess(a) {
      forall x: u64
        ensures Peek(Poke(mem, a.addr, a.data), x) ==
          if Offset(a.addr, x) < |a.data| then a.data[Offset(a.addr, x)] else Peek(mem, x)
      {
        PokeAt(mem, a.addr, a.data, x);
      }
    }
  }

  /** A remote access succeeds exactly when it is valid, and then it is the direct access. */
  lemma RemoteIsDirect(mem: Memory, a: Access, pad: seq<byte>, pad': seq<byte>)
    requires (a.Save? ==> |a.data| < TWO32) && |pad| == 2 && |pad'| == 2
    ensures RemoteAccess(mem, a, pad, pad') ==
            if ValidAccess(a) then Remote(Direct(mem, a).0, Direct(mem, a).1) else Broken
  {
    hide LE, FromLE, Fetch, Poke, Handle, RequestFields, Accept;
    var request := Request(a, pad);
    assert request[4..8] == LE32(RequestSize(a));
    LE32RoundTrip(RequestSize(a));
    assert request[8..] == RequestFields(a) + Payload(a) + [];
    RequestHandled(a, []);
    if ValidAccess(a) {
      ResponseAccepted(mem, a, pad', []);
      var response := Response(a, Direct(mem, a).1, pad');
      assert response + [] == response;
    }
  }

  lemma HandleLength(size: u32, s: seq<byte>)
    ensures Handle(size, s).Performed? ==> Handle(size, s).consumed <= |s|
    ensures Handle(size, s).Dropped? ==> Handle(size, s).dropped <= |s|
  {
  }

  lemma RequestLength(a: Access, pad: seq<byte>)
    requires ValidAccess(a) && |pad| == 2
    ensures |Request(a, pad)| == 28 + |Payload(a)|
  {
  }
}
