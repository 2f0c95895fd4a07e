/** `Sift::Writer`, with its output stream, sent sets, and the loops in which blocking calls wait. */
module SiftWriter {
  import opened Basics
  import opened Bytes
  import opened SiftFormat
  import opened SiftImage
  import opened SiftReplay
  import opened SiftRecord
  import opened SiftMemory
  import opened SiftReply

  // ----- waiting for a reply

  /** How a blocking call ends: with the reply, because the simulator shut down, because it read something it did
      not expect, or because the response stream ended. */
  datatype Waited = Replied(value: seq<byte>) | Exits | GivesUp | StreamEnds

  datatype AwaitOut = AwaitOut(result: Waited, mem: Memory, served: seq<Access>, rest: seq<byte>)

  /** The waiting loop: memory requests are served on `mem` until something else arrives. */
  function Await(m: Msg, mem: Memory, s: seq<byte>): AwaitOut
    requires Blocking(m)
    decreases |s|
  {
    match Receive(m, s)
    case NeedsMore => AwaitOut(StreamEnds, mem, [], s)
    case Errs => AwaitOut(GivesUp, mem, [], s)
    case Stops => AwaitOut(Exits, mem, [], s)
    case Skips => Await(m, mem, s[8..])
    case Value(v, n) => AwaitOut(Replied(v), mem, [], s[n..])
    case MemoryRequest(size) =>
      HandleLength(size, s[8..]);
      match Handle(size, s[8..])
      case Waits => AwaitOut(StreamEnds, mem, [], s)
      case Dropped(k) => Await(m, mem, s[8 + k..])
      case Performed(a, k) =>
        var out := Await(m, Direct(mem, a).0, s[8 + k..]);
        out.(served := [a] + out.served)
  }

  /** The requests for a list of accesses, as the reader writes them, followed by `rest`. */
  function Requests(accesses: seq<Access>, pads: seq<seq<byte>>, rest: seq<byte>): seq<byte>
    requires |pads| == |accesses| && forall i :: 0 <= i < |pads| ==> ValidAccess(accesses[i]) && |pads[i]| == 2
    decreases |accesses|
  {
    if accesses == [] then rest
    else
      assert ValidAccess(accesses[0]) && |pads[0]| == 2;
      Request(accesses[0], pads[0]) + Requests(accesses[1..], pads[1..], rest)
  }

  /** Whatever accesses a handler makes before it replies, the waiting call performs exactly those, in order, with
      the effect they have on the memory directly, and then returns the reply. */
  lemma {:induction false} AwaitServes(m: Msg, mem: Memory, accesses: seq<Access>, pads: seq<seq<byte>>,
                                       value: seq<byte>, pad: seq<byte>, rest: seq<byte>)
    requires Blocking(m) && (ServesMemory(m) || accesses == []) && |value| == ReplySize(m) && |pad| == 2
    requires |pads| == |accesses| && forall i :: 0 <= i < |pads| ==> ValidAccess(accesses[i]) && |pads[i]| == 2
    ensures Await(m, mem, Requests(accesses, pads, Reply(m, value, pad) + rest)) ==
            AwaitOut(Replied(value), DirectRun(mem, accesses).0, accesses, rest)
    decreases |accesses|
  {
    hide Receive, Handle, Request, Reply, Direct;
    if accesses == [] {
      ReplyReceived(m, value, pad, rest);
    } else {
      var more := Requests(accesses[1..], pads[1..], Reply(m, value, pad) + rest);
      RequestReceived(m, accesses[0], pads[0], more);
      AwaitServes(m, Direct(mem, accesses[0]).0, accesses[1..], pads[1..], value, pad, rest);
      RequestLength(accesses[0], pads[0]);
      assert [accesses[0]] + accesses[1..] == accesses;
    }
  }

  /** The responses to `served`, performed one after the other on `mem`, with the given paddings. */
  function Responses(mem: Memory, served: seq<Access>, pads: seq<seq<byte>>): seq<byte>
    requires |pads| == |served| && forall i :: 0 <= i < |pads| ==> |pads[i]| == 2
    decreases |served|
  {
    if served == [] then []
    else
      Response(served[0], Direct(mem, served[0]).1, pads[0])
      + Responses(Direct(mem, served[0]).0, served[1..], pads[1..])
  }

  lemma {:induction false} ResponsesSnoc(mem: Memory, served: seq<Access>, pads: seq<seq<byte>>, a: Access,
                                         pad: seq<byte>)
    requires |pads| == |served| && (forall i :: 0 <= i < |pads| ==> |pads[i]| == 2) && |pad| == 2
    ensures Responses(mem, served + [a], pads + [pad]) ==
            Responses(mem, served, pads) + Response(a, Direct(DirectRun(mem, served).0, a).1, pad)
    decreases |served|
  {
    hide Response, Direct;
    var all, allPads := served + [a], pads + [pad];
    if served == [] {
      assert all[1..] == [] && allPads[1..] == [] && all[0] == a && allPads[0] == pad;
      var r := Response(a, Direct(mem, a).1, pad);
      assert r + [] == [] + r;
    } else {
      assert all[1..] == served[1..] + [a] && all[0] == served[0];
      assert allPads[1..] == pads[1..] + [pad] && allPads[0] == pads[0];
      ResponsesSnoc(Direct(mem, served[0]).0, served[1..], pads[1..], a, pad);
    }
  }

  // ----- the class

  class TraceWriter {
    const program: Program
    var output: seq<byte>
    var checksum: byte
    var last: u64
    var icache: set<u64>
    var va2pa: set<u64>

    /** The unread part of the response stream, and the memory the access callback works on. */
    var response: seq<byte>
    var memory: Memory

    ghost predicate Valid()
      reads this
    {
      checksum == Checksum(0, output)
    }

    ghost function State(): Writer
      reads this
    {
      Writer(last, icache, va2pa)
    }

    /** Since `before`, exactly the records `ws` with the messages `ms` were written. */
    ghost predicate Wrote(before: seq<byte>, ms: seq<Msg>, ws: seq<Wire>)
      reads this
    {
      Valid() && ValidWires(ws) && Msgs(ws) == ms && output == before + Flatten(ws)
    }

    constructor (program: Program, response: seq<byte>, memory: Memory)
      ensures Valid() && State() == START && output == []
      ensures this.program == program && this.response == response && this.memory == memory
    {
      this.program, this.response, this.memory := program, response, memory;
      output, checksum, last, icache, va2pa := [], 0, 0, {}, {};
    }

    /** `ChecksumVostream::write`. */
    method Write(s: seq<byte>)
      requires Valid()
      modifies this`output, this`checksum
      ensures Valid() && output == old(output) + s
    {
      hide Checksum;
      ChecksumConcat(0, output, s);
      checksum := Fold(checksum, s);
      output := output + s;
    }

    method WriteHeader(kind: byte, size: u32) returns (ghost pad: seq<byte>)
      requires Valid()
      modifies this`output, this`checksum
      ensures Valid() && |pad| == 2 && output == old(output) + Header(kind, pad, size)
    {
      var junk := Uninitialised(2);
      pad := junk;
      Write(Header(kind, junk, size));
    }

    // ----- records with a header

    method WriteAnnounce(m: Msg)
      requires Valid() && WellFormed(m) && m.RoutineAnnounce?
      modifies this`output, this`checksum
      ensures Valid() && output == old(output) + Body(m)
    {
      hide LE, Checksum, Counted;
      Write(LE64(m.eip));
      WriteCounted(m.name);
      WriteCounted(m.imgname);
      Associate(old(output), [], LE64(m.eip), Counted(m.name), Counted(m.imgname));
      ghost var front := LE64(m.eip) + Counted(m.name) + Counted(m.imgname);
      WritePlace(m.offset, m.line, m.column);
      ghost var place := LE64(m.offset) + LE32(m.line) + LE32(m.column);
      WriteCounted(m.filename);
      assert Body(m) == front + place + Counted(m.filename);
      Associate(old(output), [], front, place, Counted(m.filename));
    }

    method WriteCounted(s: seq<byte>)
      requires Valid() && |s| < 0x1_0000
      modifies this`output, this`checksum
      ensures Valid() && output == old(output) + Counted(s)
    {
      hide LE, Checksum;
      Write(LE16(|s|));
      Write(s);
    }

    method WritePlace(offset: u64, line: u32, column: u32)
      requires Valid()
      modifies this`output, this`checksum
      ensures Valid() && output == old(output) + (LE64(offset) + LE32(line) + LE32(column))
    {
      hide LE, Checksum;
      Write(LE64(offset));
      Write(LE32(line));
      Write(LE32(column));
    }

    method WriteNumbers(m: Msg)
      requires Valid() && (m.CacheOnly? || m.RoutineChange? || m.Magic? || m.PageMap?)
      modifies this`output, this`checksum
      ensures Valid() && output == old(output) + Body(m)
    {
      hide LE, Checksum;
      if m.CacheOnly? {
        Write([m.count]);
        Write([m.typ]);
        Write(LE64(m.eip));
        Write(LE64(m.address));
        assert [m.count] + [m.typ] == [m.count, m.typ];
        Associate(old(output), [m.count], [m.typ], LE64(m.eip), LE64(m.address));
      } else if m.RoutineChange? {
        Write([m.event]);
        Write(LE64(m.eip));
        Write(LE64(m.esp));
        Write(LE64(m.callEip));
        Associate(old(output), [m.event], LE64(m.eip), LE64(m.esp), LE64(m.callEip));
      } else if m.Magic? {
        Write(LE64(m.a));
        Write(LE64(m.b));
        Write(LE64(m.c));
      } else {
        Write(LE64(m.vp));
        Write(LE64(m.pp));
      }
    }

    /** The fields of a record behind its header, written one by one. */
    method WriteFields(m: Msg)
      requires Valid() && WellFormed(m) && !m.Short? && !m.Ext?
      modifies this`output, this`checksum
      ensures Valid() && output == old(output) + Body(m)
    {
      hide LE, Checksum;
      if m.RoutineAnnounce? {
        WriteAnnounce(m);
      } else if m.CacheOnly? || m.RoutineChange? || m.Magic? || m.PageMap? {
        WriteNumbers(m);
      } else if m.Icache? || m.IcacheVariable? || m.Output? || m.Syscall? || m.Emu? {
        WriteData(m);
      } else if m.Sum? {
        Write(LE32(m.value));
      } else if m.InstructionCount? {
        Write(LE32(m.icount));
      } else if m.Join? {
        Write(LE32(m.thread));
      } else if m.ISAChange? {
        Write(LE32(m.isa));
      } else if m.Unknown? {
        Write(m.body);
      }
    }

    /** A number and the bytes behind it. */
    method WriteData(m: Msg)
      requires Valid() && WellFormed(m) && (m.Icache? || m.IcacheVariable? || m.Output? || m.Syscall? || m.Emu?)
      modifies this`output, this`checksum
      ensures Valid() && output == old(output) + Body(m)
    {
      hide LE, Checksum, WellFormed;
      if m.Icache? || m.IcacheVariable? {
        WriteBoth(LE64(m.base), m.bytes);
      } else if m.Output? {
        WriteBoth([m.fd], m.data);
      } else if m.Syscall? {
        WriteBoth(LE16(m.number), m.data);
      } else {
        WriteBoth(LE16(m.emuType), m.request);
      }
    }

    method WriteBoth(a: seq<byte>, b: seq<byte>)
      requires Valid()
      modifies this`output, this`checksum
      ensures Valid() && output == old(output) + (a + b)
    {
      hide Checksum;
      Write(a);
      Write(b);
      assert (old(output) + a) + b == old(output) + (a + b);
    }

    method WriteRecord(m: Msg) returns (ghost ws: seq<Wire>)
      requires Valid() && WellFormed(m) && !m.Short? && !m.Ext?
      modifies this`output, this`checksum
      ensures Wrote(old(output), [m], ws)
    {
      hide Body, Kind, Header, Checksum;
      BodyBound(m);
      ghost var pad := WriteHeader(Kind(m), BodySize(m));
      WriteFields(m);
      ws := [Wire(m, pad)];
      assert old(output) + Header(Kind(m), pad, |Body(m)|) + Body(m) ==
        old(output) + (Header(Kind(m), pad, |Body(m)|) + Body(m));
      OneWire(m, pad);
    }

    // ----- page mappings

    /** `send_va2pa`: a page that is not mapped now is tried again the next time it is touched. */
    method SendVa2pa(va: u64) returns (ghost ws: seq<Wire>)
      requires Valid()
      modifies this`output, this`checksum, this`va2pa
      ensures Wrote(old(output), MapMsgs(program, old(va2pa), [va]), ws)
      ensures va2pa == MapSent(program, old(va2pa), [va])
    {
      hide Checksum, Flatten;
      ws := [];
      NoWires();
      OneMap(program, va2pa, va);
      if program.sendMapping {
        var vp := va / PAGE;
        if vp !in va2pa {
          var pp := program.frame(vp);
          if pp != 0 {
            ws := WriteRecord(PageMap(vp, pp));
            va2pa := va2pa + {vp};
          }
        }
      }
    }

    method SendMappings(vas: seq<u64>) returns (ghost ws: seq<Wire>)
      requires Valid()
      modifies this`output, this`checksum, this`va2pa
      ensures Wrote(old(output), MapMsgs(program, old(va2pa), vas), ws)
      ensures va2pa == MapSent(program, old(va2pa), vas)
    {
      hide Checksum, Flatten, MapMsgs, MapSent, Msgs;
      ws := [];
      NoWires();
      NoMaps(program, va2pa);
      assert vas[..0] == [];
      for i := 0 to |vas|
        invariant Wrote(old(output), MapMsgs(program, old(va2pa), vas[..i]), ws)
        invariant va2pa == MapSent(program, old(va2pa), vas[..i])
        invariant last == old(last) && icache == old(icache)
      {
        ghost var before := output;
        ghost var more := SendVa2pa(vas[i]);
        MapsConcat(program, old(va2pa), vas[..i], [vas[i]]);
        assert vas[..i + 1] == vas[..i] + [vas[i]];
        WireConcat(old(output), ws, more);
        ws := ws + more;
      }
      assert vas[..|vas|] == vas;
    }

    // ----- code

    method SendPage(base: u64) returns (ghost ws: seq<Wire>)
      requires Valid()
      modifies this`output, this`checksum, this`icache
      ensures var ms := if base in old(icache) then [] else [Icache(base, CodeBytes(program.code, base, PAGE))];
              Wrote(old(output), ms, ws)
      ensures icache == old(icache) + {base}
    {
      hide Checksum, Flatten, CodeBytes;
      ws := [];
      NoWires();
      if base !in icache {
        ws := WriteRecord(Icache(base, CodeBytes(program.code, base, PAGE)));
      }
      icache := icache + {base};
    }

    /** Sends the pages an instruction lies on, each once. */
    method SendPages(i: Inst) returns (ghost ws: seq<Wire>)
      requires Valid() && ValidInst(program, i) && !program.perInstruction
      modifies this`output, this`checksum, this`icache
      ensures Wrote(old(output), PageMsgs(program, old(icache), PageOf(i.addr), LastPage(i)), ws)
      ensures icache == PagesSent(old(icache), PageOf(i.addr), LastPage(i))
    {
      hide Checksum, Flatten, Msgs, PageMsgs, PagesSent, CodeBytes;
      ws := [];
      NoWires();
      var base: int, limit: int := PageOf(i.addr), LastPage(i);
      ghost var first := base;
      PageRange(program, i);
      hide PageOf, LastPage, ValidInst;
      assert [] + PageMsgs(program, icache, base, limit) == PageMsgs(program, icache, base, limit);
      while base <= limit
        invariant 0 <= base && base % PAGE == 0 && limit + PAGE <= TWO64
        invariant Valid() && ValidWires(ws) && output == old(output) + Flatten(ws)
        invariant last == old(last) && va2pa == old(va2pa)
        invariant PageMsgs(program, old(icache), first, limit) == Msgs(ws) + PageMsgs(program, icache, base, limit)
        invariant PagesSent(old(icache), first, limit) == PagesSent(icache, base, limit)
        decreases limit - base
      {
        PageStep(program, icache, base, limit);
        ghost var rest := PageMsgs(program, icache + {base}, base + PAGE, limit);
        ghost var more := SendPage(base);
        WireConcat(old(output), ws, more);
        AssociateMsgs(Msgs(ws), Msgs(more), rest);
        ws := ws + more;
        NextBase(base);
        base := base + PAGE;
      }
      PagesDone(program, icache, base, limit);
      assert Msgs(ws) + [] == Msgs(ws);
    }

    method SendCode(i: Inst) returns (ghost ws: seq<Wire>)
      requires Valid() && ValidInst(program, i)
      modifies this`output, this`checksum, this`icache
      ensures Wrote(old(output), CodeMsgs(program, old(icache), i), ws)
      ensures icache == CodeSent(program, old(icache), i)
    {
      hide Checksum, Flatten, CodeBytes, PageMsgs, PagesSent;
      if program.perInstruction {
        ws := [];
        NoWires();
        if i.addr !in icache {
          ws := WriteRecord(IcacheVariable(i.addr, CodeBytes(program.code, i.addr, i.size)));
        }
        icache := icache + {i.addr};
      } else {
        ws := SendPages(i);
      }
    }

    // ----- calls

    method WriteShort(m: Msg) returns (ghost ws: seq<Wire>)
      requires Valid() && m.Short? && WellFormed(m)
      modifies this`output, this`checksum
      ensures Wrote(old(output), [m], ws)
    {
      hide Checksum, Flatten, Addresses, ShortByte;
      var pad := Uninitialised(7);
      Write([ShortByte(m.size, |m.addresses|, m.isBranch, m.taken)] + pad);
      WriteAddresses(m.addresses);
      ws := [Wire(m, pad)];
      OneWire(m, pad);
    }

    method WriteExt(m: Msg) returns (ghost ws: seq<Wire>)
      requires Valid() && m.Ext? && WellFormed(m)
      modifies this`output, this`checksum
      ensures Wrote(old(output), [m], ws)
    {
      hide Checksum, Flatten, Addresses, LE, ExtByte;
      var pad: seq<byte> := [0, 0, 0, 0, 0, 0];
      Write([16 * m.size, ExtByte(|m.addresses|, m.isBranch, m.taken, m.isPredicate, m.executed)] + pad + LE64(m.addr));
      WriteAddresses(m.addresses);
      ws := [Wire(m, pad)];
      OneWire(m, pad);
    }

    /** The instruction record itself: the short form without an address if the instruction falls through. */
    method WriteInstruction(i: Inst) returns (ghost ws: seq<Wire>)
      requires Valid() && ValidInst(program, i)
      modifies this`output, this`checksum, this`last
      ensures Wrote(old(output), [InstMsg(old(State()), i)], ws)
      ensures last == Add64(i.addr, i.size)
    {
      hide Checksum, Flatten, Msgs;
      if i.addr == last && !i.isPredicate {
        ws := WriteShort(Short(i.size, i.isBranch, i.taken, i.addresses));
      } else {
        ws := WriteExt(Ext(i.size, i.isBranch, i.taken, i.isPredicate, i.executed, i.addr, i.addresses));
        last := i.addr;
      }
      last := Add64(last, i.size);
    }

    method WriteAddresses(a: seq<u64>)
      requires Valid()
      modifies this`output, this`checksum
      ensures Valid() && output == old(output) + Addresses(a)
    {
      hide Checksum, LE;
      assert a[..0] == [];
      for k := 0 to |a|
        invariant Valid() && output == old(output) + Addresses(a[..k]) && last == old(last)
      {
        Write(LE64(a[k]));
        AddressesSnoc(a[..k], a[k]);
        assert a[..k + 1] == a[..k] + [a[k]];
      }
      assert a[..|a|] == a;
    }

    /** `Writer::Instruction`. */
    method Instruction(i: Inst) returns (ghost ws: seq<Wire>)
      requires Valid() && ValidInst(program, i)
      modifies this`output, this`checksum, this`last, this`icache, this`va2pa
      ensures Wrote(old(output), CallMsgs(program, old(State()), SiftRecord.Instruction(i)), ws)
      ensures State() == CallNext(program, old(State()), SiftRecord.Instruction(i))
    {
      hide Checksum, Flatten, Msgs, CodeMsgs, CodeSent, MapMsgs, MapSent, InstMsg;
      ghost var xs := SendCode(i);
      ghost var ys := SendMappings([i.addr] + i.addresses);
      ghost var w := State();
      ghost var zs := WriteInstruction(i);
      InstMsgLast(old(State()), w, i);
      WireConcat(old(output), xs, ys);
      WireConcat(old(output), xs + ys, zs);
      ws := xs + ys + zs;
    }

    /** The other calls: the mappings they touch and then their record. */
    method Record(m: Msg) returns (ghost ws: seq<Wire>)
      requires Valid() && Emittable(m)
      modifies this`output, this`checksum, this`va2pa
      ensures Wrote(old(output), CallMsgs(program, old(State()), SiftRecord.Record(m)), ws)
      ensures State() == CallNext(program, old(State()), SiftRecord.Record(m))
    {
      hide Checksum, Flatten, Msgs, MapMsgs, MapSent;
      ghost var xs := SendMappings(Touched(SiftRecord.Record(m)));
      ghost var ys := WriteRecord(m);
      WireConcat(old(output), xs, ys);
      ws := xs + ys;
    }

    /** `Writer::End`: the checksum of everything written so far, and the end record. */
    method Finish() returns (ghost sumPad: seq<byte>, ghost endPad: seq<byte>)
      requires Valid()
      modifies this`output, this`checksum
      ensures Valid() && |sumPad| == 2 && |endPad| == 2
      ensures output == old(output) + (Encode(Sum(Checksum(0, old(output))), sumPad) + Encode(End, endPad))
    {
      hide Checksum, Flatten, Encode;
      var sum := checksum;
      ghost var xs := WriteRecord(Sum(sum));
      ghost var ys := WriteRecord(End);
      sumPad, endPad := xs[0].pad, ys[0].pad;
      SingleWire(xs, Sum(sum));
      SingleWire(ys, End);
    }

    // ----- blocking calls

    /** `handleMemoryRequest`, behind the header: performs the access and answers, or drops the request. False when
        the stream ends inside the request. */
    method HandleMemoryRequest(size: u32) returns (ok: bool, ghost served: Option<Access>, ghost pad: seq<byte>)
      requires Valid()
      modifies this`output, this`checksum, this`response, this`memory
      ensures Valid()
      ensures ok == !Handle(size, old(response)).Waits?
      ensures !ok ==> output == old(output) && memory == old(memory)
      ensures var h := Handle(size, old(response));
              && (h.Performed? ==>
                    && h.consumed <= |old(response)|
                    && response == old(response)[h.consumed..] && served == Some(h.access)
                    && memory == Direct(old(memory), h.access).0 && |pad| == 2
                    && output == old(output) + Response(h.access, Direct(old(memory), h.access).1, pad))
              && (h.Dropped? ==>
                    && h.dropped <= |old(response)| && response == old(response)[h.dropped..] && served == None
                    && memory == old(memory) && output == old(output))
    {
      hide Checksum, FromLE, LE, Poke, Fetch;
      served, pad := None, [];
      if size < 20 {
        return true, None, pad;
      }
      if |response| < 20 {
        return false, None, pad;
      }
      var s := response;
      var addr, n, lock, op := U64(s[..8]), U32(s[8..12]), U32(s[12..16]), U32(s[16..20]);
      var payload := size - 20;
      if op == MEM_READ {
        response := s[20..];
        if payload != 0 || n == 0 {
          return true, None, pad;
        }
        var data := Fetch(memory, addr, n);
        pad := Answer(Load(lock, addr, n), data);
        served := Some(Load(lock, addr, n));
      } else if op == MEM_WRITE {
        if payload == 0 || payload != n {
          response := s[20..];
          return true, None, pad;
        }
        if |s| < 20 + payload {
          return false, None, pad;
        }
        var data := s[20..20 + payload];
        response := s[20 + payload..];
        pad := Answer(Save(lock, addr, data), []);
        memory := Poke(memory, addr, data);
        served := Some(Save(lock, addr, data));
      } else {
        response := s[20..];
        return true, None, pad;
      }
      ok := true;
    }

    /** The response record, written field by field. */
    method Answer(a: Access, data: seq<byte>) returns (ghost pad: seq<byte>)
      requires Valid()
      modifies this`output, this`checksum
      ensures Valid() && |pad| == 2 && output == old(output) + Response(a, data, pad)
    {
      hide Checksum, LE;
      pad := WriteHeader(MEMORY_RESPONSE, (12 + |data|) % TWO32);
      Write(LE64(a.addr));
      Write(LE32(Operation(a)));
      Write(data);
    }

    /** The calls that return a value: the record is written and its reply awaited. */
    method Ask(m: Msg)
      returns (result: Waited, ghost ws: seq<Wire>, ghost served: seq<Access>, ghost pads: seq<seq<byte>>)
      requires Valid() && Emittable(m) && Asks(m)
      modifies this`output, this`checksum, this`va2pa, this`response, this`memory
      ensures Valid() && ValidWires(ws) && Msgs(ws) == CallMsgs(program, old(State()), SiftRecord.Record(m))
      ensures State() == CallNext(program, old(State()), SiftRecord.Record(m))
      ensures |pads| == |served| && forall i :: 0 <= i < |pads| ==> |pads[i]| == 2
      ensures var out := Await(m, old(memory), old(response));
              && result == out.result && served == out.served && memory == out.mem
              && (result.Replied? ==> response == out.rest)
      ensures output == old(output) + Flatten(ws) + Responses(old(memory), served, pads)
    {
      hide Checksum, Flatten, Await, CallMsgs, CallNext, Responses, Emittable, Msgs;
      ws := Record(m);
      result, served, pads := AwaitReply(m);
    }

    /** The loop of a blocking call whose request `m` was sent. */
    method AwaitReply(m: Msg) returns (result: Waited, ghost served: seq<Access>, ghost pads: seq<seq<byte>>)
      requires Valid() && Blocking(m)
      modifies this`output, this`checksum, this`response, this`memory
      ensures Valid() && |pads| == |served| && forall i :: 0 <= i < |pads| ==> |pads[i]| == 2
      ensures var out := Await(m, old(memory), old(response));
              && result == out.result && served == out.served && memory == out.mem
              && (result.Replied? ==> response == out.rest)
      ensures output == old(output) + Responses(old(memory), served, pads)
    {
      hide Checksum, Await, Receive, Handle, Direct, Response, Responses, DirectRun, ServedThen;
      served, pads := [], [];
      ghost var goal := Await(m, memory, response);
      ServedNothing(goal, memory);
      assert output + [] == output;
      while true
        invariant Valid() && |pads| == |served| && forall i :: 0 <= i < |pads| ==> |pads[i]| == 2
        invariant goal == ServedThen(served, Await(m, memory, response))
        invariant output == old(output) + Responses(old(memory), served, pads)
        invariant memory == DirectRun(old(memory), served).0
        decreases |response|
      {
        AwaitUnfolds(m, memory, response);
        ReceiveLength(m, response);
        ServedFields(served, Await(m, memory, response));
        assert served + [] == served;
        var got := Receive(m, response);
        if got.Value? {
          response := response[got.length..];
          return Replied(got.value), served, pads;
        } else if got.Stops? {
          return Exits, served, pads;
        } else if got.Errs? {
          return GivesUp, served, pads;
        } else if got.NeedsMore? {
          return StreamEnds, served, pads;
        }
        response := response[8..];
        if got.MemoryRequest? {
          var ok, access, pad := HandleMemoryRequest(got.size);
          if !ok {
            return StreamEnds, served, pads;
          }
          if access.Some? {
            ResponsesSnoc(old(memory), served, pads, access.value, pad);
            DirectRunSnoc(old(memory), served, access.value);
            ServedTwice(served, [access.value], Await(m, memory, response));
            served, pads := served + [access.value], pads + [pad];
          }
        }
      }
    }
  }

  lemma ServedNothing(out: AwaitOut, mem: Memory)
    ensures ServedThen([], out) == out && DirectRun(mem, []).0 == mem && Responses(mem, [], []) == []
  {
    assert [] + out.served == out.served;
  }

  lemma ServedFields(xs: seq<Access>, out: AwaitOut)
    ensures ServedThen(xs, out) == AwaitOut(out.result, out.mem, xs + out.served, out.rest)
  {
  }

  lemma PageStep(p: Program, icache: set<u64>, base: int, limit: int)
    requires 0 <= base <= limit < TWO64
    ensures PageMsgs(p, icache, base, limit) ==
            (if base in icache then [] else [Icache(base, CodeBytes(p.code, base, PAGE))])
            + PageMsgs(p, icache + {base}, base + PAGE, limit)
    ensures PagesSent(icache, base, limit) == PagesSent(icache + {base}, base + PAGE, limit)
  {
    if base in icache {
      assert icache + {base} == icache;
    }
  }

  lemma NextBase(base: int)
    requires base % PAGE == 0
    ensures (base + PAGE) % PAGE == 0
  {
  }

  lemma AssociateMsgs(xs: seq<Msg>, ys: seq<Msg>, zs: seq<Msg>)
    ensures xs + (ys + zs) == (xs + ys) + zs
  {
  }

  lemma PagesDone(p: Program, icache: set<u64>, base: int, limit: int)
    requires 0 <= base && limit < TWO64 && base > limit
    ensures PageMsgs(p, icache, base, limit) == [] && PagesSent(icache, base, limit) == icache
  {
  }

  lemma {:induction false} AddressesSnoc(a: seq<u64>, x: u64)
    ensures Addresses(a + [x]) == Addresses(a) + LE64(x)
  {
    if a == [] {
      assert ([x])[1..] == [] && a + [x] == [x];
    } else {
      assert (a + [x])[1..] == a[1..] + [x];
      AddressesSnoc(a[1..], x);
    }
  }

  lemma InstMsgLast(w: Writer, w': Writer, i: Inst)
    requires w.last == w'.last
    ensures InstMsg(w, i) == InstMsg(w', i)
  {
  }

  lemma SingleWire(ws: seq<Wire>, m: Msg)
    requires ValidWires(ws) && Msgs(ws) == [m]
    ensures |ws| == 1 && ws[0].msg == m && |ws[0].pad| == PadSize(m) && Flatten(ws) == Encode(m, ws[0].pad)
  {
    hide Encode;
    assert ws[0].msg == Msgs(ws)[0];
    assert ws[1..] == [];
    assert ValidWire(ws[0]);
    assert Encode(m, ws[0].pad) + [] == Encode(m, ws[0].pad);
  }

  function ServedThen(served: seq<Access>, out: AwaitOut): AwaitOut {
    out.(served := served + out.served)
  }

  lemma ServedTwice(xs: seq<Access>, ys: seq<Access>, out: AwaitOut)
    ensures ServedThen(xs, ServedThen(ys, out)) == ServedThen(xs + ys, out)
  {
    assert xs + (ys + out.served) == (xs + ys) + out.served;
  }

  lemma ReceiveLength(m: Msg, s: seq<byte>)
    requires Blocking(m)
    ensures var got := Receive(m, s);
            (!got.NeedsMore? ==> |s| >= 8) && (got.Value? ==> got.length <= |s|)
  {
  }

  /** One iteration of the waiting loop. */
  lemma AwaitUnfolds(m: Msg, mem: Memory, s: seq<byte>)
    requires Blocking(m)
    ensures var got := Receive(m, s);
            && (got.NeedsMore? ==> Await(m, mem, s) == AwaitOut(StreamEnds, mem, [], s))
            && (got.Errs? ==> Await(m, mem, s) == AwaitOut(GivesUp, mem, [], s))
            && (got.Stops? ==> Await(m, mem, s) == AwaitOut(Exits, mem, [], s))
            && (got.Skips? ==> |s| >= 8 && Await(m, mem, s) == Await(m, mem, s[8..]))
            && (got.Value? ==>
                 got.length <= |s| && Await(m, mem, s) == AwaitOut(Replied(got.value), mem, [], s[got.length..]))
    ensures var got := Receive(m, s);
            got.MemoryRequest? ==>
              && |s| >= 8
              && var h := Handle(got.size, s[8..]);
                 && (h.Waits? ==> Await(m, mem, s) == AwaitOut(StreamEnds, mem, [], s))
                 && (h.Dropped? ==> 8 + h.dropped <= |s| && Await(m, mem, s) == Await(m, mem, s[8..][h.dropped..]))
                 && (h.Performed? ==> 8 + h.consumed <= |s| && h.consumed > 0)
                 && (h.Performed? ==>
                       Await(m, mem, s) ==
                         ServedThen([h.access], Await(m, Direct(mem, h.access).0, s[8..][h.consumed..])))
  {
    hide Direct;
    ReceiveLength(m, s);
    var got := Receive(m, s);
    if got.MemoryRequest? {
      HandleLength(got.size, s[8..]);
      var h := Handle(got.size, s[8..]);
      if h.Dropped? {
        assert s[8 + h.dropped..] == s[8..][h.dropped..];
      } else if h.Performed? {
        assert s[8 + h.consumed..] == s[8..][h.consumed..];
      }
    }
  }

  lemma Associate(o: seq<byte>, a: seq<byte>, b: seq<byte>, c: seq<byte>, d: seq<byte>)
    ensures o + a + b + c + d == o + (a + b + c + d)
  {
  }

  function BodySize(m: Msg): u32
    requires WellFormed(m) && !m.Short? && !m.Ext?
  {
    BodyBound(m);
    |Body(m)|
  }

  lemma OneWire(m: Msg, pad: seq<byte>)
    requires WellFormed(m) && |pad| == PadSize(m)
    ensures var ws := [Wire(m, pad)]; ValidWires(ws) && Msgs(ws) == [m] && Flatten(ws) == Encode(m, pad)
  {
    hide Encode;
    var ws := [Wire(m, pad)];
    assert ws[1..] == [];
    assert Encode(m, pad) + [] == Encode(m, pad);
  }

  lemma NoWires()
    ensures ValidWires([]) && Msgs([]) == [] && Flatten([]) == []
  {
  }

  lemma WireConcat(before: seq<byte>, xs: seq<Wire>, ys: seq<Wire>)
    requires ValidWires(xs) && ValidWires(ys)
    ensures ValidWires(xs + ys) && Msgs(xs + ys) == Msgs(xs) + Msgs(ys)
    ensures before + Flatten(xs + ys) == (before + Flatten(xs)) + Flatten(ys)
  {
    hide Flatten;
    FlattenConcat(xs, ys);
  }

  lemma OneMap(p: Program, va2pa: set<u64>, va: u64)
    ensures MapMsgs(p, va2pa, [va]) ==
      if NeedsMapping(p, va2pa, va) then [PageMap(va / PAGE, p.frame(va / PAGE))] else []
    ensures MapSent(p, va2pa, [va]) == if NeedsMapping(p, va2pa, va) then va2pa + {va / PAGE} else va2pa
  {
    assert [va][1..] == [];
  }

  lemma NoMaps(p: Program, va2pa: set<u64>)
    ensures MapMsgs(p, va2pa, []) == [] && MapSent(p, va2pa, []) == va2pa
  {
  }

  lemma {:induction false} MapsConcat(p: Program, va2pa: set<u64>, xs: seq<u64>, ys: seq<u64>)
    ensures MapMsgs(p, va2pa, xs + ys) == MapMsgs(p, va2pa, xs) + MapMsgs(p, MapSent(p, va2pa, xs), ys)
    ensures MapSent(p, va2pa, xs + ys) == MapSent(p, MapSent(p, va2pa, xs), ys)
    decreases |xs|
  {
    if xs == [] {
      assert xs + ys == ys;
    } else {
      assert (xs + ys)[1..] == xs[1..] + ys;
      MapsConcat(p, if NeedsMapping(p, va2pa, xs[0]) then va2pa + {xs[0] / PAGE} else va2pa, xs[1..], ys);
    }
  }
}
