/** The whole-trace round trip: a reader that plays back what a writer emitted shows its client exactly
    the writer's calls. */
module SiftTrace {
  import opened Basics
  import opened Bytes
  import opened SiftFormat
  import opened SiftImage
  import opened SiftReplay
  import opened SiftRecord

  /** `e` is the reader `r` in step with `w`, having shown `events` and with instruction set `isa`. */
  ghost predicate Reaches(p: Program, w: Writer, isa: u32, events: seq<Event>, e: Effect) {
    e.Effect? && e.events == events && e.state.isa == isa && InStep(p, w, e.state)
  }

  // ----- single records

  lemma PageStep(p: Program, w: Writer, r: Reader, base: u64)
    requires InStep(p, w, r) && !p.perInstruction && base % PAGE == 0 && base + PAGE <= TWO64
    ensures Reaches(p, w.(icache := w.icache + {base}), r.isa, [],
                    Apply(r, Icache(base, CodeBytes(p.code, base, PAGE))))
  {
    PageSound(r.icache, p.code, base);
  }

  lemma VariableStep(p: Program, w: Writer, r: Reader, i: Inst)
    requires InStep(p, w, r) && p.perInstruction && ValidInst(p, i)
    ensures Reaches(p, w.(icache := w.icache + {i.addr}), r.isa, [],
                    Apply(r, IcacheVariable(i.addr, CodeBytes(p.code, i.addr, i.size))))
  {
    StoreSound(r.icache, p.code, i.addr, i.size);
  }

  lemma MapStep(p: Program, w: Writer, r: Reader, va: u64)
    requires InStep(p, w, r) && NeedsMapping(p, w.va2pa, va)
    ensures Reaches(p, w.(va2pa := w.va2pa + {va / PAGE}), r.isa, [], Apply(r, PageMap(va / PAGE, p.frame(va / PAGE))))
  {
  }

  /** The shortcut, the cache and a fresh rebuild all give the program's instruction. */
  lemma LookupAgrees(p: Program, w: Writer, r: Reader, i: Inst)
    requires InStep(p, w, r) && ValidInst(p, i) && Covers(r.icache, i.addr, i.size)
    ensures Lookup(r, i.addr, i.size) == Some(ProgramStatic(p, i.addr))
    ensures Rebuild(r.icache, i.addr, i.size) == Some(ProgramStatic(p, i.addr).data)
  {
    RebuildSound(r.icache, p.code, i.addr, i.size);
  }

  lemma InstStep(p: Program, w: Writer, r: Reader, i: Inst)
    requires InStep(p, w, r) && ValidInst(p, i) && Covers(r.icache, i.addr, i.size)
    ensures Reaches(p, w.(last := Add64(i.addr, i.size)), r.isa, Seen(p, w.last, r.isa, Instruction(i)),
                    Apply(r, InstMsg(w, i)))
  {
    hide Covers, Rebuild, Lookup, CodeInStep, MapInStep, StaticInStep;
    LookupAgrees(p, w, r, i);
    var a := Add64(i.addr, i.size);
    RememberInStep(p, w.(last := a), r.(last := a), i.addr);
  }

  lemma RememberInStep(p: Program, w: Writer, r: Reader, a: u64)
    requires InStep(p, w, r) && p.sizeAt(a) >= 0
    ensures InStep(p, w, Remember(r, ProgramStatic(p, a)))
  {
    hide CodeInStep, MapInStep;
  }

  lemma RecordStep(p: Program, w: Writer, r: Reader, m: Msg)
    requires InStep(p, w, r) && Emittable(m)
    ensures Reaches(p, w, IsaAfter(r.isa, Record(m)), Seen(p, w.last, r.isa, Record(m)), Apply(r, m))
  {
  }

  // ----- the records of one call

  /** Folding the record's bytes into the checksum keeps the reader in step. */
  lemma Consumed(p: Program, w: Writer, r: Reader, wire: Wire, isa: u32, events: seq<Event>)
    requires Consistent(r) && ValidWire(wire) && Reaches(p, w, isa, events, Apply(r, wire.msg))
    ensures Reaches(p, w, isa, events, Consume(r, wire.msg, Encode(wire.msg, wire.pad)))
  {
    hide Encode, Apply;
  }

  /** Running a first record and then the others. */
  lemma FeedFirst(p: Program, w1: Writer, isa1: u32, ev1: seq<Event>, w2: Writer, isa2: u32, ev2: seq<Event>,
                  r: Reader, ws: seq<Wire>)
    requires Consistent(r) && ws != [] && ValidWires(ws)
    requires Reaches(p, w1, isa1, ev1, Apply(r, ws[0].msg))
    requires Reaches(p, w2, isa2, ev2, Feed(Consume(r, ws[0].msg, Encode(ws[0].msg, ws[0].pad)).state, ws[1..]))
    ensures Reaches(p, w2, isa2, ev1 + ev2, Feed(r, ws))
  {
    hide Encode, Apply, CodeInStep, MapInStep, StaticInStep;
  }

  /** Running two lists of records one after the other. */
  lemma FeedBoth(p: Program, w1: Writer, isa1: u32, ev1: seq<Event>, w2: Writer, isa2: u32, ev2: seq<Event>,
                 r: Reader, xs: seq<Wire>, ys: seq<Wire>)
    requires Consistent(r) && ValidWires(xs) && ValidWires(ys)
    requires Reaches(p, w1, isa1, ev1, Feed(r, xs))
    requires Reaches(p, w2, isa2, ev2, Feed(Feed(r, xs).state, ys))
    ensures Reaches(p, w2, isa2, ev1 + ev2, Feed(r, xs + ys))
  {
    hide Feed, CodeInStep, MapInStep, StaticInStep;
    FeedConcat(r, xs, ys);
  }

  lemma {:induction false} FeedPages(p: Program, w: Writer, r: Reader, ws: seq<Wire>, base: int, limit: int)
    requires InStep(p, w, r) && ValidWires(ws) && !p.perInstruction
    requires 0 <= base && base % PAGE == 0 && limit <= TWO64 - PAGE
    requires Msgs(ws) == PageMsgs(p, w.icache, base, limit)
    ensures Reaches(p, w.(icache := PagesSent(w.icache, base, limit)), r.isa, [], Feed(r, ws))
    decreases limit - base
  {
    hide Encode, Apply, CodeInStep, MapInStep, StaticInStep;
    if base > limit {
      assert w.(icache := w.icache) == w;
    } else if base in w.icache {
      assert w.icache + {base} == w.icache;
      FeedPages(p, w, r, ws, base + PAGE, limit);
    } else {
      var w1 := w.(icache := w.icache + {base});
      assert ws[0].msg == Msgs(ws)[0];
      PageStep(p, w, r, base);
      Consumed(p, w1, r, ws[0], r.isa, []);
      var r1 := Consume(r, ws[0].msg, Encode(ws[0].msg, ws[0].pad)).state;
      assert Msgs(ws[1..]) == Msgs(ws)[1..];
      FeedPages(p, w1, r1, ws[1..], base + PAGE, limit);
      FeedFirst(p, w1, r.isa, [], w1.(icache := PagesSent(w1.icache, base + PAGE, limit)), r.isa, [], r, ws);
    }
  }

  lemma {:induction false} FeedMaps(p: Program, w: Writer, r: Reader, ws: seq<Wire>, vas: seq<u64>)
    requires InStep(p, w, r) && ValidWires(ws)
    requires Msgs(ws) == MapMsgs(p, w.va2pa, vas)
    ensures Reaches(p, w.(va2pa := MapSent(p, w.va2pa, vas)), r.isa, [], Feed(r, ws))
    decreases |vas|
  {
    hide Encode, Apply, CodeInStep, MapInStep, StaticInStep;
    if vas == [] {
      assert w.(va2pa := w.va2pa) == w;
    } else if !NeedsMapping(p, w.va2pa, vas[0]) {
      FeedMaps(p, w, r, ws, vas[1..]);
    } else {
      var w1 := w.(va2pa := w.va2pa + {vas[0] / PAGE});
      assert ws[0].msg == Msgs(ws)[0];
      MapStep(p, w, r, vas[0]);
      Consumed(p, w1, r, ws[0], r.isa, []);
      var r1 := Consume(r, ws[0].msg, Encode(ws[0].msg, ws[0].pad)).state;
      assert Msgs(ws[1..]) == Msgs(ws)[1..];
      FeedMaps(p, w1, r1, ws[1..], vas[1..]);
      FeedFirst(p, w1, r.isa, [], w1.(va2pa := MapSent(p, w1.va2pa, vas[1..])), r.isa, [], r, ws);
    }
  }

  /** A list of one record. */
  lemma FeedSingle(p: Program, w: Writer, isa: u32, events: seq<Event>, r: Reader, ws: seq<Wire>)
    requires Consistent(r) && |ws| == 1 && ValidWires(ws)
    requires Reaches(p, w, isa, events, Apply(r, ws[0].msg))
    ensures Reaches(p, w, isa, events, Feed(r, ws))
  {
    hide Encode, Apply, CodeInStep, MapInStep, StaticInStep;
    Consumed(p, w, r, ws[0], isa, events);
    assert events + [] == events;
    assert Feed(Consume(r, ws[0].msg, Encode(ws[0].msg, ws[0].pad)).state, ws[1..]).events == [];
  }

  lemma {:induction false} PagesAreSent(icache: set<u64>, base: int, limit: int, b: int)
    requires 0 <= base && base % PAGE == 0 && limit < TWO64
    requires b in icache || (base <= b <= limit && b % PAGE == 0)
    ensures b in PagesSent(icache, base, limit)
    decreases limit - base
  {
    if base <= limit {
      PagesAreSent(icache + {base}, base + PAGE, limit, b);
    }
  }

  /** Once its code records were sent, all bytes of an instruction are in the reader's image. */
  lemma SentCodeCovers(p: Program, w: Writer, image: Image, i: Inst)
    requires ValidInst(p, i) && CodeInStep(p, CodeSent(p, w.icache, i), image)
    ensures Covers(image, i.addr, i.size)
  {
    if !p.perInstruction {
      forall k: int | i.addr <= k < i.addr + i.size
        ensures Defined(image, k)
      {
        PagesBetween(i.addr, k, i.addr + i.size - 1);
        PagesAreSent(w.icache, PageOf(i.addr), LastPage(i), PageOf(k));
        hide PageOf, PagesSent, Sound, Defined;
        assert Covers(image, PageOf(k), Extent(p, PageOf(k)));
      }
    } else {
      assert Covers(image, i.addr, Extent(p, i.addr));
    }
  }

  lemma PagesBetween(a: u64, k: u64, b: u64)
    requires a <= k <= b
    ensures PageOf(a) <= PageOf(k) <= PageOf(b) && PageOf(k) <= k < PageOf(k) + PAGE
    ensures PageOf(a) % PAGE == 0 && PageOf(k) % PAGE == 0
  {
  }

  lemma FeedCode(p: Program, w: Writer, r: Reader, ws: seq<Wire>, i: Inst)
    requires InStep(p, w, r) && ValidWires(ws) && ValidInst(p, i)
    requires Msgs(ws) == CodeMsgs(p, w.icache, i)
    ensures Reaches(p, w.(icache := CodeSent(p, w.icache, i)), r.isa, [], Feed(r, ws))
  {
    hide Encode, Apply, CodeInStep, MapInStep, StaticInStep;
    if !p.perInstruction {
      PageRange(p, i);
      hide PageOf, PageMsgs, PagesSent, Feed, Msgs, Reaches;
      FeedPages(p, w, r, ws, PageOf(i.addr), LastPage(i));
    } else if i.addr in w.icache {
      assert w.icache + {i.addr} == w.icache && w.(icache := w.icache) == w;
    } else {
      assert ws[0].msg == Msgs(ws)[0];
      VariableStep(p, w, r, i);
      FeedSingle(p, w.(icache := w.icache + {i.addr}), r.isa, [], r, ws);
    }
  }

  /** Code and mapping records show the client nothing and make the instruction's bytes available. */
  lemma FeedPreparation(p: Program, w: Writer, r: Reader, xs: seq<Wire>, ys: seq<Wire>, i: Inst)
    requires InStep(p, w, r) && ValidWires(xs) && ValidWires(ys) && ValidInst(p, i)
    requires Msgs(xs) == CodeMsgs(p, w.icache, i) && Msgs(ys) == MapMsgs(p, w.va2pa, Touched(Instruction(i)))
    ensures Reaches(p, CallNext(p, w, Instruction(i)).(last := w.last), r.isa, [], Feed(r, xs + ys))
    ensures Covers(Feed(r, xs + ys).state.icache, i.addr, i.size)
  {
    hide Feed, Encode, CodeMsgs, MapMsgs, CodeSent, MapSent, CodeInStep, MapInStep, StaticInStep;
    var w1 := w.(icache := CodeSent(p, w.icache, i));
    var w2 := w1.(va2pa := MapSent(p, w.va2pa, Touched(Instruction(i))));
    FeedCode(p, w, r, xs, i);
    var r1 := Feed(r, xs).state;
    FeedMaps(p, w1, r1, ys, Touched(Instruction(i)));
    FeedBoth(p, w1, r.isa, [], w2, r.isa, [], r, xs, ys);
    SentCodeCovers(p, w, Feed(r, xs + ys).state.icache, i);
  }

  lemma FeedInstruction(p: Program, w: Writer, r: Reader, xs: seq<Wire>, ys: seq<Wire>, zs: seq<Wire>, i: Inst)
    requires InStep(p, w, r) && ValidWires(xs) && ValidWires(ys) && ValidWires(zs) && ValidInst(p, i)
    requires Msgs(xs) == CodeMsgs(p, w.icache, i) && Msgs(ys) == MapMsgs(p, w.va2pa, Touched(Instruction(i)))
    requires |zs| == 1 && zs[0].msg == InstMsg(w, i)
    ensures Reaches(p, CallNext(p, w, Instruction(i)), r.isa, Seen(p, w.last, r.isa, Instruction(i)),
                    Feed(r, xs + ys + zs))
  {
    hide Feed, Encode, Apply, CodeMsgs, MapMsgs, CodeSent, MapSent, CodeInStep, MapInStep, StaticInStep, Covers;
    var w' := CallNext(p, w, Instruction(i));
    var events := Seen(p, w.last, r.isa, Instruction(i));
    FeedPreparation(p, w, r, xs, ys, i);
    var r1 := Feed(r, xs + ys).state;
    InstStep(p, w'.(last := w.last), r1, i);
    FeedSingle(p, w', r.isa, events, r1, zs);
    FeedBoth(p, w'.(last := w.last), r.isa, [], w', r.isa, events, r, xs + ys, zs);
    assert [] + events == events;
  }

  lemma FeedRecord(p: Program, w: Writer, r: Reader, ys: seq<Wire>, zs: seq<Wire>, m: Msg)
    requires InStep(p, w, r) && ValidWires(ys) && ValidWires(zs) && Emittable(m)
    requires Msgs(ys) == MapMsgs(p, w.va2pa, Touched(Record(m))) && |zs| == 1 && zs[0].msg == m
    ensures Reaches(p, CallNext(p, w, Record(m)), IsaAfter(r.isa, Record(m)), Seen(p, w.last, r.isa, Record(m)),
                    Feed(r, ys + zs))
  {
    hide Feed, Encode, Apply, MapMsgs, MapSent, CodeInStep, MapInStep, StaticInStep;
    var c := Record(m);
    var w1 := CallNext(p, w, c);
    FeedMaps(p, w, r, ys, Touched(c));
    var r1 := Feed(r, ys).state;
    RecordStep(p, w1, r1, m);
    FeedSingle(p, w1, IsaAfter(r.isa, c), Seen(p, w.last, r.isa, c), r1, zs);
    FeedBoth(p, w1, r.isa, [], w1, IsaAfter(r.isa, c), Seen(p, w.last, r.isa, c), r, ys, zs);
    assert [] + Seen(p, w.last, r.isa, c) == Seen(p, w.last, r.isa, c);
  }

  lemma MsgsSlice(ws: seq<Wire>, a: nat, b: nat)
    requires a <= b <= |ws|
    ensures Msgs(ws[a..b]) == Msgs(ws)[a..b]
  {
  }

  /** Cutting a list of records where its messages are cut. */
  lemma SplitWires(ws: seq<Wire>, ms: seq<Msg>, ns: seq<Msg>) returns (xs: seq<Wire>, ys: seq<Wire>)
    requires ValidWires(ws) && Msgs(ws) == ms + ns
    ensures ws == xs + ys && ValidWires(xs) && ValidWires(ys) && Msgs(xs) == ms && Msgs(ys) == ns
  {
    var k := |ms|;
    xs, ys := ws[..k], ws[k..];
    MsgsSlice(ws, 0, k);
    MsgsSlice(ws, k, |ws|);
  }

  /** The records of one call leave the reader in step and show its client exactly that call. */
  lemma FeedCall(p: Program, w: Writer, r: Reader, ws: seq<Wire>, c: Call)
    requires InStep(p, w, r) && ValidWires(ws) && ValidCall(p, c)
    requires Msgs(ws) == CallMsgs(p, w, c)
    ensures Reaches(p, CallNext(p, w, c), IsaAfter(r.isa, c), Seen(p, w.last, r.isa, c), Feed(r, ws))
  {
    hide Feed, Encode, Msgs, CodeMsgs, MapMsgs, InstMsg, CallNext, Seen, Touched, CodeInStep, MapInStep, StaticInStep;
    var code := if c.Instruction? then CodeMsgs(p, w.icache, c.inst) else [];
    var maps := MapMsgs(p, w.va2pa, Touched(c));
    var last := if c.Instruction? then [InstMsg(w, c.inst)] else [c.msg];
    assert CallMsgs(p, w, c) == (code + maps) + last;
    var front, zs := SplitWires(ws, code + maps, last);
    var xs, ys := SplitWires(front, code, maps);
    MsgsAt(zs, 0);
    if c.Instruction? {
      FeedInstruction(p, w, r, xs, ys, zs, c.inst);
    } else {
      assert xs == [] && xs + ys == ys;
      FeedRecord(p, w, r, ys, zs, c.msg);
    }
  }

  lemma MsgsAt(ws: seq<Wire>, i: nat)
    requires i < |ws|
    ensures Msgs(ws)[i] == ws[i].msg
  {
  }

  // ----- whole traces

  lemma FeedNothing(p: Program, w: Writer, r: Reader)
    requires InStep(p, w, r)
    ensures Reaches(p, w, r.isa, [], Feed(r, []))
  {
  }

  /** Writer and client agree on the running address after every call. */
  lemma NextLast(p: Program, w: Writer, c: Call)
    requires ValidCall(p, c)
    ensures CallNext(p, w, c).last == LastAfter(w.last, c)
  {
  }

  lemma {:induction false} FeedCalls(p: Program, w: Writer, r: Reader, ws: seq<Wire>, cs: seq<Call>) returns (isa: u32)
    requires InStep(p, w, r) && ValidWires(ws) && ValidCalls(p, cs)
    requires Msgs(ws) == TraceMsgs(p, w, cs)
    ensures Reaches(p, TraceNext(p, w, cs), isa, TraceSeen(p, w.last, r.isa, cs), Feed(r, ws))
    decreases |cs|
  {
    hide Feed, Encode, Msgs, CallMsgs, CallNext, Seen, CodeInStep, MapInStep, StaticInStep;
    if cs == [] {
      isa := r.isa;
      assert ws == [];
      FeedNothing(p, w, r);
    } else {
      var c := cs[0];
      var w1, isa1 := CallNext(p, w, c), IsaAfter(r.isa, c);
      NextLast(p, w, c);
      var xs, ys := SplitWires(ws, CallMsgs(p, w, c), TraceMsgs(p, w1, cs[1..]));
      FeedCall(p, w, r, xs, c);
      var r1 := Feed(r, xs).state;
      isa := FeedCalls(p, w1, r1, ys, cs[1..]);
      FeedBoth(p, w1, isa1, Seen(p, w.last, r.isa, c), TraceNext(p, w, cs), isa,
               TraceSeen(p, w1.last, isa1, cs[1..]), r, xs, ys);
    }
  }

  /** No call makes the writer emit an end or a checksum record. */
  lemma {:induction false} NoEnd(p: Program, w: Writer, cs: seq<Call>)
    requires ValidCalls(p, cs)
    ensures forall m :: m in TraceMsgs(p, w, cs) ==> !m.End?
    decreases |cs|
  {
    if cs != [] {
      NoEndInCall(p, w, cs[0]);
      NoEnd(p, CallNext(p, w, cs[0]), cs[1..]);
    }
  }

  lemma NoEndInCall(p: Program, w: Writer, c: Call)
    requires ValidCall(p, c)
    ensures forall m :: m in CallMsgs(p, w, c) ==> !m.End?
  {
    if c.Instruction? && !p.perInstruction {
      NoEndInPages(p, w.icache, PageOf(c.inst.addr), LastPage(c.inst));
    }
    NoEndInMaps(p, w.va2pa, Touched(c));
  }

  lemma {:induction false} NoEndInPages(p: Program, icache: set<u64>, base: int, limit: int)
    requires 0 <= base && limit < TWO64
    ensures forall m :: m in PageMsgs(p, icache, base, limit) ==> m.Icache?
    decreases limit - base
  {
    if base <= limit {
      NoEndInPages(p, icache, base + PAGE, limit);
      NoEndInPages(p, icache + {base}, base + PAGE, limit);
    }
  }

  lemma {:induction false} NoEndInMaps(p: Program, va2pa: set<u64>, vas: seq<u64>)
    ensures forall m :: m in MapMsgs(p, va2pa, vas) ==> m.PageMap?
    decreases |vas|
  {
    if vas != [] {
      NoEndInMaps(p, va2pa, vas[1..]);
      NoEndInMaps(p, va2pa + {vas[0] / PAGE}, vas[1..]);
    }
  }

  /** The reader's register holds the checksum of every byte it has consumed. */
  lemma {:induction false} FeedChecksum(r: Reader, ws: seq<Wire>)
    requires Consistent(r) && ValidWires(ws) && Feed(r, ws).Effect?
    ensures Feed(r, ws).state.checksum == Checksum(r.checksum, Flatten(ws))
    decreases |ws|
  {
    hide Encode, Apply, Checksum;
    if ws == [] {
      assert Flatten(ws) == [];
      ChecksumConcat(r.checksum, [], []);
      EmptySum(r.checksum);
    } else {
      var bytes := Encode(ws[0].msg, ws[0].pad);
      ChecksumConcat(r.checksum, bytes, Flatten(ws[1..]));
      FeedChecksum(Consume(r, ws[0].msg, bytes).state, ws[1..]);
    }
  }

  /** The two records that `Writer::End` appends to the records in `ws`. */
  function Closing(ws: seq<Wire>, sumPad: seq<byte>, endPad: seq<byte>): seq<byte>
    requires ValidWires(ws) && |sumPad| == 2 && |endPad| == 2
  {
    Encode(Sum(Checksum(0, Flatten(ws))), sumPad) + Encode(End, endPad)
  }

  lemma ReplayClosing(r: Reader, ws: seq<Wire>, sumPad: seq<byte>, endPad: seq<byte>)
    requires Consistent(r) && !r.seenEnd && ValidWires(ws) && |sumPad| == 2 && |endPad| == 2
    requires r.checksum == Checksum(0, Flatten(ws))
    ensures var p := Replay(r, Closing(ws, sumPad, endPad));
            p.Finished? && p.events == [Checked(true)] && p.rest == [] && p.state.seenEnd
  {
    hide Encode, Decode, Checksum, Flatten;
    var sum := Wire(Sum(Checksum(0, Flatten(ws))), sumPad);
    var end := Wire(End, endPad);
    var tail := Encode(End, endPad) + [];
    assert Closing(ws, sumPad, endPad) == Encode(sum.msg, sum.pad) + tail;
    ReplayRecord(r, sum, tail);
    var r1 := Consume(r, sum.msg, Encode(sum.msg, sum.pad)).state;
    ReplayRecord(r1, end, []);
    assert [Checked(true)] + ([] + []) == [Checked(true)];
  }

  /** THE ROUND TRIP. For every sequence of valid calls, every padding the compiler leaves in the records and
      both code modes: playing back the finished trace shows the client exactly the calls, in order and with
      their arguments, then a passed checksum, and consumes every byte. */
  lemma TraceRoundTrip(p: Program, cs: seq<Call>, ws: seq<Wire>, sumPad: seq<byte>, endPad: seq<byte>)
    requires ValidCalls(p, cs) && ValidWires(ws) && Msgs(ws) == TraceMsgs(p, START, cs)
    requires |sumPad| == 2 && |endPad| == 2
    ensures var played := Replay(INITIAL, Flatten(ws) + Closing(ws, sumPad, endPad));
            && played.Finished?
            && played.events == TraceSeen(p, 0, 0, cs) + [Checked(true)]
            && played.rest == []
  {
    hide Closing, Replay, Feed, Flatten, Encode, TraceMsgs, TraceSeen;
    var isa := FeedCalls(p, START, INITIAL, ws, cs);
    var e := Feed(INITIAL, ws);
    NoEnd(p, START, cs);
    assert forall i :: 0 <= i < |ws| ==> ws[i].msg == Msgs(ws)[i];
    ReplayFlatten(INITIAL, ws, Closing(ws, sumPad, endPad));
    FeedChecksum(INITIAL, ws);
    ReplayClosing(e.state, ws, sumPad, endPad);
  }

  // ----- corrupted traces

  /** The reader once it has consumed exactly `n` bytes of `s`, if that is a record boundary it gets to. */
  function RunTo(r: Reader, s: seq<byte>, n: nat): (r': Option<Reader>)
    requires Consistent(r)
    ensures r'.Some? ==> Consistent(r'.value)
    decreases n
  {
    if n == 0 then Some(r)
    else if r.seenEnd || Decode(s).Bad? || Decode(s).length > n then None
    else
      DecodeLength(s);
      var k := Decode(s).length;
      var e := Consume(r, Decode(s).msg, s[..k]);
      if e.Fault? then None else RunTo(e.state, s[k..], n - k)
  }

  /** On any stream at all, the register at a record boundary is the checksum of everything before it. */
  lemma {:induction false} RunToChecksum(r: Reader, s: seq<byte>, n: nat)
    requires Consistent(r) && RunTo(r, s, n).Some?
    ensures n <= |s| && RunTo(r, s, n).value.checksum == Checksum(r.checksum, s[..n])
    decreases n
  {
    hide Decode, Apply, Checksum;
    if n == 0 {
      EmptySum(r.checksum);
      assert s[..0] == [];
    } else {
      DecodeLength(s);
      var k := Decode(s).length;
      RunToChecksum(Consume(r, Decode(s).msg, s[..k]).state, s[k..], n - k);
      assert s[..n] == s[..k] + s[k..][..n - k];
      ChecksumConcat(r.checksum, s[..k], s[k..][..n - k]);
    }
  }

  /** Changing exactly one byte in front of the checksum record, without moving its boundary, makes the
      comparison at that record fail, whatever the bytes before it are. */
  lemma CorruptionDetected(body: seq<byte>, i: nat, b: byte, sumPad: seq<byte>, tail: seq<byte>)
    requires i < |body| && b != body[i] && |sumPad| == 2
    requires var s := body[i := b] + Encode(Sum(Checksum(0, body)), sumPad) + tail;
             RunTo(INITIAL, s, |body|).Some? && !RunTo(INITIAL, s, |body|).value.seenEnd
    ensures var s := body[i := b] + Encode(Sum(Checksum(0, body)), sumPad) + tail;
            var p := Replay(RunTo(INITIAL, s, |body|).value, s[|body|..]);
            |p.events| > 0 && p.events[0] == Checked(false)
  {
    hide Encode, Replay, Decode, Checksum;
    var sum := Wire(Sum(Checksum(0, body)), sumPad);
    var s := body[i := b] + Encode(sum.msg, sum.pad) + tail;
    RunToChecksum(INITIAL, s, |body|);
    assert s[..|body|] == body[i := b] && s[|body|..] == Encode(sum.msg, sum.pad) + tail;
    ChecksumDetectsOneByte(0, body, i, b);
    ReplayRecord(RunTo(INITIAL, s, |body|).value, sum, tail);
  }

  // ----- records of unknown type

  /** The events without checksum verdicts. */
  function Visible(events: seq<Event>): seq<Event> {
    if events == [] then []
    else (if events[0].Checked? then [] else [events[0]]) + Visible(events[1..])
  }

  /** What a playback shows apart from the checksum. */
  function Outline(p: Playback): Playback {
    match p
    case Finished(state, events, rest) => Finished(state.(checksum := 0), Visible(events), rest)
    case Broken(events) => Broken(Visible(events))
  }

  lemma {:induction false} VisibleConcat(xs: seq<Event>, ys: seq<Event>)
    ensures Visible(xs + ys) == Visible(xs) + Visible(ys)
  {
    if xs == [] {
      assert xs + ys == ys;
    } else {
      assert (xs + ys)[1..] == xs[1..] + ys;
      VisibleConcat(xs[1..], ys);
    }
  }

  lemma OutlineAfter(events: seq<Event>, p: Playback)
    ensures Outline(After(events, p)) == After(Visible(events), Outline(p))
  {
    VisibleConcat(events, p.events);
  }

  lemma ApplyShowsSame(r: Reader, c: byte, m: Msg)
    requires Consistent(r) && Consistent(r.(checksum := c))
    ensures var e, f := Apply(r, m), Apply(r.(checksum := c), m);
            e.Effect? == f.Effect?
            && (e.Effect? ==> f.state == e.state.(checksum := c) && Visible(e.events) == Visible(f.events))
  {
    ApplyIgnoresChecksum(r, c, m);
    hide Store, WholePage, Execute;
  }

  lemma {:induction false} ReplayIgnoresChecksum(r: Reader, c: byte, s: seq<byte>)
    requires Consistent(r) && Consistent(r.(checksum := c))
    ensures Outline(Replay(r, s)) == Outline(Replay(r.(checksum := c), s))
    decreases |s|
  {
    hide Apply, Decode, Checksum, Visible;
    if !r.seenEnd && Decode(s).Got? {
      DecodeLength(s);
      var m, n := Decode(s).msg, Decode(s).length;
      ApplyShowsSame(r, c, m);
      var e, f := Consume(r, m, s[..n]), Consume(r.(checksum := c), m, s[..n]);
      if e.Effect? {
        assert f.state == e.state.(checksum := f.state.checksum);
        ReplayIgnoresChecksum(e.state, f.state.checksum, s[n..]);
        OutlineAfter(e.events, Replay(e.state, s[n..]));
        OutlineAfter(f.events, Replay(f.state, s[n..]));
      }
    }
  }

  /** Up to a record boundary, playing back depends only on the bytes before it. */
  lemma {:induction false} ReplaySplit(r: Reader, s: seq<byte>, n: nat, tail: seq<byte>) returns (events: seq<Event>)
    requires Consistent(r) && RunTo(r, s, n).Some? && n <= |s|
    ensures Replay(r, s[..n] + tail) == After(events, Replay(RunTo(r, s, n).value, tail))
    ensures Replay(r, s) == After(events, Replay(RunTo(r, s, n).value, s[n..]))
    decreases n
  {
    hide Consume, Decode, Replay, RunTo, After;
    if n == 0 {
      events := [];
      assert s[..0] + tail == tail && s[0..] == s;
      RunToHere(r, s);
      AfterNothing(Replay(r, tail));
      AfterNothing(Replay(r, s));
    } else {
      DecodeLength(s);
      RunToStep(r, s, n);
      var k := Decode(s).length;
      var t := s[..n] + tail;
      assert t[..k] == s[..k];
      DecodeLocal(s, t);
      ReplayStep(r, s);
      ReplayStep(r, t);
      var e := Consume(r, Decode(s).msg, s[..k]);
      var more := ReplaySplit(e.state, s[k..], n - k, tail);
      assert t[k..] == s[k..][..n - k] + tail && s[k..][n - k..] == s[n..];
      events := e.events + more;
      var r' := RunTo(r, s, n).value;
      AfterAfter(e.events, more, Replay(r', tail));
      AfterAfter(e.events, more, Replay(r', s[n..]));
    }
  }

  lemma RunToHere(r: Reader, s: seq<byte>)
    requires Consistent(r)
    ensures RunTo(r, s, 0) == Some(r)
  {
  }

  lemma RunToStep(r: Reader, s: seq<byte>, n: nat)
    requires Consistent(r) && RunTo(r, s, n).Some? && n > 0
    ensures !r.seenEnd && Decode(s).Got? && 0 < Decode(s).length <= |s| && Decode(s).length <= n
    ensures var k := Decode(s).length;
            var e := Consume(r, Decode(s).msg, s[..k]);
            e.Effect? && RunTo(r, s, n) == RunTo(e.state, s[k..], n - k)
  {
    hide Consume, Decode;
    DecodeLength(s);
  }

  lemma ReplayStep(r: Reader, s: seq<byte>)
    requires Consistent(r) && !r.seenEnd && Decode(s).Got? && Decode(s).length <= |s|
    ensures var k := Decode(s).length;
            var e := Consume(r, Decode(s).msg, s[..k]);
            e.Effect? ==> Replay(r, s) == After(e.events, Replay(e.state, s[k..]))
  {
    hide Consume, Decode, After;
  }

  /** Inserting a record of a type the reader has no case for, at any record boundary of any stream, changes
      nothing but checksum verdicts. */
  lemma UnknownRecordsAreInvisible(s: seq<byte>, n: nat, u: Wire)
    requires n <= |s| && RunTo(INITIAL, s, n).Some? && !RunTo(INITIAL, s, n).value.seenEnd
    requires ValidWire(u) && u.msg.Unknown?
    ensures Outline(Replay(INITIAL, s[..n] + (Encode(u.msg, u.pad) + s[n..]))) == Outline(Replay(INITIAL, s))
  {
    hide Encode, Decode, Checksum, Replay, RunTo, Outline;
    var r := RunTo(INITIAL, s, n).value;
    var tail := Encode(u.msg, u.pad) + s[n..];
    var events := ReplaySplit(INITIAL, s, n, tail);
    OutlineAfter(events, Replay(r, tail));
    OutlineAfter(events, Replay(r, s[n..]));
    SkipUnknown(r, u, s[n..]);
  }

  lemma SkipUnknown(r: Reader, u: Wire, s: seq<byte>)
    requires Consistent(r) && !r.seenEnd && ValidWire(u) && u.msg.Unknown?
    ensures Outline(Replay(r, Encode(u.msg, u.pad) + s)) == Outline(Replay(r, s))
  {
    hide Encode, Decode, Checksum, Replay, Outline;
    ReplayRecord(r, u, s);
    var r1 := Consume(r, u.msg, Encode(u.msg, u.pad)).state;
    AfterNothing(Replay(r1, s));
    ReplayIgnoresChecksum(r, r1.checksum, s);
  }

  // ----- the events, one by one

  /** The running address and instruction set after a list of calls. */
  function LastOf(last: u64, cs: seq<Call>): u64
    decreases |cs|
  {
    if cs == [] then last else LastOf(LastAfter(last, cs[0]), cs[1..])
  }

  function IsaOf(isa: u32, cs: seq<Call>): u32
    decreases |cs|
  {
    if cs == [] then isa else IsaOf(IsaAfter(isa, cs[0]), cs[1..])
  }

  lemma {:induction false} LastSnoc(last: u64, isa: u32, cs: seq<Call>, c: Call)
    ensures LastOf(last, cs + [c]) == LastAfter(LastOf(last, cs), c)
    ensures IsaOf(isa, cs + [c]) == IsaAfter(IsaOf(isa, cs), c)
    decreases |cs|
  {
    hide LastAfter, IsaAfter;
    var all := cs + [c];
    if cs == [] {
      assert all[1..] == [];
    } else {
      assert all[1..] == cs[1..] + [c];
      LastSnoc(LastAfter(last, cs[0]), IsaAfter(isa, cs[0]), cs[1..], c);
    }
  }

  lemma {:induction false} TraceSeenSnoc(p: Program, last: u64, isa: u32, cs: seq<Call>, c: Call)
    requires ValidCalls(p, cs) && ValidCall(p, c)
    ensures TraceSeen(p, last, isa, cs + [c]) ==
      TraceSeen(p, last, isa, cs) + Seen(p, LastOf(last, cs), IsaOf(isa, cs), c)
    ensures LastOf(last, cs + [c]) == LastAfter(LastOf(last, cs), c)
    ensures IsaOf(isa, cs + [c]) == IsaAfter(IsaOf(isa, cs), c)
    decreases |cs|
  {
    hide Seen, LastAfter, IsaAfter;
    var all := cs + [c];
    if cs == [] {
      assert all[1..] == [];
    } else {
      assert all[1..] == cs[1..] + [c];
      TraceSeenSnoc(p, LastAfter(last, cs[0]), IsaAfter(isa, cs[0]), cs[1..], c);
    }
  }

  /** Where the last instruction ended, and the instruction set chosen last. */
  function EndOf(cs: seq<Call>): u64 {
    if cs == [] then 0
    else
      var c := cs[|cs| - 1];
      if c.Instruction? && c.inst.size >= 0 then Add64(c.inst.addr, c.inst.size) else EndOf(cs[..|cs| - 1])
  }

  function ChosenIsa(cs: seq<Call>): u32 {
    if cs == [] then 0
    else
      var c := cs[|cs| - 1];
      if c.Record? && c.msg.ISAChange? then c.msg.isa else ChosenIsa(cs[..|cs| - 1])
  }

  /** How many of the calls the client sees: all but changes of the instruction set. */
  function Visibles(cs: seq<Call>): nat {
    if cs == [] then 0
    else
      var c := cs[|cs| - 1];
      Visibles(cs[..|cs| - 1]) + if c.Record? && c.msg.ISAChange? then 0 else 1
  }

  /** The event shows the call with its arguments and, for an instruction, the program's bytes. Only the `executed` flag
      of an unpredicated instruction that follows the one before is not transmitted. */
  ghost predicate ShowsCall(p: Program, before: seq<Call>, c: Call, e: Event) {
    if c.Record? then e == Called(c.msg)
    else
      && e.Executed? && e.inst.sinst.addr == c.inst.addr && e.inst.sinst.size == c.inst.size == |e.inst.sinst.data|
      && (forall b :: 0 <= b < c.inst.size ==> e.inst.sinst.data[b] == p.code(c.inst.addr + b))
      && e.inst.addresses == c.inst.addresses && e.inst.isBranch == c.inst.isBranch && e.inst.taken == c.inst.taken
      && e.inst.isPredicate == c.inst.isPredicate && e.inst.isa == ChosenIsa(before)
      && (e.inst.executed <==> c.inst.executed || (c.inst.addr == EndOf(before) && !c.inst.isPredicate))
  }

  lemma {:induction false} RunningIs(cs: seq<Call>)
    ensures LastOf(0, cs) == EndOf(cs) && IsaOf(0, cs) == ChosenIsa(cs)
  {
    if cs != [] {
      var n := |cs| - 1;
      RunningIs(cs[..n]);
      assert cs[..n] + [cs[n]] == cs;
      LastSnoc(0, 0, cs[..n], cs[n]);
    }
  }

  /** CALL BY CALL. What the client sees of a trace is one event per visible call, in order, and the event of each call
      shows that call. */
  lemma {:induction false} EventOf(p: Program, cs: seq<Call>, j: nat)
    requires ValidCalls(p, cs) && j < |cs| && !(cs[j].Record? && cs[j].msg.ISAChange?)
    ensures var events := TraceSeen(p, 0, 0, cs);
            && |events| == Visibles(cs) && Visibles(cs[..j]) < Visibles(cs)
            && ShowsCall(p, cs[..j], cs[j], events[Visibles(cs[..j])])
  {
    hide TraceSeen, EndOf, ChosenIsa, LastOf, IsaOf, Seen, ShowsCall, Visibles;
    var n := |cs| - 1;
    var before, c := cs[..n], cs[n];
    assert before + [c] == cs;
    EventCount(p, before);
    EventCount(p, cs);
    TraceSeenSnoc(p, 0, 0, before, c);
    SeenShows(p, before, c);
    VisiblesSnoc(before, c);
    if j < n {
      EventOf(p, before, j);
      assert before[..j] == cs[..j];
    }
  }

  lemma VisiblesSnoc(cs: seq<Call>, c: Call)
    ensures Visibles(cs + [c]) == Visibles(cs) + if c.Record? && c.msg.ISAChange? then 0 else 1
  {
    assert (cs + [c])[..|cs|] == cs;
  }

  lemma SeenShows(p: Program, before: seq<Call>, c: Call)
    requires ValidCall(p, c)
    ensures var events := Seen(p, LastOf(0, before), IsaOf(0, before), c);
            if c.Record? && c.msg.ISAChange? then events == [] else |events| == 1 && ShowsCall(p, before, c, events[0])
  {
    RunningIs(before);
    hide LastOf, IsaOf, EndOf, ChosenIsa;
  }

  lemma {:induction false} EventCount(p: Program, cs: seq<Call>)
    requires ValidCalls(p, cs)
    ensures |TraceSeen(p, 0, 0, cs)| == Visibles(cs)
  {
    if cs == [] {
      assert TraceSeen(p, 0, 0, cs) == [];
    } else {
      hide TraceSeen, Seen, LastOf, IsaOf, ShowsCall, Visibles;
      var n := |cs| - 1;
      EventCount(p, cs[..n]);
      assert cs[..n] + [cs[n]] == cs;
      TraceSeenSnoc(p, 0, 0, cs[..n], cs[n]);
      SeenShows(p, cs[..n], cs[n]);
      VisiblesSnoc(cs[..n], cs[n]);
    }
  }
}
