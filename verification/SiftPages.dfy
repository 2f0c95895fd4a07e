/** Page mappings: what the writer sends about the virtual address space, and what the reader makes of it. */
module SiftPages {
  import opened Bytes
  import opened SiftFormat
  import opened SiftImage
  import opened SiftReplay
  import opened SiftRecord
  import opened SiftTrace

  /** `Reader::va2pa`: without mappings in the trace an address stands for itself, and a page that was never
      mapped has physical address 0. The low twelve bits of the shifted frame are zero, so OR is addition. */
  function Translate(r: Reader, traceHasPa: bool, va: u64): u64 {
    if !traceHasPa then va
    else if va / PAGE !in r.vcache then 0
    else r.vcache[va / PAGE] * PAGE % TWO64 + va % PAGE
  }

  lemma {:induction false} TouchedPagesAreSent(p: Program, va2pa: set<u64>, vas: seq<u64>, va: u64)
    requires p.sendMapping && p.frame(va / PAGE) != 0
    requires va in vas || va / PAGE in va2pa
    ensures va / PAGE in MapSent(p, va2pa, vas)
    decreases |vas|
  {
    if vas != [] {
      TouchedPagesAreSent(p, if NeedsMapping(p, va2pa, vas[0]) then va2pa + {vas[0] / PAGE} else va2pa, vas[1..], va);
    }
  }

  /** The call is about this address: it executes or accesses it, or it is a futex call on it. */
  ghost predicate Names(c: Call, va: u64) {
    || (c.Instruction? && (va == c.inst.addr || exists i :: 0 <= i < |c.inst.addresses| && va == c.inst.addresses[i]))
    || (c.Record? && c.msg.CacheOnly? && (va == c.msg.eip || va == c.msg.address))
    || (c.Record? && c.msg.Syscall? && c.msg.number == SYS_FUTEX && |c.msg.data| >= 8 && va == U64(c.msg.data[..8]))
  }

  lemma NamesAreTouched(c: Call, va: u64)
    ensures Names(c, va) <==> va in Touched(c)
  {
  }

  /** The physical address, in 64 bits, of an address on a mapped page, and 0 on other pages. */
  ghost predicate Translates(p: Program, r: Reader, va: u64) {
    var frame := p.frame(va / PAGE);
    Translate(r, true, va) == if frame == 0 then 0 else (frame * PAGE + va % PAGE) % TWO64
  }

  lemma MappedTranslates(p: Program, w: Writer, r: Reader, va: u64)
    requires InStep(p, w, r) && (p.frame(va / PAGE) != 0 ==> va / PAGE in w.va2pa)
    ensures Translates(p, r, va)
  {
    hide CodeInStep, StaticInStep;
    assert p.frame(va / PAGE) != 0 <==> va / PAGE in r.vcache;
    hide MapInStep;
    ShiftedFrame(p.frame(va / PAGE), va);
  }

  lemma ShiftedFrame(frame: u64, va: u64)
    ensures (frame * PAGE + va % PAGE) % TWO64 == frame * PAGE % TWO64 + va % PAGE
  {
  }

  /** After a call that names `va`, the reader translates it to its own frame and offset; an address on a page
      that is not mapped translates to 0. */
  lemma TranslationAgrees(p: Program, w: Writer, r: Reader, c: Call, va: u64)
    requires ValidCall(p, c) && InStep(p, CallNext(p, w, c), r) && p.sendMapping && Names(c, va)
    ensures Translates(p, r, va)
  {
    hide InStep, Touched, Names, Translates;
    NamesAreTouched(c, va);
    if p.frame(va / PAGE) != 0 {
      TouchedPagesAreSent(p, w.va2pa, Touched(c), va);
    }
    MappedTranslates(p, CallNext(p, w, c), r, va);
  }

  lemma {:induction false} TouchedStays(p: Program, w: Writer, cs: seq<Call>, i: nat, va: u64)
    requires ValidCalls(p, cs) && p.sendMapping && p.frame(va / PAGE) != 0
    requires (i < |cs| && va in Touched(cs[i])) || va / PAGE in w.va2pa
    ensures va / PAGE in TraceNext(p, w, cs).va2pa
    decreases |cs|
  {
    if cs != [] {
      hide Touched, MapSent;
      if va in Touched(cs[0]) || va / PAGE in w.va2pa {
        TouchedPagesAreSent(p, w.va2pa, Touched(cs[0]), va);
      }
      TouchedStays(p, CallNext(p, w, cs[0]), cs[1..], if i == 0 then 0 else i - 1, va);
    }
  }

  /** After any calls, on the reader that has consumed their records, every address that one of them names translates
      to its own frame and offset, and to 0 on a page that is not mapped. */
  lemma TraceTranslates(p: Program, cs: seq<Call>, ws: seq<Wire>, i: nat, va: u64)
    requires ValidCalls(p, cs) && ValidWires(ws) && Msgs(ws) == TraceMsgs(p, START, cs)
    requires p.sendMapping && i < |cs| && Names(cs[i], va)
    ensures Feed(INITIAL, ws).Effect? && Translates(p, Feed(INITIAL, ws).state, va)
  {
    hide Feed, Msgs, TraceMsgs, TraceNext, TraceSeen, Touched, Names, InStep, Translates;
    NamesAreTouched(cs[i], va);
    InitialInStep(p);
    var isa := FeedCalls(p, START, INITIAL, ws, cs);
    if p.frame(va / PAGE) != 0 {
      TouchedStays(p, START, cs, i, va);
    }
    MappedTranslates(p, TraceNext(p, START, cs), Feed(INITIAL, ws).state, va);
  }

  lemma InitialInStep(p: Program)
    ensures InStep(p, START, INITIAL)
  {
  }

  // ----- each page is sent at most once

  ghost function Pages(ms: seq<Msg>): set<u64> {
    set m | m in ms && m.PageMap? :: m.vp
  }

  ghost predicate OncePerPage(ms: seq<Msg>) {
    forall i, j :: 0 <= i < j < |ms| && ms[i].PageMap? && ms[j].PageMap? ==> ms[i].vp != ms[j].vp
  }

  lemma OnceConcat(xs: seq<Msg>, ys: seq<Msg>)
    requires OncePerPage(xs) && OncePerPage(ys) && Pages(xs) !! Pages(ys)
    ensures OncePerPage(xs + ys) && Pages(xs + ys) == Pages(xs) + Pages(ys)
  {
    forall i, j | 0 <= i < j < |xs + ys| && (xs + ys)[i].PageMap? && (xs + ys)[j].PageMap?
      ensures (xs + ys)[i].vp != (xs + ys)[j].vp
    {
      if i < |xs| <= j {
        assert xs[i].vp in Pages(xs) && ys[j - |xs|].vp in Pages(ys);
      }
    }
    assert forall m :: m in xs + ys <==> m in xs || m in ys;
  }

  lemma {:induction false} MapsOnce(p: Program, va2pa: set<u64>, vas: seq<u64>)
    ensures var ms := MapMsgs(p, va2pa, vas);
            OncePerPage(ms) && Pages(ms) !! va2pa && MapSent(p, va2pa, vas) == va2pa + Pages(ms)
    decreases |vas|
  {
    if vas != [] {
      if NeedsMapping(p, va2pa, vas[0]) {
        var vp := vas[0] / PAGE;
        var head := [PageMap(vp, p.frame(vp))];
        MapsOnce(p, va2pa + {vp}, vas[1..]);
        assert head[0] in head;
        assert Pages(head) == {vp};
        OnceConcat(head, MapMsgs(p, va2pa + {vp}, vas[1..]));
      } else {
        MapsOnce(p, va2pa, vas[1..]);
      }
    }
  }

  lemma {:induction false} PageMsgsHaveNoMaps(p: Program, icache: set<u64>, base: int, limit: int)
    requires 0 <= base && limit < TWO64
    ensures forall m :: m in PageMsgs(p, icache, base, limit) ==> !m.PageMap?
    decreases limit - base
  {
    if base <= limit {
      PageMsgsHaveNoMaps(p, icache, base + PAGE, limit);
      PageMsgsHaveNoMaps(p, icache + {base}, base + PAGE, limit);
    }
  }

  lemma {:induction false} OnlyTouchedAreSent(p: Program, va2pa: set<u64>, vas: seq<u64>, vp: u64) returns (va: u64)
    requires vp in MapSent(p, va2pa, vas) && vp !in va2pa
    ensures p.sendMapping && va in vas && va / PAGE == vp && p.frame(vp) != 0
    decreases |vas|
  {
    var more := if NeedsMapping(p, va2pa, vas[0]) then va2pa + {vas[0] / PAGE} else va2pa;
    if vp in more {
      va := vas[0];
    } else {
      va := OnlyTouchedAreSent(p, more, vas[1..], vp);
    }
  }

  /** No page is sent but the mapped ones of addresses that the calls name. */
  lemma {:induction false} OnlyNamedAreSent(p: Program, w: Writer, cs: seq<Call>, vp: u64) returns (i: nat, va: u64)
    requires ValidCalls(p, cs) && vp in TraceNext(p, w, cs).va2pa && vp !in w.va2pa
    ensures p.sendMapping && i < |cs| && Names(cs[i], va) && va / PAGE == vp && p.frame(vp) != 0
    decreases |cs|
  {
    hide Touched, Names, MapSent;
    var next := CallNext(p, w, cs[0]);
    if vp in next.va2pa {
      va := OnlyTouchedAreSent(p, w.va2pa, Touched(cs[0]), vp);
      i := 0;
      NamesAreTouched(cs[0], va);
    } else {
      i, va := OnlyNamedAreSent(p, next, cs[1..], vp);
      i := i + 1;
    }
  }

  lemma CallOnce(p: Program, w: Writer, c: Call)
    requires ValidCall(p, c)
    ensures var ms := CallMsgs(p, w, c);
            OncePerPage(ms) && Pages(ms) !! w.va2pa && CallNext(p, w, c).va2pa == w.va2pa + Pages(ms)
  {
    var maps := MapMsgs(p, w.va2pa, Touched(c));
    MapsOnce(p, w.va2pa, Touched(c));
    var last := if c.Instruction? then [InstMsg(w, c.inst)] else [c.msg];
    assert Pages(last) == {};
    OnceConcat(maps, last);
    if c.Instruction? {
      var code := CodeMsgs(p, w.icache, c.inst);
      if !p.perInstruction {
        PageMsgsHaveNoMaps(p, w.icache, PageOf(c.inst.addr), LastPage(c.inst));
      }
      assert Pages(code) == {};
      OnceConcat(code, maps + last);
      assert code + (maps + last) == CallMsgs(p, w, c);
    }
  }

  /** Over a whole trace no page is sent twice, and the writer's set is exactly the pages sent. */
  lemma {:induction false} TraceOnce(p: Program, w: Writer, cs: seq<Call>)
    requires ValidCalls(p, cs)
    ensures var ms := TraceMsgs(p, w, cs);
            OncePerPage(ms) && Pages(ms) !! w.va2pa && TraceNext(p, w, cs).va2pa == w.va2pa + Pages(ms)
    decreases |cs|
  {
    if cs != [] {
      hide CallMsgs, CallNext;
      CallOnce(p, w, cs[0]);
      TraceOnce(p, CallNext(p, w, cs[0]), cs[1..]);
      OnceConcat(CallMsgs(p, w, cs[0]), TraceMsgs(p, CallNext(p, w, cs[0]), cs[1..]));
    }
  }

  /** A trace sends exactly the mapped pages of the addresses that its calls name. */
  lemma TracePages(p: Program, cs: seq<Call>, vp: u64)
    requires ValidCalls(p, cs)
    ensures vp in Pages(TraceMsgs(p, START, cs)) <==>
      p.sendMapping && p.frame(vp) != 0 && exists i, va: u64 :: 0 <= i < |cs| && Names(cs[i], va) && va / PAGE == vp
  {
    hide TraceMsgs, TraceNext, Names, Pages;
    TraceOnce(p, START, cs);
    if vp in Pages(TraceMsgs(p, START, cs)) {
      var i, va := OnlyNamedAreSent(p, START, cs, vp);
    }
    if i, va: u64 :|
      p.sendMapping && p.frame(vp) != 0 && 0 <= i < |cs| && Names(cs[i], va) && va / PAGE == vp
    {
      NamesAreTouched(cs[i], va);
      TouchedStays(p, START, cs, i, va);
    }
  }
}
