/** `Profile.call_ratios` and `Profile.integrate` on a call graph without cycles: self times are handed up the
    calls in proportion to an event, and none is lost. Floating-point numbers are reals here. */
module TimeProfile {
  import opened Basics
  import opened Graph

  /** A call with the value of the event by which time is distributed, if the profile has one. */
  datatype Call = Call(callee: Id, value: Option<real>)

  /** `ratio`: 0/0 counts as 1, and results are cut to the range from 0 to 1. */
  function Ratio(numerator: real, denominator: real): (r: real)
    ensures 0.0 <= r <= 1.0
  {
    if denominator == 0.0 then 1.0
    else
      var r := numerator / denominator;
      if r < 0.0 then 0.0 else if r > 1.0 then 1.0 else r
  }

  // ----- sums over calls

  /** The sum of the event over the calls of `c` in `es`. */
  function Incoming(es: seq<Call>, c: Id): real {
    if es == [] then 0.0
    else (if es[0].callee == c && es[0].value.Some? then es[0].value.value else 0.0) + Incoming(es[1..], c)
  }

  /** How many calls of `c` in `es` have the event. */
  function Valued(es: seq<Call>, c: Id): nat {
    if es == [] then 0
    else (if es[0].callee == c && es[0].value.Some? then 1 else 0) + Valued(es[1..], c)
  }

  function CallRatio(e: Call, totals: map<Id, real>): real
    requires e.callee in totals
  {
    if e.value.None? then 0.0 else Ratio(e.value.value, totals[e.callee])
  }

  predicate Known(es: seq<Call>, totals: map<Id, real>) {
    forall i :: 0 <= i < |es| ==> es[i].callee in totals
  }

  /** The sum of the ratios of the calls of `c` in `es`. */
  function Share(es: seq<Call>, totals: map<Id, real>, c: Id): real
    requires Known(es, totals)
  {
    if es == [] then 0.0
    else (if es[0].callee == c then CallRatio(es[0], totals) else 0.0) + Share(es[1..], totals, c)
  }

  /** The time handed up along the calls in `es`. */
  function HandedUp(es: seq<Call>, totals: map<Id, real>, out: map<Id, real>): real
    requires Known(es, totals) && forall i :: 0 <= i < |es| ==> es[i].callee in out
  {
    if es == [] then 0.0 else Part(es[0], totals, out) + HandedUp(es[1..], totals, out)
  }

  /** What one call hands up: its ratio of the callee's output. */
  function Part(e: Call, totals: map<Id, real>, out: map<Id, real>): real
    requires e.callee in totals && e.callee in out
  {
    CallRatio(e, totals) * out[e.callee]
  }

  ghost predicate NonNegative(es: seq<Call>) {
    forall i :: 0 <= i < |es| && es[i].value.Some? ==> es[i].value.value >= 0.0
  }

  lemma {:induction false} IncomingNonNegative(es: seq<Call>, c: Id)
    requires NonNegative(es)
    ensures Incoming(es, c) >= 0.0
    ensures forall i :: 0 <= i < |es| && es[i].callee == c && es[i].value.Some? ==> es[i].value.value <= Incoming(es, c)
  {
    if es != [] {
      IncomingNonNegative(es[1..], c);
      forall i | 0 <= i < |es| && es[i].callee == c && es[i].value.Some?
        ensures es[i].value.value <= Incoming(es, c)
      {
        if i > 0 {
          assert es[1..][i - 1] == es[i];
        }
      }
    }
  }

  /** With a positive total, the ratios of some of the calls are their part of the total. */
  lemma {:induction false} ShareIsPart(es: seq<Call>, totals: map<Id, real>, c: Id)
    requires NonNegative(es) && Known(es, totals) && c in totals && totals[c] > 0.0
    requires forall i :: 0 <= i < |es| && es[i].callee == c && es[i].value.Some? ==> es[i].value.value <= totals[c]
    ensures Times(Share(es, totals, c), totals[c]) == Incoming(es, c)
  {
    hide CallRatio, Times;
    if es == [] {
      TimesZero(totals[c]);
    } else {
      assert forall i :: 0 <= i < |es| - 1 ==> es[1..][i] == es[i + 1];
      ShareIsPart(es[1..], totals, c);
      if es[0].callee == c {
        RatioIsQuotient(es[0], totals);
        TimesPlus(CallRatio(es[0], totals), Share(es[1..], totals, c), totals[c]);
      }
    }
  }

  function Times(a: real, b: real): real {
    a * b
  }

  lemma TimesZero(b: real)
    ensures Times(0.0, b) == 0.0
  {
  }

  lemma TimesPlus(a: real, b: real, c: real)
    ensures Times(a + b, c) == Times(a, c) + Times(b, c)
  {
    Distribute(a, b, c);
  }

  lemma RatioIsQuotient(e: Call, totals: map<Id, real>)
    requires e.callee in totals && totals[e.callee] > 0.0
    requires e.value.Some? ==> 0.0 <= e.value.value <= totals[e.callee]
    ensures Times(CallRatio(e, totals), totals[e.callee]) == if e.value.Some? then e.value.value else 0.0
  {
    if e.value.Some? {
      Quotient(e.value.value, totals[e.callee]);
    }
  }

  lemma Quotient(v: real, t: real)
    requires 0.0 <= v <= t && t > 0.0
    ensures 0.0 <= v / t <= 1.0 && v / t * t == v
  {
  }

  lemma Distribute(a: real, b: real, c: real)
    ensures (a + b) * c == a * c + b * c
  {
  }

  /** With total 0 every call that has the event gets the whole. */
  lemma {:induction false} ShareOfNothing(es: seq<Call>, totals: map<Id, real>, c: Id)
    requires Known(es, totals) && c in totals && totals[c] == 0.0
    ensures Share(es, totals, c) == Valued(es, c) as real
  {
    if es != [] {
      ShareOfNothing(es[1..], totals, c);
    }
  }

  /** The ratios of all calls of `c` sum to 1 exactly when the event has a positive total, or exactly one of the
      calls has the event at all. */
  lemma SharesSumToOne(es: seq<Call>, totals: map<Id, real>, c: Id)
    requires NonNegative(es) && Known(es, totals) && c in totals && totals[c] == Incoming(es, c)
    ensures Share(es, totals, c) == 1.0 <==> totals[c] > 0.0 || Valued(es, c) == 1
  {
    hide Share, Incoming, Valued, Times;
    IncomingNonNegative(es, c);
    if totals[c] > 0.0 {
      ShareIsPart(es, totals, c);
      OneOfTotal(Share(es, totals, c), totals[c], Incoming(es, c));
    } else {
      ShareOfNothing(es, totals, c);
    }
  }

  /** They need not: two calls of a function whose event is 0 each get the whole. */
  lemma SharesCanExceedOne(c: Id)
    ensures var e := Call(c, Some(0.0));
            && Known([e, e], map[c := 0.0]) && Incoming([e, e], c) == 0.0 && Share([e, e], map[c := 0.0], c) == 2.0
  {
    var e := Call(c, Some(0.0));
    var es, totals := [e, e], map[c := 0.0];
    assert [e][1..] == [] && es[1..] == [e];
    assert Valued([e], c) == 1 && Incoming([e], c) == 0.0;
    assert Valued(es, c) == 1 + Valued(es[1..], c) && Incoming(es, c) == Incoming(es[1..], c);
    ShareOfNothing(es, totals, c);
  }

  lemma OneOfTotal(share: real, total: real, incoming: real)
    requires Times(share, total) == incoming && incoming == total && total > 0.0
    ensures share == 1.0
  {
    assert (share - 1.0) * total == 0.0;
  }

  // ----- the conservation identity

  /** The sum of `f` over a list of functions. */
  function Total(ids: seq<Id>, f: map<Id, real>): real
    requires forall i :: 0 <= i < |ids| ==> ids[i] in f
  {
    if ids == [] then 0.0 else f[ids[0]] + Total(ids[1..], f)
  }

  /** Every function's output, times the ratios of the calls to it. */
  function Shares(ids: seq<Id>, es: seq<Call>, totals: map<Id, real>, out: map<Id, real>): real
    requires Known(es, totals) && forall i :: 0 <= i < |ids| ==> ids[i] in out
  {
    if ids == [] then 0.0 else out[ids[0]] * Share(es, totals, ids[0]) + Shares(ids[1..], es, totals, out)
  }

  /** One more call adds its part to the function it calls, and to no other. */
  lemma {:induction false} SharesCons(ids: seq<Id>, e: Call, es: seq<Call>, totals: map<Id, real>, out: map<Id, real>)
    requires Distinct(ids) && e.callee in totals && Known([e] + es, totals)
    requires Known(es, totals) && forall i :: 0 <= i < |ids| ==> ids[i] in out
    ensures Shares(ids, [e] + es, totals, out) ==
            Shares(ids, es, totals, out) + if e.callee in ids then Part(e, totals, out) else 0.0
  {
    hide Ratio, CallRatio;
    if ids != [] {
      assert ([e] + es)[1..] == es;
      SharesCons(ids[1..], e, es, totals, out);
      var c := ids[0];
      if e.callee == c {
        assert c !in ids[1..];
        var r, s, o := CallRatio(e, totals), Share(es, totals, c), out[c];
        Distribute(r, s, o);
      }
    }
  }

  /** Summing over calls and summing over called functions give the same time. */
  lemma {:induction false} HandedUpByCallee(ids: seq<Id>, es: seq<Call>, totals: map<Id, real>, out: map<Id, real>)
    requires Distinct(ids) && Known(es, totals) && (forall i :: 0 <= i < |ids| ==> ids[i] in out)
    requires forall i :: 0 <= i < |es| ==> es[i].callee in ids && es[i].callee in out
    ensures HandedUp(es, totals, out) == Shares(ids, es, totals, out)
  {
    hide CallRatio;
    if es == [] {
      NoShares(ids, totals, out);
    } else {
      HandedUpByCallee(ids, es[1..], totals, out);
      SharesCons(ids, es[0], es[1..], totals, out);
      assert [es[0]] + es[1..] == es;
    }
  }

  lemma {:induction false} NoShares(ids: seq<Id>, totals: map<Id, real>, out: map<Id, real>)
    requires forall i :: 0 <= i < |ids| ==> ids[i] in out
    ensures Shares(ids, [], totals, out) == 0.0
  {
    if ids != [] {
      NoShares(ids[1..], totals, out);
    }
  }

  // ----- profiles

  /** Functions in order, their calls, and their self times. */
  datatype Profile = Profile(ids: seq<Id>, calls: map<Id, seq<Call>>, selfTime: map<Id, real>)

  ghost predicate WellFormed(p: Profile) {
    && Distinct(p.ids) && (forall x :: x in p.ids <==> x in p.calls) && p.selfTime.Keys == p.calls.Keys
    && (forall x, k :: x in p.calls && 0 <= k < |p.calls[x]| ==> p.calls[x][k].callee in p.calls)
  }

  /** The calls among `cs` that are not calls of `f` by itself. */
  function Others(f: Id, cs: seq<Call>): (r: seq<Call>)
    ensures forall e :: e in r <==> e in cs && e.callee != f
  {
    if cs == [] then [] else (if cs[0].callee == f then [] else [cs[0]]) + Others(f, cs[1..])
  }

  function AllCalls(p: Profile, ids: seq<Id>): seq<Call>
    requires forall i :: 0 <= i < |ids| ==> ids[i] in p.calls
  {
    if ids == [] then [] else Others(ids[0], p.calls[ids[0]]) + AllCalls(p, ids[1..])
  }

  lemma {:induction false} AllCallsDefined(p: Profile, ids: seq<Id>)
    requires WellFormed(p) && forall i :: 0 <= i < |ids| ==> ids[i] in p.calls
    ensures forall e :: e in AllCalls(p, ids) ==> e.callee in p.calls
  {
    if ids != [] {
      AllCallsDefined(p, ids[1..]);
      forall e | e in Others(ids[0], p.calls[ids[0]])
        ensures e.callee in p.calls
      {
        assert e in p.calls[ids[0]];
      }
    }
  }

  lemma {:induction false} HandedUpConcat(xs: seq<Call>, ys: seq<Call>, totals: map<Id, real>, out: map<Id, real>)
    requires Known(xs, totals) && Known(ys, totals)
    requires (forall i :: 0 <= i < |xs| ==> xs[i].callee in out) && forall i :: 0 <= i < |ys| ==> ys[i].callee in out
    ensures HandedUp(xs + ys, totals, out) == HandedUp(xs, totals, out) + HandedUp(ys, totals, out)
  {
    hide Part;
    if xs == [] {
      assert xs + ys == ys;
    } else {
      assert (xs + ys)[1..] == xs[1..] + ys;
      HandedUpConcat(xs[1..], ys, totals, out);
    }
  }

  /** Every function's output is its self time and what its calls of other functions hand up. */
  ghost predicate Balanced(p: Profile, totals: map<Id, real>, out: map<Id, real>) {
    && WellFormed(p) && totals.Keys == p.calls.Keys && out.Keys == p.calls.Keys
    && forall x :: x in p.calls ==> OutputOf(p, totals, out, x)
  }

  ghost predicate OutputOf(p: Profile, totals: map<Id, real>, out: map<Id, real>, x: Id)
    requires x in p.calls && x in p.selfTime
  {
    var es := Others(x, p.calls[x]);
    && Known(es, totals) && (forall i :: 0 <= i < |es| ==> es[i].callee in out)
    && x in out && out[x] == p.selfTime[x] + HandedUp(es, totals, out)
  }

  lemma {:induction false} SumOfOutputs(p: Profile, totals: map<Id, real>, out: map<Id, real>, ids: seq<Id>)
    requires Balanced(p, totals, out) && forall i :: 0 <= i < |ids| ==> ids[i] in p.calls
    ensures var es := AllCalls(p, ids);
            && Known(es, totals) && (forall i :: 0 <= i < |es| ==> es[i].callee in out)
            && Total(ids, out) == Total(ids, p.selfTime) + HandedUp(es, totals, out)
  {
    hide HandedUp, Others, OutputOf, AllCalls;
    AllCallsCons(p, ids);
    if ids == [] {
      NothingHandedUp(totals, out);
    } else {
      SumOfOutputs(p, totals, out, ids[1..]);
      assert ids[0] in p.calls;
      OutputFacts(p, totals, out, ids[0]);
      HandedUpConcat(Others(ids[0], p.calls[ids[0]]), AllCalls(p, ids[1..]), totals, out);
    }
  }

  lemma AllCallsCons(p: Profile, ids: seq<Id>)
    requires forall i :: 0 <= i < |ids| ==> ids[i] in p.calls
    ensures AllCalls(p, ids) == if ids == [] then [] else Others(ids[0], p.calls[ids[0]]) + AllCalls(p, ids[1..])
  {
    hide Others;
  }

  lemma OutputFacts(p: Profile, totals: map<Id, real>, out: map<Id, real>, x: Id)
    requires Balanced(p, totals, out) && x in p.calls
    ensures var es := Others(x, p.calls[x]);
            && Known(es, totals) && (forall i :: 0 <= i < |es| ==> es[i].callee in out)
            && x in p.selfTime && x in out && out[x] == p.selfTime[x] + HandedUp(es, totals, out)
  {
    hide Others, HandedUp;
  }

  predicate Calls(es: seq<Call>, c: Id) {
    exists i :: 0 <= i < |es| && es[i].callee == c
  }

  /** The functions in `ids` that no other function calls. */
  function Roots(ids: seq<Id>, es: seq<Call>): (r: seq<Id>)
    ensures forall x :: x in r <==> x in ids && !Calls(es, x)
  {
    if ids == [] then [] else (if Calls(es, ids[0]) then [] else [ids[0]]) + Roots(ids[1..], es)
  }

  /** What the calls of a function hand up too much, or too little if negative, summed over called functions. */
  function Excess(ids: seq<Id>, es: seq<Call>, totals: map<Id, real>, out: map<Id, real>): real
    requires Known(es, totals) && forall i :: 0 <= i < |ids| ==> ids[i] in out
  {
    if ids == [] then 0.0
    else
      (if Calls(es, ids[0]) then out[ids[0]] * (Share(es, totals, ids[0]) - 1.0) else 0.0)
      + Excess(ids[1..], es, totals, out)
  }

  lemma {:induction false} UncalledShare(es: seq<Call>, totals: map<Id, real>, c: Id)
    requires Known(es, totals) && !Calls(es, c)
    ensures Share(es, totals, c) == 0.0
  {
    if es != [] {
      assert es[0].callee != c;
      assert !Calls(es[1..], c);
      UncalledShare(es[1..], totals, c);
    }
  }

  lemma {:induction false} SharesByRoots(ids: seq<Id>, es: seq<Call>, totals: map<Id, real>, out: map<Id, real>)
    requires Known(es, totals) && forall i :: 0 <= i < |ids| ==> ids[i] in out
    ensures (forall i :: 0 <= i < |Roots(ids, es)| ==> Roots(ids, es)[i] in out)
    ensures Total(ids, out) + Excess(ids, es, totals, out) == Total(Roots(ids, es), out) + Shares(ids, es, totals, out)
  {
    hide Share;
    if ids != [] {
      SharesByRoots(ids[1..], es, totals, out);
      var c, rest := ids[0], Roots(ids[1..], es);
      if Calls(es, c) {
        assert Roots(ids, es) == rest;
        Distribute(Share(es, totals, c) - 1.0, 1.0, out[c]);
      } else {
        UncalledShare(es, totals, c);
        assert Roots(ids, es) == [c] + rest && ([c] + rest)[1..] == rest;
      }
    }
  }

  /** THE BALANCE. On every profile the outputs of the functions without callers differ from the sum of all self
      times by exactly the excess. */
  lemma TimeBalance(p: Profile, totals: map<Id, real>, out: map<Id, real>)
    requires Balanced(p, totals, out)
    ensures var es := AllCalls(p, p.ids);
            && Known(es, totals) && (forall i :: 0 <= i < |Roots(p.ids, es)| ==> Roots(p.ids, es)[i] in out)
            && Total(Roots(p.ids, es), out) == Total(p.ids, p.selfTime) + Excess(p.ids, es, totals, out)
  {
    var es := AllCalls(p, p.ids);
    AllCallsDefined(p, p.ids);
    SumOfOutputs(p, totals, out, p.ids);
    assert forall i :: 0 <= i < |es| ==> es[i] in es;
    HandedUpByCallee(p.ids, es, totals, out);
    SharesByRoots(p.ids, es, totals, out);
  }

  lemma {:induction false} NoExcess(ids: seq<Id>, es: seq<Call>, totals: map<Id, real>, out: map<Id, real>)
    requires Known(es, totals) && forall i :: 0 <= i < |ids| ==> ids[i] in out
    requires forall c :: c in ids && Calls(es, c) ==> Share(es, totals, c) == 1.0
    ensures Excess(ids, es, totals, out) == 0.0
  {
    if ids != [] {
      NoExcess(ids[1..], es, totals, out);
    }
  }

  /** CONSERVATION. When every called function has a positive incoming total, or a single call with the event, the
      functions without callers account for all of the self time. */
  lemma TimeConserved(p: Profile, totals: map<Id, real>, out: map<Id, real>)
    requires Balanced(p, totals, out)
    requires var es := AllCalls(p, p.ids);
             && NonNegative(es) && (forall c :: c in p.calls ==> totals[c] == Incoming(es, c))
             && (forall c :: c in p.calls && Calls(es, c) ==> totals[c] > 0.0 || Valued(es, c) == 1)
    ensures var roots := Roots(p.ids, AllCalls(p, p.ids));
            && (forall i :: 0 <= i < |roots| ==> roots[i] in out)
            && Total(roots, out) == Total(p.ids, p.selfTime)
  {
    hide Share, Incoming, Valued, Excess, Total, AllCalls, Roots, OutputOf;
    var es := AllCalls(p, p.ids);
    TimeBalance(p, totals, out);
    forall c | c in p.ids && Calls(es, c)
      ensures Share(es, totals, c) == 1.0
    {
      SharesSumToOne(es, totals, c);
    }
    NoExcess(p.ids, es, totals, out);
  }

  // ----- the algorithm

  function GraphOf(p: Profile): Graph {
    map f | f in p.calls :: Callees(p.calls[f])
  }

  function Callees(cs: seq<Call>): (r: seq<Id>)
    ensures |r| == |cs| && forall i :: 0 <= i < |cs| ==> r[i] == cs[i].callee
  {
    seq(|cs|, i requires 0 <= i < |cs| => cs[i].callee)
  }

  /** No two functions call each other, directly or through others: `find_cycles` leaves every cycle empty. */
  ghost predicate Acyclic(g: Graph) {
    forall u, v :: u != v ==> !Mutual(g, u, v)
  }

  lemma {:induction false} IncomingSnoc(es: seq<Call>, e: Call, c: Id)
    ensures Incoming(es + [e], c) == Incoming(es, c) + if e.callee == c && e.value.Some? then e.value.value else 0.0
  {
    if es == [] {
      assert ([] + [e])[1..] == [];
    } else {
      assert (es + [e])[1..] == es[1..] + [e];
      IncomingSnoc(es[1..], e, c);
    }
  }

  lemma {:induction false} OthersSnoc(f: Id, cs: seq<Call>, e: Call)
    ensures Others(f, cs + [e]) == Others(f, cs) + if e.callee == f then [] else [e]
  {
    hide Others;
    OthersCons(f, cs);
    OthersCons(f, cs + [e]);
    if cs == [] {
      assert ([] + [e])[1..] == [];
    } else {
      assert (cs + [e])[1..] == cs[1..] + [e] && (cs + [e])[0] == cs[0];
      OthersSnoc(f, cs[1..], e);
      Reassociate(if cs[0].callee == f then [] else [cs[0]], Others(f, cs[1..]), if e.callee == f then [] else [e]);
    }
  }

  lemma Reassociate(a: seq<Call>, b: seq<Call>, c: seq<Call>)
    ensures a + (b + c) == (a + b) + c
  {
  }

  lemma OthersCons(f: Id, cs: seq<Call>)
    ensures Others(f, cs) == if cs == [] then [] else (if cs[0].callee == f then [] else [cs[0]]) + Others(f, cs[1..])
  {
  }

  lemma {:induction false} AllCallsSnoc(p: Profile, ids: seq<Id>, x: Id)
    requires (forall i :: 0 <= i < |ids| ==> ids[i] in p.calls) && x in p.calls
    ensures AllCalls(p, ids + [x]) == AllCalls(p, ids) + Others(x, p.calls[x])
  {
    if ids == [] {
      assert ([] + [x])[1..] == [];
    } else {
      assert (ids + [x])[1..] == ids[1..] + [x];
      AllCallsSnoc(p, ids[1..], x);
    }
  }

  /** Every function's total is the event summed over the calls in `es`. */
  ghost predicate TotalsOf(p: Profile, totals: map<Id, real>, es: seq<Call>) {
    totals.Keys == p.calls.Keys && forall c :: c in totals ==> totals[c] == Incoming(es, c)
  }

  class Integrator {
    const p: Profile
    var totals: map<Id, real>
    var ratios: map<Id, seq<Option<real>>>
    var out: map<Id, real>

    /** What each call handed up, for the calls of a function integrated so far; nothing for self calls. */
    var callOut: map<Id, seq<Option<real>>>

    /** The output of the profile itself. */
    var whole: real

    constructor (p: Profile)
      ensures this.p == p && out == map[] && callOut == map[] && totals == map[] && ratios == map[]
    {
      this.p := p;
      totals, ratios, out, callOut, whole := map[], map[], map[], map[], 0.0;
    }

    /** Pass 1 of `call_ratios`: the total of the event over all incoming calls, self calls excepted. */
    method SumIncoming()
      requires WellFormed(p)
      modifies this`totals
      ensures TotalsOf(p, totals, AllCalls(p, p.ids))
    {
      hide TotalsOf, Others;
      totals := map c | c in p.calls :: 0.0;
      assert p.ids[..0] == [];
      NoTotals(p, totals);
      for i := 0 to |p.ids|
        invariant TotalsOf(p, totals, AllCalls(p, p.ids[..i]))
      {
        var f := p.ids[i];
        SumCalls(f, AllCalls(p, p.ids[..i]));
        AllCallsSnoc(p, p.ids[..i], f);
        assert p.ids[..i + 1] == p.ids[..i] + [f];
      }
      assert p.ids[..|p.ids|] == p.ids;
    }

    method SumCalls(f: Id, ghost done: seq<Call>)
      requires WellFormed(p) && f in p.calls && TotalsOf(p, totals, done)
      modifies this`totals
      ensures TotalsOf(p, totals, done + Others(f, p.calls[f]))
    {
      hide TotalsOf, Others;
      var cs := p.calls[f];
      NoOthers(f);
      assert cs[..0] == [] && done + [] == done;
      for k := 0 to |cs|
        invariant TotalsOf(p, totals, done + Others(f, cs[..k]))
      {
        var call := cs[k];
        OthersSnoc(f, cs[..k], call);
        assert cs[..k + 1] == cs[..k] + [call];
        ghost var es := done + Others(f, cs[..k]);
        TotalsKeys(p, totals, es);
        if call.callee != f {
          AddCall(p, totals, es, call);
          assert es + [call] == done + (Others(f, cs[..k]) + [call]);
          if call.value.Some? {
            totals := totals[call.callee := totals[call.callee] + call.value.value];
          }
        } else {
          assert Others(f, cs[..k]) + [] == Others(f, cs[..k]);
        }
      }
      assert cs[..|cs|] == cs;
    }

    /** Pass 2: the ratio of every call to another function. Calls of a function by itself keep no ratio. */
    method SetRatios()
      requires WellFormed(p) && totals.Keys == p.calls.Keys
      modifies this`ratios
      ensures RatiosSet()
    {
      ratios := map[];
      for i := 0 to |p.ids|
        invariant forall j :: 0 <= j < i ==> p.ids[j] in ratios && RatiosOf(p.ids[j])
      {
        var f := p.ids[i];
        var rs: seq<Option<real>> := [];
        for k := 0 to |p.calls[f]|
          invariant |rs| == k
          invariant forall j :: 0 <= j < k ==>
            rs[j] == if p.calls[f][j].callee == f then None else Some(CallRatio(p.calls[f][j], totals))
        {
          var call := p.calls[f][k];
          rs := rs + [if call.callee == f then None else Some(CallRatio(call, totals))];
        }
        ratios := ratios[f := rs];
      }
    }

    ghost predicate RatiosOf(f: Id)
      reads this`totals, this`ratios
      requires WellFormed(p) && totals.Keys == p.calls.Keys && f in ratios && f in p.calls
    {
      && |ratios[f]| == |p.calls[f]|
      && forall k :: 0 <= k < |p.calls[f]| ==>
           ratios[f][k] == if p.calls[f][k].callee == f then None else Some(CallRatio(p.calls[f][k], totals))
    }

    ghost predicate RatiosSet()
      reads this`totals, this`ratios
    {
      WellFormed(p) && totals.Keys == p.calls.Keys && forall f :: f in p.calls ==> f in ratios && RatiosOf(f)
    }

    method CallRatios()
      requires WellFormed(p)
      modifies this`totals, this`ratios
      ensures TotalsOf(p, totals, AllCalls(p, p.ids)) && RatiosSet()
    {
      SumIncoming();
      SetRatios();
    }

    // ----- integration

    ghost predicate Integrated(path: set<Id>)
      reads this
    {
      RatiosSet() && Sound(p, totals, out, callOut, path)
    }

    /** `_integrate_function`, for a function that is in no cycle; `path` are the functions being integrated. */
    method IntegrateFunction(f: Id, ghost path: set<Id>) returns (r: real)
      requires Integrated(path) && Acyclic(GraphOf(p)) && f in p.calls && f !in path
      requires forall x :: x in path ==> Reach(GraphOf(p), x, f)
      modifies this`out, this`callOut
      ensures Integrated(path) && f in out && r == out[f]
      ensures Grows(old(out), out) && Untouched(old(callOut), callOut, path)
      decreases p.calls.Keys - path, 1
    {
      hide Reach, HandsUp, Sound, Acyclic, Partly, RatiosSet, WellFormed;
      SoundKeys(p, totals, out, callOut, path);
      if f in out {
        return out[f];
      }
      callOut := callOut[f := []];
      Start(p, totals, out, old(callOut), path, f);
      r := IntegrateCalls(f, path);
      SoundKeys(p, totals, out, callOut, path + {f});
      Finish(p, totals, out, callOut, path, f, r);
      out := out[f := r];
    }

    /** The loop over the calls of `f`: its self time and what the calls hand up. */
    method IntegrateCalls(f: Id, ghost path: set<Id>) returns (r: real)
      requires Integrated(path + {f}) && Acyclic(GraphOf(p)) && f in p.calls && f !in path
      requires forall x :: x in path ==> Reach(GraphOf(p), x, f)
      requires f in p.selfTime && f in callOut && callOut[f] == [] && HandsUp(p, totals, out, f, [], 0)
      requires Partly(p, totals, out, f, 0, p.selfTime[f])
      modifies this`out, this`callOut
      ensures Integrated(path + {f}) && f in callOut
      ensures Grows(old(out), out) && Untouched(old(callOut), callOut, path)
      ensures HandsUp(p, totals, out, f, callOut[f], |p.calls[f]|) && Partly(p, totals, out, f, |p.calls[f]|, r)
      decreases p.calls.Keys - path, 0, 1
    {
      hide Reach, HandsUp, Sound, Acyclic, Partly, RatiosSet, Part;
      r := p.selfTime[f];
      for k := 0 to |p.calls[f]|
        invariant Integrated(path + {f}) && f in callOut && |callOut[f]| == k
        invariant Grows(old(out), out) && Untouched(old(callOut), callOut, path)
        invariant HandsUp(p, totals, out, f, callOut[f], k) && Partly(p, totals, out, f, k, r)
      {
        ghost var out0, vs := out, callOut[f];
        if p.calls[f][k].callee != f {
          var sub := IntegrateCall(f, k, path);
          HandOne(p, totals, out0, out, f, k, r, vs);
          r := r + sub;
        } else {
          OwnCall(p, totals, out, callOut, path + {f}, f, k, r);
          callOut := callOut[f := callOut[f] + [None]];
        }
      }
    }

    /** `_integrate_call`: the call has no value yet, and gets its ratio of the callee's output. */
    method IntegrateCall(f: Id, k: nat, ghost path: set<Id>) returns (sub: real)
      requires Integrated(path + {f}) && Acyclic(GraphOf(p)) && f in p.calls && f !in path && k < |p.calls[f]|
      requires f in callOut && |callOut[f]| == k && p.calls[f][k].callee != f
      requires forall x :: x in path ==> Reach(GraphOf(p), x, f)
      modifies this`out, this`callOut
      ensures Integrated(path + {f}) && f in callOut && Grows(old(out), out) && Untouched(old(callOut), callOut, path)
      ensures var e := p.calls[f][k];
              && e.callee in totals && e.callee in out && sub == Part(e, totals, out)
              && callOut[f] == old(callOut[f]) + [Some(sub)]
      decreases p.calls.Keys - path, 0, 0
    {
      hide Reach, HandsUp, Sound, Acyclic, RatiosSet, CallRatio;
      var e := p.calls[f][k];
      Downward(p, path, f, k);
      RatioSet(f, k);
      var output := IntegrateFunction(e.callee, path + {f});
      sub := ratios[f][k].value * output;
      OwnValue(p, totals, out, callOut, path + {f}, f, callOut[f] + [Some(sub)]);
      callOut := callOut[f := callOut[f] + [Some(sub)]];
    }

    lemma RatiosSetForm()
      requires RatiosSet()
      ensures WellFormed(p) && totals.Keys == p.calls.Keys
    {
    }

    lemma RatioSet(f: Id, k: nat)
      requires RatiosSet() && f in p.calls && k < |p.calls[f]| && p.calls[f][k].callee != f
      ensures p.calls[f][k].callee in p.calls && totals.Keys == p.calls.Keys
      ensures f in ratios && |ratios[f]| == |p.calls[f]| && ratios[f][k] == Some(CallRatio(p.calls[f][k], totals))
    {
      assert RatiosOf(f);
    }

    /** `integrate` on a profile without cycles: afterwards every output is balanced, and every call of another
        function has been given its part of the callee's output, once. */
    method Integrate()
      requires RatiosSet() && Acyclic(GraphOf(p)) && out == map[] && callOut == map[]
      modifies this`out, this`callOut, this`whole
      ensures Balanced(p, totals, out) && whole == Total(p.ids, p.selfTime)
      ensures callOut.Keys == p.calls.Keys
      ensures forall f :: f in p.calls ==> HandsUp(p, totals, out, f, callOut[f], |p.calls[f]|)
    {
      hide Acyclic, RatiosSet, HandsUp, Sound, Reach, Total, WellFormed, Balanced;
      RatiosSetForm();
      Defined(p);
      NothingDone(p, totals);
      var total := 0.0;
      NoTime(p.selfTime);
      assert p.ids[..0] == [];
      for i := 0 to |p.ids|
        invariant Integrated({}) && forall j :: 0 <= j < i ==> p.ids[j] in out
        invariant forall j :: 0 <= j < |p.ids| ==> p.ids[j] in p.calls && p.ids[j] in p.selfTime
        invariant total == Total(p.ids[..i], p.selfTime)
      {
        total := total + p.selfTime[p.ids[i]];
        TotalSnoc(p.ids[..i], p.ids[i], p.selfTime);
        assert p.ids[..i + 1] == p.ids[..i] + [p.ids[i]];
        var output := IntegrateFunction(p.ids[i], {});
      }
      assert p.ids[..|p.ids|] == p.ids;
      whole := total;
      AllDone(p, totals, out, callOut);
    }
  }

  /** Call ratios and integration together, on a profile without cycles: the functions nobody else calls account
      for the whole, up to what the ratios of the called functions miss or exceed 1; when the event has a positive
      total for every called function, or just one call with it, they account for exactly the whole. */
  method PropagateTime(p: Profile) returns (out: map<Id, real>, whole: real, totals: map<Id, real>)
    requires WellFormed(p) && Acyclic(GraphOf(p))
    ensures Balanced(p, totals, out) && whole == Total(p.ids, p.selfTime) && TotalsOf(p, totals, AllCalls(p, p.ids))
    ensures var es := AllCalls(p, p.ids);
            var roots := Roots(p.ids, es);
            && Known(es, totals) && (forall i :: 0 <= i < |roots| ==> roots[i] in out)
            && Total(roots, out) == whole + Excess(p.ids, es, totals, out)
            && (NonNegative(es) && (forall c :: c in p.calls && Calls(es, c) ==> totals[c] > 0.0 || Valued(es, c) == 1)
                ==> Total(roots, out) == whole)
  {
    hide Acyclic, Balanced, Total, Excess, Incoming, Valued, AllCalls, Roots;
    var profile := new Integrator(p);
    profile.CallRatios();
    profile.Integrate();
    out, whole, totals := profile.out, profile.whole, profile.totals;
    TimeBalance(p, totals, out);
    ghost var es := AllCalls(p, p.ids);
    if NonNegative(es) && forall c :: c in p.calls && Calls(es, c) ==> totals[c] > 0.0 || Valued(es, c) == 1 {
      TimeConserved(p, totals, out);
    }
  }

  lemma Defined(p: Profile)
    requires WellFormed(p)
    ensures forall j :: 0 <= j < |p.ids| ==> p.ids[j] in p.calls && p.ids[j] in p.selfTime
  {
  }

  lemma NothingDone(p: Profile, totals: map<Id, real>)
    requires WellFormed(p)
    ensures Sound(p, totals, map[], map[], {})
  {
  }

  lemma AllDone(p: Profile, totals: map<Id, real>, out: map<Id, real>, callOut: map<Id, seq<Option<real>>>)
    requires WellFormed(p) && totals.Keys == p.calls.Keys && Sound(p, totals, out, callOut, {})
    requires forall j :: 0 <= j < |p.ids| ==> p.ids[j] in out
    ensures Balanced(p, totals, out) && callOut.Keys == p.calls.Keys
    ensures forall f :: f in p.calls ==> HandsUp(p, totals, out, f, callOut[f], |p.calls[f]|)
  {
    hide HandsUp, OutputOf;
    assert forall x :: x in p.calls ==> x in p.ids;
  }

  lemma NoTime(f: map<Id, real>)
    ensures Total([], f) == 0.0
  {
  }

  lemma {:induction false} TotalSnoc(ids: seq<Id>, x: Id, f: map<Id, real>)
    requires (forall i :: 0 <= i < |ids| ==> ids[i] in f) && x in f
    ensures Total(ids + [x], f) == Total(ids, f) + f[x]
  {
    if ids == [] {
      assert ([] + [x])[1..] == [];
    } else {
      assert (ids + [x])[1..] == ids[1..] + [x];
      TotalSnoc(ids[1..], x, f);
    }
  }

  // ----- what integration keeps

  /** The first `k` calls of `x` have handed up their ratio of the callee's output; self calls nothing. */
  ghost predicate HandsUp(p: Profile, totals: map<Id, real>, out: map<Id, real>, x: Id, vs: seq<Option<real>>, k: nat) {
    && x in p.calls && k <= |p.calls[x]| && |vs| == k
    && forall j :: 0 <= j < k ==>
         var e := p.calls[x][j];
         if e.callee == x then vs[j] == None
         else e.callee in totals && e.callee in out && vs[j] == Some(Part(e, totals, out))
  }

  /** The functions integrated so far are balanced, and only they and the ones in `path` have handed-up values. */
  ghost predicate Sound(p: Profile, totals: map<Id, real>, out: map<Id, real>, callOut: map<Id, seq<Option<real>>>,
                        path: set<Id>) {
    && p.selfTime.Keys == p.calls.Keys && out.Keys <= p.calls.Keys && path <= p.calls.Keys && path !! out.Keys
    && (forall x :: x in out ==> OutputOf(p, totals, out, x))
    && (forall x :: x in out ==> x in callOut && HandsUp(p, totals, out, x, callOut[x], |p.calls[x]|))
    && (forall x :: x in callOut ==> x in out || x in path)
  }

  ghost predicate Grows(out: map<Id, real>, out': map<Id, real>) {
    forall x :: x in out ==> x in out' && out'[x] == out[x]
  }

  ghost predicate Untouched(callOut: map<Id, seq<Option<real>>>, callOut': map<Id, seq<Option<real>>>, path: set<Id>) {
    forall x :: x in path ==> (x in callOut <==> x in callOut') && (x in callOut ==> callOut'[x] == callOut[x])
  }

  /** `r` is the self time of `f` and what its first `k` calls hand up. */
  ghost predicate Partly(p: Profile, totals: map<Id, real>, out: map<Id, real>, f: Id, k: nat, r: real) {
    f in p.calls && f in p.selfTime && k <= |p.calls[f]| &&
    var es := Others(f, p.calls[f][..k]);
    Known(es, totals) && (forall i :: 0 <= i < |es| ==> es[i].callee in out) &&
    r == p.selfTime[f] + HandedUp(es, totals, out)
  }

  lemma {:induction false} HandedUpGrows(es: seq<Call>, totals: map<Id, real>, out: map<Id, real>, out': map<Id, real>)
    requires Known(es, totals) && (forall i :: 0 <= i < |es| ==> es[i].callee in out) && Grows(out, out')
    ensures HandedUp(es, totals, out) == HandedUp(es, totals, out')
  {
    if es != [] {
      PartGrows(es[0], totals, out, out');
      hide Part;
      HandedUpGrows(es[1..], totals, out, out');
    }
  }

  lemma PartGrows(e: Call, totals: map<Id, real>, out: map<Id, real>, out': map<Id, real>)
    requires e.callee in totals && e.callee in out && Grows(out, out')
    ensures Part(e, totals, out) == Part(e, totals, out')
  {
    hide CallRatio;
  }

  lemma HandsUpGrows(p: Profile, totals: map<Id, real>, out: map<Id, real>, out': map<Id, real>, x: Id,
                     vs: seq<Option<real>>, k: nat)
    requires HandsUp(p, totals, out, x, vs, k) && Grows(out, out')
    ensures HandsUp(p, totals, out', x, vs, k)
  {
    forall j | 0 <= j < k && p.calls[x][j].callee != x
      ensures Part(p.calls[x][j], totals, out) == Part(p.calls[x][j], totals, out')
    {
      PartGrows(p.calls[x][j], totals, out, out');
    }
    hide Part;
  }

  lemma OutputGrows(p: Profile, totals: map<Id, real>, out: map<Id, real>, out': map<Id, real>, x: Id)
    requires x in p.calls && x in p.selfTime && OutputOf(p, totals, out, x) && Grows(out, out')
    ensures OutputOf(p, totals, out', x)
  {
    hide Others, HandedUp;
    HandedUpGrows(Others(x, p.calls[x]), totals, out, out');
  }

  lemma PartlyGrows(p: Profile, totals: map<Id, real>, out: map<Id, real>, out': map<Id, real>, f: Id, k: nat, r: real)
    requires Partly(p, totals, out, f, k, r) && Grows(out, out')
    ensures Partly(p, totals, out', f, k, r)
  {
    hide Others, HandedUp;
    HandedUpGrows(Others(f, p.calls[f][..k]), totals, out, out');
  }

  lemma SoundKeys(p: Profile, totals: map<Id, real>, out: map<Id, real>, callOut: map<Id, seq<Option<real>>>,
                  path: set<Id>)
    requires Sound(p, totals, out, callOut, path)
    ensures out.Keys <= p.calls.Keys && path <= p.calls.Keys && path !! out.Keys && p.selfTime.Keys == p.calls.Keys
    ensures callOut.Keys <= out.Keys + path
  {
  }

  lemma Start(p: Profile, totals: map<Id, real>, out: map<Id, real>, callOut: map<Id, seq<Option<real>>>,
              path: set<Id>, f: Id)
    requires Sound(p, totals, out, callOut, path) && f in p.calls && f !in out
    ensures Sound(p, totals, out, callOut[f := []], path + {f})
    ensures HandsUp(p, totals, out, f, [], 0) && Partly(p, totals, out, f, 0, p.selfTime[f])
  {
    hide HandedUp;
    assert p.calls[f][..0] == [];
    hide OutputOf;
    assert HandedUp([], totals, out) == 0.0 by { NothingHandedUp(totals, out); }
  }

  lemma NothingHandedUp(totals: map<Id, real>, out: map<Id, real>)
    ensures HandedUp([], totals, out) == 0.0
  {
  }

  /** The value of one call of a function in `path` may change. */
  lemma OwnValue(p: Profile, totals: map<Id, real>, out: map<Id, real>, callOut: map<Id, seq<Option<real>>>,
                 path: set<Id>, f: Id, vs: seq<Option<real>>)
    requires Sound(p, totals, out, callOut, path) && f in path
    ensures Sound(p, totals, out, callOut[f := vs], path)
  {
    hide OutputOf, HandsUp;
  }

  lemma OwnCall(p: Profile, totals: map<Id, real>, out: map<Id, real>, callOut: map<Id, seq<Option<real>>>,
                path: set<Id>, f: Id, k: nat, r: real)
    requires Sound(p, totals, out, callOut, path) && f in path && f in callOut
    requires HandsUp(p, totals, out, f, callOut[f], k) && Partly(p, totals, out, f, k, r)
    requires k < |p.calls[f]| && p.calls[f][k].callee == f
    ensures Sound(p, totals, out, callOut[f := callOut[f] + [None]], path)
    ensures HandsUp(p, totals, out, f, callOut[f] + [None], k + 1) && Partly(p, totals, out, f, k + 1, r)
  {
    hide HandsUp, Partly, Sound;
    OwnValue(p, totals, out, callOut, path, f, callOut[f] + [None]);
    HandsUpOwn(p, totals, out, f, callOut[f], k);
    PartlyOwn(p, totals, out, f, k, r);
  }

  lemma HandsUpOwn(p: Profile, totals: map<Id, real>, out: map<Id, real>, f: Id, vs: seq<Option<real>>, k: nat)
    requires HandsUp(p, totals, out, f, vs, k) && k < |p.calls[f]| && p.calls[f][k].callee == f
    ensures HandsUp(p, totals, out, f, vs + [None], k + 1)
  {
    hide Part;
  }

  lemma PartlyOwn(p: Profile, totals: map<Id, real>, out: map<Id, real>, f: Id, k: nat, r: real)
    requires Partly(p, totals, out, f, k, r) && k < |p.calls[f]| && p.calls[f][k].callee == f
    ensures Partly(p, totals, out, f, k + 1, r)
  {
    hide Others, HandedUp;
    var cs := p.calls[f];
    assert cs[..k + 1] == cs[..k] + [cs[k]];
    OthersSnoc(f, cs[..k], cs[k]);
    assert Others(f, cs[..k]) + [] == Others(f, cs[..k]);
  }

  lemma HandOne(p: Profile, totals: map<Id, real>, out: map<Id, real>, out': map<Id, real>, f: Id, k: nat, r: real,
                vs: seq<Option<real>>)
    requires HandsUp(p, totals, out, f, vs, k) && Partly(p, totals, out, f, k, r) && Grows(out, out')
    requires k < |p.calls[f]| && p.calls[f][k].callee != f
    requires p.calls[f][k].callee in totals && p.calls[f][k].callee in out'
    ensures var e := p.calls[f][k];
            var sub := Part(e, totals, out');
            HandsUp(p, totals, out', f, vs + [Some(sub)], k + 1) && Partly(p, totals, out', f, k + 1, r + sub)
  {
    HandsUpGrows(p, totals, out, out', f, vs, k);
    PartlyGrows(p, totals, out, out', f, k, r);
    PartlyOne(p, totals, out', f, k, r);
    hide Partly, Part;
  }

  lemma PartlyOne(p: Profile, totals: map<Id, real>, out: map<Id, real>, f: Id, k: nat, r: real)
    requires Partly(p, totals, out, f, k, r)
    requires k < |p.calls[f]| && p.calls[f][k].callee != f
    requires p.calls[f][k].callee in totals && p.calls[f][k].callee in out
    ensures Partly(p, totals, out, f, k + 1, r + Part(p.calls[f][k], totals, out))
  {
    hide Others, HandedUp, Part;
    var cs := p.calls[f];
    var e, es := cs[k], Others(f, cs[..k]);
    assert cs[..k + 1] == cs[..k] + [e];
    OthersSnoc(f, cs[..k], e);
    HandedUpConcat(es, [e], totals, out);
    HandedUpOne(e, totals, out);
  }

  lemma HandedUpOne(e: Call, totals: map<Id, real>, out: map<Id, real>)
    requires e.callee in totals && e.callee in out
    ensures HandedUp([e], totals, out) == Part(e, totals, out)
  {
    hide Part;
    assert [e][1..] == [];
  }

  lemma Finish(p: Profile, totals: map<Id, real>, out: map<Id, real>, callOut: map<Id, seq<Option<real>>>,
               path: set<Id>, f: Id, r: real)
    requires Sound(p, totals, out, callOut, path + {f}) && f !in path && f in p.calls && f in callOut
    requires HandsUp(p, totals, out, f, callOut[f], |p.calls[f]|) && Partly(p, totals, out, f, |p.calls[f]|, r)
    ensures Sound(p, totals, out[f := r], callOut, path)
  {
    hide HandsUp, OutputOf, Partly;
    var out' := out[f := r];
    assert f !in out;
    assert Grows(out, out');
    LastOutput(p, totals, out, f, r);
    HandsUpGrows(p, totals, out, out', f, callOut[f], |p.calls[f]|);
    forall x | x in out
      ensures OutputOf(p, totals, out', x) && HandsUp(p, totals, out', x, callOut[x], |p.calls[x]|)
    {
      OutputGrows(p, totals, out, out', x);
      HandsUpGrows(p, totals, out, out', x, callOut[x], |p.calls[x]|);
    }
  }

  lemma LastOutput(p: Profile, totals: map<Id, real>, out: map<Id, real>, f: Id, r: real)
    requires f in p.calls && f !in out && Partly(p, totals, out, f, |p.calls[f]|, r)
    ensures OutputOf(p, totals, out[f := r], f)
  {
    hide Others, HandedUp;
    assert p.calls[f][..|p.calls[f]|] == p.calls[f];
    PartlyGrows(p, totals, out, out[f := r], f, |p.calls[f]|, r);
  }

  /** A call leads to a function that is not being integrated already: it would be mutual with the caller. */
  lemma Downward(p: Profile, path: set<Id>, f: Id, k: nat)
    requires Acyclic(GraphOf(p)) && f in p.calls && k < |p.calls[f]| && p.calls[f][k].callee != f
    requires forall x :: x in path ==> Reach(GraphOf(p), x, f)
    ensures p.calls[f][k].callee !in path
    ensures forall x :: x in path + {f} ==> Reach(GraphOf(p), x, p.calls[f][k].callee)
  {
    hide Reach;
    var g, c := GraphOf(p), p.calls[f][k].callee;
    assert g[f][k] == c;
    ReachEdge(g, f, c);
    ReachSelf(g, f);
    forall x | x in path + {f}
      ensures Reach(g, x, c)
    {
      if x in path {
        ReachTrans(g, x, f, c);
      }
    }
    assert c in path ==> Mutual(g, f, c);
  }

  lemma NoTotals(p: Profile, totals: map<Id, real>)
    requires totals.Keys == p.calls.Keys && forall c :: c in totals ==> totals[c] == 0.0
    ensures TotalsOf(p, totals, [])
  {
  }

  lemma NoOthers(f: Id)
    ensures Others(f, []) == []
  {
  }

  lemma TotalsKeys(p: Profile, totals: map<Id, real>, es: seq<Call>)
    requires TotalsOf(p, totals, es)
    ensures totals.Keys == p.calls.Keys
  {
  }

  lemma AddCall(p: Profile, totals: map<Id, real>, es: seq<Call>, e: Call)
    requires TotalsOf(p, totals, es) && e.callee in totals
    ensures var more := if e.value.Some? then totals[e.callee := totals[e.callee] + e.value.value] else totals;
            TotalsOf(p, more, es + [e])
  {
    forall c | c in totals
      ensures Incoming(es + [e], c) == Incoming(es, c) + if e.callee == c && e.value.Some? then e.value.value else 0.0
    {
      IncomingSnoc(es, e, c);
    }
  }
}
