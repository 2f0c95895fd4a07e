/** On-line bottle graphs: the time of the region of interest is shared out among the threads that run. Times are whole
    numbers of femtoseconds; floating-point numbers are reals here. */
module BottleGraph {

  datatype Id = Id(number: int)

  /** A stretch of time in the region of interest, and the threads that ran in it. */
  datatype Piece = Piece(length: real, threads: set<Id>)

  // ----- what the pieces of a run add up to

  function Total(h: seq<Piece>): real {
    if h == [] then 0.0 else Total(h[..|h| - 1]) + h[|h| - 1].length
  }

  /** The time in which some thread ran. */
  function Busy(h: seq<Piece>): real {
    if h == [] then 0.0 else Busy(h[..|h| - 1]) + if h[|h| - 1].threads == {} then 0.0 else h[|h| - 1].length
  }

  /** The time in which `t` ran. */
  function RunTime(h: seq<Piece>, t: Id): real {
    if h == [] then 0.0 else RunTime(h[..|h| - 1], t) + if t in h[|h| - 1].threads then h[|h| - 1].length else 0.0
  }

  /** The part of a piece that each of its threads is credited with. */
  function Part(p: Piece): real {
    if p.threads == {} then 0.0 else p.length / |p.threads| as real
  }

  /** The parts that `t` is credited with. */
  function Contribution(h: seq<Piece>, t: Id): real {
    if h == [] then 0.0 else Contribution(h[..|h| - 1], t) + if t in h[|h| - 1].threads then Part(h[|h| - 1]) else 0.0
  }

  ghost function Contributions(h: seq<Piece>, ids: set<Id>): real {
    if ids == {} then 0.0 else var t :| t in ids; Contribution(h, t) + Contributions(h, ids - {t})
  }

  /** The threads of all pieces. */
  function Seen(h: seq<Piece>): set<Id> {
    if h == [] then {} else Seen(h[..|h| - 1]) + h[|h| - 1].threads
  }

  ghost predicate Positive(h: seq<Piece>) {
    forall i :: 0 <= i < |h| ==> h[i].length > 0.0
  }

  // ----- contributions sum to the busy time

  lemma {:induction false} ContributionsAdd(h: seq<Piece>, ids: set<Id>, t: Id)
    requires t in ids
    ensures Contributions(h, ids) == Contribution(h, t) + Contributions(h, ids - {t})
  {
    var u :| u in ids && Contributions(h, ids) == Contribution(h, u) + Contributions(h, ids - {u});
    if u != t {
      ContributionsAdd(h, ids - {u}, t);
      ContributionsAdd(h, ids - {t}, u);
      assert ids - {u} - {t} == ids - {t} - {u};
    }
  }

  /** One more piece adds its part once for each of its threads. */
  lemma {:induction false} ContributionsSnoc(h: seq<Piece>, p: Piece, ids: set<Id>)
    ensures Contributions(h + [p], ids) == Contributions(h, ids) + Times(|ids * p.threads|, Part(p))
  {
    hide Part, Times;
    if ids == {} {
      assert ids * p.threads == {};
      TimesStep(0, Part(p));
    } else {
      var t :| t in ids;
      ContributionsAdd(h, ids, t);
      ContributionsAdd(h + [p], ids, t);
      ContributionsSnoc(h, p, ids - {t});
      ContributionSnoc(h, p, t);
      CountStep(ids, p.threads, t);
      TimesStep(|(ids - {t}) * p.threads|, Part(p));
    }
  }

  lemma ContributionSnoc(h: seq<Piece>, p: Piece, t: Id)
    ensures Contribution(h + [p], t) == Contribution(h, t) + if t in p.threads then Part(p) else 0.0
    ensures RunTime(h + [p], t) == RunTime(h, t) + if t in p.threads then p.length else 0.0
  {
    assert (h + [p])[..|h|] == h;
  }

  lemma CountStep(a: set<Id>, b: set<Id>, t: Id)
    requires t in a
    ensures |a * b| == |(a - {t}) * b| + if t in b then 1 else 0
  {
    if t in b {
      assert a * b == (a - {t}) * b + {t};
    } else {
      assert a * b == (a - {t}) * b;
    }
  }

  function Times(n: nat, x: real): real {
    n as real * x
  }

  lemma TimesStep(n: nat, x: real)
    ensures Times(n + 1, x) == Times(n, x) + x && Times(0, x) == 0.0
  {
    assert (n + 1) as real == n as real + 1.0;
  }

  lemma TimesPlus(n: nat, x: real, y: real)
    ensures Times(n, x + y) == Times(n, x) + Times(n, y) && Times(n, 0.0) == 0.0
  {
  }

  /** CONSERVATION. The contributions of all threads sum to the time in which some thread ran. */
  lemma {:induction false} ContributionsAreBusy(h: seq<Piece>, ids: set<Id>)
    requires Seen(h) <= ids
    ensures Contributions(h, ids) == Busy(h)
  {
    if h == [] {
      NoContributions(ids);
    } else {
      var k := |h| - 1;
      var p := h[k];
      assert h == h[..k] + [p];
      ContributionsAreBusy(h[..k], ids);
      ContributionsSnoc(h[..k], p, ids);
      assert ids * p.threads == p.threads;
      PartsMakeWhole(p);
    }
  }

  lemma {:induction false} NoContributions(ids: set<Id>)
    ensures Contributions([], ids) == 0.0
  {
    if ids != {} {
      var t :| t in ids;
      ContributionsAdd([], ids, t);
      NoContributions(ids - {t});
    }
  }

  lemma PartsMakeWhole(p: Piece)
    ensures Times(|p.threads|, Part(p)) == if p.threads == {} then 0.0 else p.length
  {
  }

  // ----- bounds

  lemma PartBounds(p: Piece, n: nat)
    requires p.length > 0.0 && p.threads != {} && |p.threads| <= n
    ensures 0.0 < Part(p) <= p.length <= Times(n, Part(p))
  {
    var c := |p.threads| as real;
    var q := p.length / c;
    assert q * c == p.length;
    Quotient(q, c);
    Product(c - 1.0, q);
    Product(n as real - c, q);
  }

  lemma Quotient(q: real, c: real)
    requires q * c > 0.0 && c > 0.0
    ensures q > 0.0
  {
  }

  lemma Product(a: real, b: real)
    requires a >= 0.0 && b >= 0.0
    ensures a * b >= 0.0
  {
  }

  /** Each thread that ran is credited with something, with at most the time it ran, which is at most the whole time
      and at most the number of threads times its credit. */
  lemma {:induction false} ThreadBounds(h: seq<Piece>, t: Id, n: nat)
    requires Positive(h) && forall i :: 0 <= i < |h| ==> |h[i].threads| <= n
    ensures 0.0 <= Contribution(h, t) <= RunTime(h, t) <= Total(h) && RunTime(h, t) <= Times(n, Contribution(h, t))
    ensures t in Seen(h) ==> Contribution(h, t) > 0.0
    ensures t !in Seen(h) ==> RunTime(h, t) == 0.0 && Contribution(h, t) == 0.0
  {
    if h == [] {
      TimesPlus(n, 0.0, 0.0);
    } else {
      var k := |h| - 1;
      var p := h[k];
      ThreadBounds(h[..k], t, n);
      hide Part, Times;
      TimesPlus(n, Contribution(h[..k], t), Part(p));
      if t in p.threads {
        PartBounds(p, n);
      }
    }
  }

  // ----- events

  datatype Event =
    | RoiBegin(now: int)
    | RoiEnd(now: int)
    | Start(t: Id, time: int)
    | Exit(t: Id, time: int)
    | Stall(t: Id, unscheduled: bool, time: int)
    | Resume(t: Id, time: int)

  /** Whether the region of interest is on, up to when time has been counted, who runs, and the pieces so far. */
  datatype Clock = Clock(inRoi: bool, last: int, running: map<Id, bool>, history: seq<Piece>)

  function Runners(running: map<Id, bool>): set<Id> {
    set t | t in running && running[t]
  }

  /** Time passes: inside the region of interest a later time ends a piece; an earlier one counts nothing. */
  function Passed(c: Clock, time: int): Clock {
    if c.inRoi && time > c.last
    then c.(last := time, history := c.history + [Piece((time - c.last) as real / 1000000.0, Runners(c.running))])
    else c
  }

  function After(c: Clock, e: Event): Clock {
    match e
    case RoiBegin(now) => c.(last := now, inRoi := true)
    case RoiEnd(now) => Passed(c, now).(inRoi := false)
    case Start(t, time) => Passed(c, time).(running := c.running[t := true])
    case Exit(t, time) => Passed(c, time).(running := c.running[t := false])
    case Stall(t, unscheduled, time) => if unscheduled then c else Passed(c, time).(running := c.running[t := false])
    case Resume(t, time) => Passed(c, time).(running := c.running[t := true])
  }

  function AfterAll(c: Clock, es: seq<Event>, n: nat): Clock
    requires n <= |es|
  {
    if n == 0 then c else After(AfterAll(c, es, n - 1), es[n - 1])
  }

  // ----- what the clock shows, in terms of the events

  const START: Clock := Clock(false, 0, map[], [])

  predicate Begins(e: Event, t: Id) {
    (e.Start? || e.Resume?) && e.t == t
  }

  predicate Ceases(e: Event, t: Id) {
    (e.Exit? || (e.Stall? && !e.unscheduled)) && e.t == t
  }

  /** The thread has started or resumed, and neither exited nor really stalled since. */
  ghost predicate RunsBefore(es: seq<Event>, n: nat, t: Id)
    requires n <= |es|
  {
    exists i :: 0 <= i < n && Begins(es[i], t) && forall j :: i < j < n ==> !Ceases(es[j], t)
  }

  /** The region of interest began at event `b`, and neither ended nor began again since. */
  ghost predicate RegionFrom(es: seq<Event>, b: nat, n: nat)
    requires n <= |es|
  {
    b < n && es[b].RoiBegin? && forall j :: b < j < n ==> !es[j].RoiBegin? && !es[j].RoiEnd?
  }

  /** Unscheduled stalls count no time. */
  predicate Timed(e: Event) {
    e.Start? || e.Exit? || e.Resume? || (e.Stall? && !e.unscheduled)
  }

  /** The time is the latest of the beginning of the region and the events in it. */
  ghost predicate Latest(es: seq<Event>, b: nat, n: nat, last: int)
    requires n <= |es| && RegionFrom(es, b, n)
  {
    && es[b].now <= last && (forall j :: b < j < n && Timed(es[j]) ==> es[j].time <= last)
    && (last == es[b].now || exists j :: b < j < n && Timed(es[j]) && es[j].time == last)
  }

  lemma {:induction false} RunnersAre(es: seq<Event>, n: nat, t: Id)
    requires n <= |es|
    ensures t in Runners(AfterAll(START, es, n).running) <==> RunsBefore(es, n, t)
  {
    if n > 0 {
      var e := es[n - 1];
      RunnersAre(es, n - 1, t);
      hide Passed;
      RunningStays(AfterAll(START, es, n - 1), e);
      if Begins(e, t) {
        assert RunsBefore(es, n, t);
      } else if !Ceases(e, t) {
        RunsStill(es, n, t);
      } else {
        assert !RunsBefore(es, n, t);
      }
    }
  }

  lemma RunningStays(c: Clock, e: Event)
    ensures After(c, e).running ==
      if e.Start? || e.Resume? then c.running[e.t := true]
      else if e.Exit? || (e.Stall? && !e.unscheduled) then c.running[e.t := false] else c.running
  {
  }

  lemma RunsStill(es: seq<Event>, n: nat, t: Id)
    requires 0 < n <= |es| && !Begins(es[n - 1], t) && !Ceases(es[n - 1], t)
    ensures RunsBefore(es, n, t) <==> RunsBefore(es, n - 1, t)
  {
    if RunsBefore(es, n - 1, t) {
      var i :| 0 <= i < n - 1 && Begins(es[i], t) && forall j :: i < j < n - 1 ==> !Ceases(es[j], t);
      assert forall j :: i < j < n ==> !Ceases(es[j], t);
    }
  }

  lemma {:induction false} RegionIs(es: seq<Event>, n: nat)
    requires n <= |es|
    ensures AfterAll(START, es, n).inRoi <==> exists b :: RegionFrom(es, b, n)
    ensures AfterAll(START, es, n).inRoi ==>
      exists b :: RegionFrom(es, b, n) && Latest(es, b, n, AfterAll(START, es, n).last)
  {
    if n > 0 {
      RegionIs(es, n - 1);
      var c, e := AfterAll(START, es, n - 1), es[n - 1];
      if e.RoiBegin? {
        assert RegionFrom(es, n - 1, n);
      } else if e.RoiEnd? {
        assert forall b :: !RegionFrom(es, b, n);
      } else {
        assert forall b :: 0 <= b < n - 1 ==> (RegionFrom(es, b, n) <==> RegionFrom(es, b, n - 1));
        if c.inRoi {
          var b :| RegionFrom(es, b, n - 1) && Latest(es, b, n - 1, c.last);
          LatestNext(es, b, n, c);
        }
      }
    }
  }

  lemma LatestNext(es: seq<Event>, b: nat, n: nat, c: Clock)
    requires 0 < n <= |es| && RegionFrom(es, b, n - 1) && Latest(es, b, n - 1, c.last) && c.inRoi
    requires !es[n - 1].RoiBegin? && !es[n - 1].RoiEnd?
    ensures RegionFrom(es, b, n) && Latest(es, b, n, After(c, es[n - 1]).last)
  {
    var e := es[n - 1];
    assert RegionFrom(es, b, n);
    if Timed(e) && e.time > c.last {
      assert After(c, e).last == e.time;
    } else {
      assert After(c, e).last == c.last;
    }
  }

  /** The region is on, and event `n` brings the time `time`, later than `last`, the latest in the region before. */
  ghost predicate EndsPiece(es: seq<Event>, n: nat, last: int, time: int)
    requires n < |es|
  {
    && ((es[n].RoiEnd? && es[n].now == time) || (Timed(es[n]) && es[n].time == time)) && time > last
    && exists b :: RegionFrom(es, b, n) && Latest(es, b, n, last)
  }

  /** One more piece, with these threads and this length. */
  ghost predicate AddsPiece(es: seq<Event>, n: nat, last: int, time: int, h: seq<Piece>, h': seq<Piece>)
    requires n < |es|
  {
    && |h'| == |h| + 1 && h'[..|h|] == h && h'[|h|].length == (time - last) as real / 1000000.0
    && forall t :: t in h'[|h|].threads <==> RunsBefore(es, n, t)
  }

  /** PIECES. At every event of every sequence of events: a piece ends exactly when the region of interest is on and the
      event brings a later time than the beginning of the region and all events in it; the piece reaches from the
      latest of these to the event, and its threads are exactly those that have started or resumed and neither exited
      nor really stalled since. */
  lemma PieceOf(es: seq<Event>, n: nat)
    requires n < |es|
    ensures var h, h' := AfterAll(START, es, n).history, AfterAll(START, es, n + 1).history;
            && (forall last, time :: EndsPiece(es, n, last, time) ==> AddsPiece(es, n, last, time, h, h'))
            && ((forall last, time :: !EndsPiece(es, n, last, time)) ==> h' == h)
  {
    var c, e := AfterAll(START, es, n), es[n];
    assert AfterAll(START, es, n + 1) == After(c, e);
    forall last, time | EndsPiece(es, n, last, time)
      ensures AddsPiece(es, n, last, time, c.history, After(c, e).history)
    {
      PieceAdded(es, n, last, time);
    }
    if forall last, time :: !EndsPiece(es, n, last, time) {
      NoPiece(es, n);
    }
  }

  lemma PieceAdded(es: seq<Event>, n: nat, last: int, time: int)
    requires n < |es| && EndsPiece(es, n, last, time)
    ensures var c := AfterAll(START, es, n);
            AddsPiece(es, n, last, time, c.history, After(c, es[n]).history)
  {
    hide RunsBefore, AfterAll;
    var c := AfterAll(START, es, n);
    RegionIs(es, n);
    var b :| RegionFrom(es, b, n) && Latest(es, b, n, last);
    var b' :| RegionFrom(es, b', n) && Latest(es, b', n, c.last);
    OneRegion(es, b, b', n, last, c.last);
    hide RegionFrom, Latest;
    forall t
      ensures t in Runners(c.running) <==> RunsBefore(es, n, t)
    {
      RunnersAre(es, n, t);
    }
  }

  lemma NoPiece(es: seq<Event>, n: nat)
    requires n < |es| && forall last, time :: !EndsPiece(es, n, last, time)
    ensures var c := AfterAll(START, es, n);
            After(c, es[n]).history == c.history
  {
    hide AfterAll;
    var c, e := AfterAll(START, es, n), es[n];
    RegionIs(es, n);
    hide RegionFrom, Latest;
    if c.inRoi && Timed(e) {
      assert !EndsPiece(es, n, c.last, e.time);
    } else if c.inRoi && e.RoiEnd? {
      assert !EndsPiece(es, n, c.last, e.now);
    }
  }

  lemma OneRegion(es: seq<Event>, b: nat, c: nat, n: nat, x: int, y: int)
    requires n <= |es| && RegionFrom(es, b, n) && RegionFrom(es, c, n) && Latest(es, b, n, x) && Latest(es, c, n, y)
    ensures b == c && x == y
  {
  }

  /** The accounts agree with the pieces. */
  ghost predicate Accounts(h: seq<Piece>, total: real, runtime: map<Id, real>, contrib: map<Id, real>) {
    && total == Total(h) && runtime.Keys == Seen(h) && contrib.Keys == Seen(h)
    && forall t :: t in Seen(h) ==> runtime[t] == RunTime(h, t) && contrib[t] == Contribution(h, t)
  }

  ghost predicate Sane(h: seq<Piece>, running: map<Id, bool>) {
    Positive(h) && forall i :: 0 <= i < |h| ==> h[i].threads <= running.Keys
  }

  function GetReal(m: map<Id, real>, t: Id): real {
    if t in m then m[t] else 0.0
  }

  /** The amount added for each of some threads. */
  ghost predicate Credited(before: map<Id, real>, ids: set<Id>, amount: real, after: map<Id, real>) {
    && after.Keys == before.Keys + ids
    && forall t :: t in after ==> after[t] == GetReal(before, t) + if t in ids then amount else 0.0
  }

  lemma CreditNone(before: map<Id, real>, amount: real)
    ensures Credited(before, {}, amount, before)
  {
  }

  lemma CreditOne(before: map<Id, real>, ids: set<Id>, amount: real, now: map<Id, real>, t: Id)
    requires Credited(before, ids, amount, now) && t !in ids
    ensures Credited(before, ids + {t}, amount, now[t := GetReal(now, t) + amount])
  {
  }

  /** Crediting the threads of a new piece keeps the accounts right. */
  lemma AccountsSnoc(h: seq<Piece>, p: Piece, total: real, runtime: map<Id, real>, contrib: map<Id, real>,
                     runtime': map<Id, real>, contrib': map<Id, real>)
    requires Accounts(h, total, runtime, contrib)
    requires Credited(runtime, p.threads, p.length, runtime') && Credited(contrib, p.threads, Part(p), contrib')
    ensures Accounts(h + [p], total + p.length, runtime', contrib')
  {
    var h' := h + [p];
    assert h'[..|h|] == h;
    forall t | t in Seen(h')
      ensures runtime'[t] == RunTime(h', t) && contrib'[t] == Contribution(h', t)
    {
      ContributionSnoc(h, p, t);
      if t !in Seen(h) {
        Unseen(h, t);
      }
    }
  }

  lemma {:induction false} Unseen(h: seq<Piece>, t: Id)
    requires t !in Seen(h)
    ensures RunTime(h, t) == 0.0 && Contribution(h, t) == 0.0
  {
    if h != [] {
      Unseen(h[..|h| - 1], t);
    }
  }

  lemma PartIs(p: Piece, n: nat)
    requires n == |p.threads|
    ensures if n > 0 then Part(p) == p.length / n as real else p.threads == {}
  {
  }

  lemma SaneSnoc(h: seq<Piece>, p: Piece, running: map<Id, bool>)
    requires Sane(h, running) && p.length > 0.0 && p.threads == Runners(running)
    ensures Sane(h + [p], running)
  {
  }

  class Graph {
    var totalRuntime: real
    var runtime: map<Id, real>
    var contrib: map<Id, real>
    var running: map<Id, bool>
    var timeLast: int
    var inRoi: bool
    ghost var history: seq<Piece>

    constructor ()
      ensures Valid() && View() == START
    {
      totalRuntime, runtime, contrib, running, timeLast, inRoi := 0.0, map[], map[], map[], 0, false;
      history := [];
    }

    ghost function View(): Clock
      reads this
    {
      Clock(inRoi, timeLast, running, history)
    }

    ghost predicate Valid()
      reads this
    {
      Accounts(history, totalRuntime, runtime, contrib) && Sane(history, running)
    }

    /** Credits every running thread with the interval and with its share of it. */
    method Credit(interval: real, share: real)
      modifies this`runtime, this`contrib
      ensures Credited(old(runtime), Runners(running), interval, runtime)
      ensures Credited(old(contrib), Runners(running), share, contrib)
    {
      hide Credited, Runners;
      var all := Runners(running);
      var todo := all;
      CreditNone(runtime, interval);
      CreditNone(contrib, share);
      assert all - all == {};
      while todo != {}
        invariant todo <= all
        invariant Credited(old(runtime), all - todo, interval, runtime)
        invariant Credited(old(contrib), all - todo, share, contrib)
        decreases todo
      {
        var t :| t in todo;
        CreditOne(old(runtime), all - todo, interval, runtime, t);
        CreditOne(old(contrib), all - todo, share, contrib, t);
        assert all - todo + {t} == all - (todo - {t});
        runtime := runtime[t := GetReal(runtime, t) + interval];
        contrib := contrib[t := GetReal(contrib, t) + share];
        todo := todo - {t};
      }
      assert all - {} == all;
    }

    /** `update` */
    method Update(time: int)
      requires Valid()
      modifies this
      ensures Valid() && View() == Passed(old(View()), time)
    {
      hide Accounts, Sane, Runners;
      if !inRoi {
        return;
      }
      var nthreads := |Runners(running)|;
      if time > timeLast {
        var interval := (time - timeLast) as real / 1000000.0;
        Elapse(interval, nthreads);
        timeLast := time;
      }
    }

    method Elapse(interval: real, nthreads: nat)
      requires Valid() && interval > 0.0 && nthreads == |Runners(running)|
      modifies this`totalRuntime, this`runtime, this`contrib, this`history
      ensures Valid() && history == old(history) + [Piece(interval, Runners(running))]
    {
      hide Accounts, Sane, Credited, Runners, Part;
      ghost var p := Piece(interval, Runners(running));
      PartIs(p, nthreads);
      if nthreads > 0 {
        Credit(interval, interval / nthreads as real);
      } else {
        CreditNone(runtime, interval);
        CreditNone(contrib, Part(p));
      }
      AccountsSnoc(history, p, totalRuntime, old(runtime), old(contrib), runtime, contrib);
      SaneSnoc(history, p, running);
      totalRuntime := totalRuntime + interval;
      history := history + [p];
    }

    method SetRunning(t: Id, b: bool)
      requires Valid()
      modifies this`running
      ensures Valid() && running == old(running)[t := b]
    {
      running := running[t := b];
    }

    /** One hook. */
    method Hook(e: Event)
      requires Valid()
      modifies this
      ensures Valid() && View() == After(old(View()), e)
    {
      hide Accounts, Sane;
      match e
      case RoiBegin(now) =>
        timeLast := now;
        inRoi := true;
      case RoiEnd(now) =>
        Update(now);
        inRoi := false;
      case Start(t, time) =>
        Update(time);
        SetRunning(t, true);
      case Exit(t, time) =>
        Update(time);
        SetRunning(t, false);
      case Stall(t, unscheduled, time) =>
        if !unscheduled {
          Update(time);
          SetRunning(t, false);
        }
      case Resume(t, time) =>
        Update(time);
        SetRunning(t, true);
    }

    /** The end of the run: each thread's parallelism and contribution. Contributions sum to the time in which some
        thread ran; every recorded thread has a positive contribution, at most its run time, which is at most the
        total; and its parallelism is between 1 and the number of threads seen. */
    method SimEnd() returns (xs: map<Id, real>, ys: map<Id, real>)
      requires Valid()
      ensures Contributions(history, runtime.Keys) == Busy(history) && runtime.Keys == contrib.Keys == Seen(history)
      ensures xs.Keys == runtime.Keys && ys.Keys == runtime.Keys
      ensures forall t :: t in runtime ==>
        && contrib[t] == Contribution(history, t) && runtime[t] == RunTime(history, t) && totalRuntime == Total(history)
        && InBounds(runtime[t], contrib[t], totalRuntime, |running|)
        && xs[t] == runtime[t] / contrib[t] && ys[t] == contrib[t] / 1000000000.0
    {
      hide Positive, Total, RunTime, Contribution, Busy, Contributions;
      ContributionsAreBusy(history, runtime.Keys);
      assert forall t :: t in runtime ==>
        contrib[t] > 0.0 && InBounds(runtime[t], contrib[t], totalRuntime, |running|) by {
        forall t | t in runtime
          ensures contrib[t] > 0.0 && InBounds(runtime[t], contrib[t], totalRuntime, |running|)
        {
          Parallelism(history, t, running.Keys);
        }
      }
      xs := map t | t in runtime :: runtime[t] / contrib[t];
      ys := map t | t in runtime :: contrib[t] / 1000000000.0;
    }
  }

  /** A thread's contribution, run time and parallelism against the total and the number of threads. */
  ghost predicate InBounds(r: real, c: real, total: real, n: nat) {
    0.0 < c <= r <= total && 1.0 <= r / c <= n as real
  }

  lemma Parallelism(h: seq<Piece>, t: Id, threads: set<Id>)
    requires Positive(h) && (forall i :: 0 <= i < |h| ==> h[i].threads <= threads) && t in Seen(h)
    ensures InBounds(RunTime(h, t), Contribution(h, t), Total(h), |threads|)
  {
    forall i | 0 <= i < |h|
      ensures |h[i].threads| <= |threads|
    {
      Subset(h[i].threads, threads);
    }
    ThreadBounds(h, t, |threads|);
    Between(RunTime(h, t), Contribution(h, t), |threads|);
  }

  lemma Subset(a: set<Id>, b: set<Id>)
    requires a <= b
    ensures |a| <= |b|
  {
    assert b == a + (b - a);
  }

  lemma Between(r: real, c: real, n: nat)
    requires 0.0 < c <= r <= Times(n, c)
    ensures 1.0 <= r / c <= n as real
  {
    var q := r / c;
    assert q * c == r;
    assert q < 1.0 ==> (1.0 - q) * c > 0.0;
    assert q > n as real ==> (q - n as real) * c > 0.0;
  }

  /** The accounts over every sequence of events, in whatever order their times come. */
  method Play(es: seq<Event>) returns (g: Graph)
    ensures g.Valid() && g.View() == AfterAll(START, es, |es|)
  {
    g := new Graph();
    for i := 0 to |es|
      invariant fresh(g) && g.Valid() && g.View() == AfterAll(START, es, i)
    {
      g.Hook(es[i]);
    }
  }
}
