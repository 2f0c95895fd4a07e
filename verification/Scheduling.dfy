/** The locality scheduler as a state machine over its hooks. Scores come from a metric that the simulator supplies
    at each event; where the scheduler takes an element of a set, or one of several lowest scores, any may be taken. */
module Scheduling {
  import opened Basics

  datatype Id = Id(number: int)
  type Metric = Id -> int

  datatype Thread = Thread(core: Option<nat>, runnable: bool, unscheduled: bool, score: int, last: int)

  type Threads = map<Id, Thread>

  /** The threads by id, and how many cores have been handed out at thread starts. */
  datatype State = State(threads: Threads, lastCore: nat)

  datatype Event = Start(id: Id) | Stall(id: Id, unscheduled: bool) | Exit(id: Id) | Resume(id: Id) | Periodic

  // ----- what the methods of a thread do

  function NewThread(): Thread {
    Thread(None, false, false, 0, 0)
  }

  function UpdateScore(t: Thread, now: int): Thread {
    t.(score := t.score + (now - t.last), last := now)
  }

  function SetScore(t: Thread, score: int, now: int): Thread {
    t.(score := score, last := now)
  }

  function SetCore(t: Thread, core: Option<nat>, now: int): Thread {
    if core.None? then UpdateScore(t.(core := None), now) else t.(core := core)
  }

  // ----- the hooks

  function Started(cores: seq<nat>, s: State, id: Id, m: Metric): State {
    var t := NewThread().(runnable := true);
    if s.lastCore < |cores|
    then State(s.threads[id := SetCore(t, Some(cores[s.lastCore]), m(id))], s.lastCore + 1)
    else State(s.threads[id := SetCore(t, None, m(id))], s.lastCore)
  }

  predicate Waiting(ts: Threads, w: Id) {
    w in ts && ts[w].runnable && ts[w].core.None?
  }

  /** The waiting threads with the lowest score. */
  ghost predicate FirstWaiting(ts: Threads, w: Id) {
    Waiting(ts, w) && forall x :: Waiting(ts, x) ==> ts[w].score <= ts[x].score
  }

  function TakenOff(ts: Threads, id: Id, m: Metric): Threads
    requires id in ts
  {
    ts[id := SetCore(ts[id], None, m(id)).(runnable := false)]
  }

  /** A thread that really stalls leaves its core to a waiting thread, if there is one. */
  ghost predicate Stalled(s: State, id: Id, m: Metric, s': State) {
    && id in s.threads && s'.lastCore == s.lastCore
    && var ts := TakenOff(s.threads, id, m);
       if exists w :: Waiting(ts, w)
       then exists w :: FirstWaiting(ts, w) && s'.threads == ts[w := SetCore(ts[w], s.threads[id].core, m(w))]
       else s'.threads == ts
  }

  ghost predicate LowestScore(ts: Threads, x: int) {
    (exists t :: t in ts && ts[t].score == x) && forall t :: t in ts ==> x <= ts[t].score
  }

  predicate InUse(ts: Threads, c: nat) {
    exists t :: t in ts && ts[t].core == Some(c)
  }

  predicate Free(cores: seq<nat>, ts: Threads, c: nat) {
    c in cores && !InUse(ts, c)
  }

  /** A thread that can run again moves to a free core, any of them, if there is one. */
  ghost predicate MovedIn(cores: seq<nat>, ts: Threads, id: Id, m: Metric, ts': Threads)
    requires id in ts
  {
    if exists c: nat :: Free(cores, ts, c)
    then exists c: nat :: Free(cores, ts, c) && ts' == ts[id := SetCore(ts[id], Some(c), m(id))]
    else ts' == ts
  }

  function Woken(ts: Threads, id: Id, score: int, m: Metric): Threads
    requires id in ts
  {
    ts[id := SetScore(ts[id], score, m(id)).(runnable := true)]
  }

  ghost predicate Resumed(cores: seq<nat>, s: State, id: Id, m: Metric, s': State) {
    && id in s.threads && s'.lastCore == s.lastCore
    && if s.threads[id].unscheduled then s'.threads == s.threads[id := s.threads[id].(unscheduled := false)]
       else exists x :: LowestScore(s.threads, x) && MovedIn(cores, Woken(s.threads, id, x, m), id, m, s'.threads)
  }

  // ----- the periodic hook

  function Rescored(ts: Threads, m: Metric): Threads {
    map t | t in ts :: if ts[t].core.Some? then UpdateScore(ts[t], m(t)) else ts[t]
  }

  function Runnable(ts: Threads): set<Id> {
    set t | t in ts && ts[t].runnable
  }

  function Min(a: nat, b: nat): nat {
    if a < b then a else b
  }

  /** A selection of runnable threads, one per core, lowest scores first. */
  ghost predicate Selection(n: nat, ts: Threads, chosen: set<Id>) {
    && chosen <= Runnable(ts) && |chosen| == Min(|Runnable(ts)|, n)
    && forall a, b :: a in chosen && b in Runnable(ts) - chosen ==> ts[a].score <= ts[b].score
  }

  function Keepers(ts: Threads, chosen: set<Id>): set<Id> {
    set t | t in chosen && t in ts && ts[t].core.Some?
  }

  function UsedBy(ts: Threads, ids: set<Id>): set<nat> {
    set t | t in ids && t in ts && ts[t].core.Some? :: ts[t].core.value
  }

  /** The cores not used by the given threads, in their order. */
  function FreeCores(cores: seq<nat>, used: set<nat>): (r: seq<nat>)
    ensures forall c :: c in r <==> c in cores && c !in used
  {
    if cores == [] then [] else (if cores[0] in used then [] else [cores[0]]) + FreeCores(cores[1..], used)
  }

  /** The thread to take a core from: one of those on it, or none if there is none. */
  ghost predicate Occupant(ts: Threads, c: nat, v: Option<Id>) {
    if v.Some? then v.value in ts && ts[v.value].core == Some(c) else !InUse(ts, c)
  }

  function Evicted(ts: Threads, v: Option<Id>, m: Metric): (r: Threads)
    ensures r.Keys == ts.Keys
  {
    if v.Some? && v.value in ts then ts[v.value := SetCore(ts[v.value], None, m(v.value))] else ts
  }

  function MovedTo(ts: Threads, id: Id, c: nat, m: Metric): Threads
    requires id in ts
  {
    ts[id := SetCore(ts[id], Some(c), m(id))]
  }

  /** A thread is given a core after a thread on it has left. */
  ghost predicate PlacedOne(ts: Threads, id: Id, c: nat, m: Metric, ts': Threads) {
    id in ts && exists v :: Occupant(ts, c, v) && ts' == MovedTo(Evicted(ts, v, m), id, c, m)
  }

  /** Each thread in turn is given the next core. */
  ghost predicate Placement(ts: Threads, newcomers: seq<Id>, free: seq<nat>, m: Metric, steps: seq<Threads>) {
    && |steps| == |newcomers| + 1 && |newcomers| <= |free| && steps[0] == ts
    && forall k :: 0 <= k < |newcomers| ==> PlacedOne(steps[k], newcomers[k], free[k], m, steps[k + 1])
  }

  ghost predicate Rescheduled(cores: seq<nat>, s: State, m: Metric, chosen: set<Id>, newcomers: seq<Id>,
                              steps: seq<Threads>, s': State) {
    var ts := Rescored(s.threads, m);
    && s'.lastCore == s.lastCore && Selection(|cores|, ts, chosen)
    && Enumerates(newcomers, chosen - Keepers(ts, chosen))
    && Placement(ts, newcomers, FreeCores(cores, UsedBy(ts, chosen)), m, steps) && s'.threads == steps[|newcomers|]
  }

  /** One event. */
  ghost predicate Step(cores: seq<nat>, s: State, e: Event, m: Metric, s': State) {
    match e
    case Start(id) => s' == Started(cores, s, id, m)
    case Stall(id, unscheduled) =>
      if unscheduled
      then id in s.threads && s' == s.(threads := s.threads[id := s.threads[id].(unscheduled := true)])
      else Stalled(s, id, m, s')
    case Exit(id) => Stalled(s, id, m, s')
    case Resume(id) => Resumed(cores, s, id, m, s')
    case Periodic => exists chosen, newcomers, steps :: Rescheduled(cores, s, m, chosen, newcomers, steps, s')
  }

  // ----- the invariant

  ghost predicate Exclusive(ts: Threads) {
    forall a, b :: a in ts && b in ts && a != b && ts[a].core.Some? ==> ts[a].core != ts[b].core
  }

  /** Threads on a core are runnable, and on one of the cores. */
  ghost predicate Running(cores: seq<nat>, ts: Threads) {
    forall t :: t in ts && ts[t].core.Some? ==> ts[t].runnable && ts[t].core.value in cores
  }

  /** While cores are being handed out, only those handed out are in use and no runnable thread waits. */
  ghost predicate Early(cores: seq<nat>, s: State) {
    s.lastCore < |cores| ==> forall t :: t in s.threads ==>
      && (s.threads[t].runnable ==> s.threads[t].core.Some?)
      && (s.threads[t].core.Some? ==> s.threads[t].core.value in cores[..s.lastCore])
  }

  /** What holds in every run. */
  ghost predicate Sound(cores: seq<nat>, s: State) {
    Running(cores, s.threads) && s.lastCore <= |cores|
  }

  // ----- starts, stalls and resumes

  /** The core that a starting thread is handed, if any, is not in use by another thread. */
  ghost predicate Unshared(cores: seq<nat>, s: State, id: Id) {
    s.lastCore < |cores| ==> forall t :: t in s.threads && t != id ==> s.threads[t].core != Some(cores[s.lastCore])
  }

  /** A start keeps cores exclusive exactly when the core it hands out is not in use by another thread. */
  lemma StartExclusive(cores: seq<nat>, s: State, id: Id, m: Metric)
    requires Exclusive(s.threads)
    ensures Exclusive(Started(cores, s, id, m).threads) <==> Unshared(cores, s, id)
  {
    var ts' := Started(cores, s, id, m).threads;
    if s.lastCore < |cores| {
      forall t | t in s.threads && t != id && s.threads[t].core == Some(cores[s.lastCore])
        ensures !Exclusive(ts')
      {
        assert t in ts' && id in ts' && ts'[t].core == ts'[id].core;
      }
    }
  }

  lemma StartKeeps(cores: seq<nat>, s: State, id: Id, m: Metric)
    requires Sound(cores, s)
    ensures Sound(cores, Started(cores, s, id, m))
    ensures Distinct(cores) && Early(cores, s) ==> Unshared(cores, s, id) && Early(cores, Started(cores, s, id, m))
  {
    if s.lastCore < |cores| {
      assert cores[..s.lastCore + 1] == cores[..s.lastCore] + [cores[s.lastCore]];
      assert Distinct(cores) ==> cores[s.lastCore] !in cores[..s.lastCore];
    }
  }

  lemma OffKeeps(cores: seq<nat>, s: State, id: Id, m: Metric)
    requires Sound(cores, s) && id in s.threads
    ensures var ts := TakenOff(s.threads, id, m);
            && Sound(cores, s.(threads := ts)) && (Early(cores, s) ==> Early(cores, s.(threads := ts)))
            && (Exclusive(s.threads) ==> Exclusive(ts))
            && (Exclusive(s.threads) && s.threads[id].core.Some? ==>
                 forall t :: t in ts ==> ts[t].core != s.threads[id].core)
  {
  }

  lemma StallKeeps(cores: seq<nat>, s: State, id: Id, m: Metric, s': State)
    requires Sound(cores, s) && Stalled(s, id, m, s')
    ensures Sound(cores, s') && (Exclusive(s.threads) ==> Exclusive(s'.threads))
    ensures Early(cores, s) ==> Early(cores, s')
  {
    var ts := TakenOff(s.threads, id, m);
    OffKeeps(cores, s, id, m);
    if exists w :: Waiting(ts, w) {
      var w :| FirstWaiting(ts, w) && s'.threads == ts[w := SetCore(ts[w], s.threads[id].core, m(w))];
      PassedOn(cores, s.(threads := ts), w, s.threads[id].core, m);
      assert s.threads[id].core.Some? ==> s.threads[id].core.value in cores;
    }
  }

  /** A core that nobody is on, or none, goes to a waiting thread. */
  lemma PassedOn(cores: seq<nat>, s: State, w: Id, core: Option<nat>, m: Metric)
    requires Sound(cores, s) && Waiting(s.threads, w) && (core.Some? ==> core.value in cores)
    ensures var s' := s.(threads := s.threads[w := SetCore(s.threads[w], core, m(w))]);
            && Sound(cores, s') && (Early(cores, s) ==> Early(cores, s'))
            && (Exclusive(s.threads) && (forall t :: t in s.threads && core.Some? ==> s.threads[t].core != core) ==>
                 Exclusive(s'.threads))
  {
  }

  lemma ResumeKeeps(cores: seq<nat>, s: State, id: Id, m: Metric, s': State)
    requires Sound(cores, s) && Resumed(cores, s, id, m, s')
    ensures Sound(cores, s') && (Exclusive(s.threads) ==> Exclusive(s'.threads))
    ensures Early(cores, s) && (s.threads[id].unscheduled || s.lastCore == |cores|) ==> Early(cores, s')
  {
    if s.threads[id].unscheduled {
      FlagKeeps(cores, s, id, false);
      hide Running, Exclusive, Early;
    } else {
      var x :| LowestScore(s.threads, x) && MovedIn(cores, Woken(s.threads, id, x, m), id, m, s'.threads);
      hide MovedIn, Woken, Running, Exclusive, LowestScore;
      WokenKeeps(cores, s.threads, id, x, m);
      MoveKeeps(cores, Woken(s.threads, id, x, m), id, m, s'.threads);
    }
  }

  lemma WokenKeeps(cores: seq<nat>, ts: Threads, id: Id, x: int, m: Metric)
    requires Running(cores, ts) && id in ts
    ensures var up := Woken(ts, id, x, m);
            id in up && up[id].runnable && Running(cores, up) && (Exclusive(ts) ==> Exclusive(up))
  {
  }

  lemma MoveKeeps(cores: seq<nat>, ts: Threads, id: Id, m: Metric, ts': Threads)
    requires Running(cores, ts) && id in ts && ts[id].runnable && MovedIn(cores, ts, id, m, ts')
    ensures Running(cores, ts') && (Exclusive(ts) ==> Exclusive(ts'))
  {
    if exists c: nat :: Free(cores, ts, c) {
      var c: nat :| Free(cores, ts, c) && ts' == ts[id := SetCore(ts[id], Some(c), m(id))];
      assert forall t :: t in ts ==> ts[t].core != Some(c);
    }
  }

  // ----- the periodic hook

  lemma {:induction false} FreeCoresCount(cores: seq<nat>, used: set<nat>)
    requires Distinct(cores) && forall c :: c in used ==> c in cores
    ensures |FreeCores(cores, used)| + |used| == |cores| && Distinct(FreeCores(cores, used))
  {
    if cores == [] {
      assert used == {};
    } else {
      var rest := used - {cores[0]};
      assert cores[0] !in cores[1..] && Distinct(cores[1..]);
      FreeCoresCount(cores[1..], rest);
      FreeCoresSame(cores[1..], used, rest);
      FreeCoresCons(cores, used);
      CountWithout(used, cores[0]);
      hide FreeCores, Distinct;
      DistinctCons(cores[0], FreeCores(cores[1..], used));
    }
  }

  lemma FreeCoresCons(cores: seq<nat>, used: set<nat>)
    requires cores != []
    ensures var rest := FreeCores(cores[1..], used);
            FreeCores(cores, used) == if cores[0] in used then rest else [cores[0]] + rest
  {
  }

  lemma CountWithout<T>(s: set<T>, x: T)
    ensures |s| == |s - {x}| + if x in s then 1 else 0
  {
    assert x in s ==> s == (s - {x}) + {x};
    assert x !in s ==> s == s - {x};
  }

  lemma DistinctCons<T>(x: T, s: seq<T>)
    requires Distinct(s) && x !in s
    ensures Distinct([x] + s)
  {
  }

  lemma {:induction false} FreeCoresSame(cores: seq<nat>, a: set<nat>, b: set<nat>)
    requires forall c :: c in cores ==> (c in a <==> c in b)
    ensures FreeCores(cores, a) == FreeCores(cores, b)
  {
    if cores != [] {
      FreeCoresSame(cores[1..], a, b);
    }
  }

  /** Threads use at most as many cores as they are, and exactly as many if cores are exclusive. */
  lemma {:induction false} UsedCount(ts: Threads, ids: set<Id>)
    requires forall t :: t in ids ==> t in ts && ts[t].core.Some?
    ensures |UsedBy(ts, ids)| <= |ids| && (Exclusive(ts) ==> |UsedBy(ts, ids)| == |ids|)
  {
    if ids == {} {
      assert UsedBy(ts, ids) == {};
    } else {
      var t := Member(ids);
      UsedCount(ts, ids - {t});
      UsedOne(ts, ids, t);
    }
  }

  lemma UsedOne(ts: Threads, ids: set<Id>, t: Id)
    requires t in ids && t in ts && ts[t].core.Some?
    ensures UsedBy(ts, ids) == UsedBy(ts, ids - {t}) + {ts[t].core.value}
    ensures Exclusive(ts) ==> ts[t].core.value !in UsedBy(ts, ids - {t})
  {
    forall c | c in UsedBy(ts, ids)
      ensures c in UsedBy(ts, ids - {t}) || c == ts[t].core.value
    {
      var u :| u in ids && u in ts && ts[u].core == Some(c);
      assert u != t ==> u in ids - {t};
    }
  }

  lemma Member<T>(s: set<T>) returns (x: T)
    requires s != {}
    ensures x in s
  {
    x :| x in s;
  }

  lemma {:induction false} EnumerationCount(q: seq<Id>, ids: set<Id>)
    requires Enumerates(q, ids)
    ensures |q| == |ids|
  {
    if q == [] {
      assert forall x: Id :: x !in ids;
    } else {
      assert forall x :: x in q[1..] <==> x in ids - {q[0]};
      EnumerationCount(q[1..], ids - {q[0]});
    }
  }

  /** The assertion of the periodic hook never fails: there is a free core for every newcomer. With exclusive cores,
      when some runnable thread is left out, there is exactly one for each. */
  lemma EnoughCores(cores: seq<nat>, ts: Threads, chosen: set<Id>, newcomers: seq<Id>)
    requires Distinct(cores) && Running(cores, ts)
    requires Selection(|cores|, ts, chosen) && Enumerates(newcomers, chosen - Keepers(ts, chosen))
    ensures var free := FreeCores(cores, UsedBy(ts, chosen));
            && Distinct(free) && |newcomers| <= |free|
            && (Exclusive(ts) && chosen != Runnable(ts) ==> |newcomers| == |free|)
  {
    var keep := Keepers(ts, chosen);
    UsedIsKept(cores, ts, chosen);
    hide UsedBy, Keepers, FreeCores, Exclusive, Running;
    UsedCount(ts, keep);
    FreeCoresCount(cores, UsedBy(ts, chosen));
    EnumerationCount(newcomers, chosen - keep);
    CountRest(keep, chosen);
    SelectionCount(|cores|, ts, chosen);
    hide Selection, Enumerates;
  }

  lemma UsedIsKept(cores: seq<nat>, ts: Threads, chosen: set<Id>)
    requires Running(cores, ts)
    ensures var keep := Keepers(ts, chosen);
            && UsedBy(ts, chosen) == UsedBy(ts, keep) && keep <= chosen
            && (forall c :: c in UsedBy(ts, chosen) ==> c in cores)
            && forall t :: t in keep ==> t in ts && ts[t].core.Some?
  {
  }

  lemma CountRest<T>(a: set<T>, b: set<T>)
    requires a <= b
    ensures |b| == |a| + |b - a|
  {
    assert b == a + (b - a);
  }

  lemma SelectionCount(n: nat, ts: Threads, chosen: set<Id>)
    requires Selection(n, ts, chosen)
    ensures |chosen| <= n && (chosen != Runnable(ts) ==> |chosen| == n)
  {
    if chosen != Runnable(ts) {
      Smaller(chosen, Runnable(ts));
    }
  }

  lemma Smaller<T>(a: set<T>, b: set<T>)
    requires a <= b && a != b
    ensures |a| < |b|
  {
    assert b == a + (b - a) && |b - a| > 0;
  }

  /** What placing does to every thread: the first `k` newcomers get their cores, whoever was on these leaves. */
  ghost predicate Placed(ts: Threads, newcomers: seq<Id>, free: seq<nat>, k: nat, m: Metric, ts': Threads)
    requires k <= |newcomers| && k <= |free|
  {
    && ts'.Keys == ts.Keys
    && (forall i :: 0 <= i < k ==> newcomers[i] in ts && ts'[newcomers[i]] == ts[newcomers[i]].(core := Some(free[i])))
    && forall t :: t in ts && t !in newcomers[..k] ==>
         ts'[t] == if ts[t].core.Some? && ts[t].core.value in free[..k] then SetCore(ts[t], None, m(t)) else ts[t]
  }

  ghost predicate Waiters(ts: Threads, newcomers: seq<Id>) {
    forall i :: 0 <= i < |newcomers| ==> newcomers[i] in ts && ts[newcomers[i]].core.None?
  }

  lemma {:induction false} PlaceShape(ts: Threads, newcomers: seq<Id>, free: seq<nat>, m: Metric, steps: seq<Threads>,
                                      k: nat)
    requires Placement(ts, newcomers, free, m, steps) && k <= |newcomers| && Exclusive(ts)
    requires Distinct(free) && Distinct(newcomers) && Waiters(ts, newcomers)
    ensures Placed(ts, newcomers, free, k, m, steps[k])
  {
    hide Placed, PlacedOne, Distinct, Exclusive, Waiters;
    if k == 0 {
      PlaceNone(ts, newcomers, free, m);
    } else {
      PlaceShape(ts, newcomers, free, m, steps, k - 1);
      assert PlacedOne(steps[k - 1], newcomers[k - 1], free[k - 1], m, steps[k]);
      PlaceNext(ts, newcomers, free, k - 1, m, steps[k - 1], steps[k]);
    }
  }

  lemma PlaceNone(ts: Threads, newcomers: seq<Id>, free: seq<nat>, m: Metric)
    ensures Placed(ts, newcomers, free, 0, m, ts)
  {
  }

  /** Before the next placement at most one thread is on the core: the one that was on it at the start. */
  lemma OneOnCore(ts: Threads, newcomers: seq<Id>, free: seq<nat>, k: nat, m: Metric, now: Threads, t: Id)
    requires k < |newcomers| && k < |free| && Distinct(free) && Placed(ts, newcomers, free, k, m, now)
    requires t in now && now[t].core == Some(free[k])
    ensures t in ts && t !in newcomers[..k] && ts[t].core == Some(free[k])
  {
    forall i | 0 <= i < k
      ensures newcomers[i] != t
    {
      assert free[i] != free[k];
    }
  }

  /** What one placement does to one thread, when at most one thread is on the core. */
  lemma PlaceOneAt(now: Threads, id: Id, c: nat, m: Metric, next: Threads, t: Id)
    requires PlacedOne(now, id, c, m, next) && t in now && now[id].core.None?
    requires forall a, b :: a in now && b in now && now[a].core == Some(c) == now[b].core ==> a == b
    ensures next.Keys == now.Keys && next[t] ==
      if t == id then now[t].(core := Some(c))
      else if now[t].core == Some(c) then SetCore(now[t], None, m(t)) else now[t]
  {
    var v :| Occupant(now, c, v) && next == MovedTo(Evicted(now, v, m), id, c, m);
  }

  lemma PlaceNext(ts: Threads, newcomers: seq<Id>, free: seq<nat>, k: nat, m: Metric, now: Threads, next: Threads)
    requires k < |newcomers| && k < |free| && Placed(ts, newcomers, free, k, m, now) && Exclusive(ts)
    requires Distinct(free) && Distinct(newcomers) && Waiters(ts, newcomers)
    requires PlacedOne(now, newcomers[k], free[k], m, next)
    ensures Placed(ts, newcomers, free, k + 1, m, next)
  {
    var id, c := newcomers[k], free[k];
    assert id !in newcomers[..k] && now[id] == ts[id];
    forall a, b | a in now && b in now && now[a].core == Some(c) == now[b].core
      ensures a == b
    {
      OneOnCore(ts, newcomers, free, k, m, now, a);
      OneOnCore(ts, newcomers, free, k, m, now, b);
    }
    PlaceOneAt(now, id, c, m, next, id);
    forall i | 0 <= i < k + 1
      ensures next[newcomers[i]] == ts[newcomers[i]].(core := Some(free[i]))
    {
      assert i < k ==> newcomers[i] != id && free[i] != c;
      PlaceOneAt(now, id, c, m, next, newcomers[i]);
    }
    hide PlacedOne, Exclusive;
    forall t | t in ts && t !in newcomers[..k + 1]
      ensures next[t] ==
        if ts[t].core.Some? && ts[t].core.value in free[..k + 1] then SetCore(ts[t], None, m(t)) else ts[t]
    {
      PlaceOneAt(now, id, c, m, next, t);
      PlaceOther(ts, newcomers, free, k, m, now, t);
    }
  }

  /** A thread that is not placed, before and after one placement. */
  lemma PlaceOther(ts: Threads, newcomers: seq<Id>, free: seq<nat>, k: nat, m: Metric, now: Threads, t: Id)
    requires k < |newcomers| && k < |free| && Distinct(free) && Placed(ts, newcomers, free, k, m, now)
    requires t in ts && t !in newcomers[..k + 1]
    ensures t != newcomers[k] && t in now
    ensures (if now[t].core == Some(free[k]) then SetCore(now[t], None, m(t)) else now[t]) ==
      if ts[t].core.Some? && ts[t].core.value in free[..k + 1] then SetCore(ts[t], None, m(t)) else ts[t]
  {
    assert free[..k + 1] == free[..k] + [free[k]] && free[k] !in free[..k];
    assert newcomers[..k + 1] == newcomers[..k] + [newcomers[k]];
    assert t !in newcomers[..k];
  }

  /** In whatever state it starts, a placement leaves runnable threads on known cores. */
  lemma {:induction false} PlaceRunning(cores: seq<nat>, ts: Threads, newcomers: seq<Id>, free: seq<nat>, m: Metric,
                                        steps: seq<Threads>, k: nat)
    requires Placement(ts, newcomers, free, m, steps) && k <= |newcomers| && Running(cores, ts)
    requires forall i :: 0 <= i < |newcomers| ==> newcomers[i] in ts && ts[newcomers[i]].runnable && free[i] in cores
    ensures Running(cores, steps[k]) && steps[k].Keys == ts.Keys && Runnable(steps[k]) == Runnable(ts)
  {
    if k > 0 {
      PlaceRunning(cores, ts, newcomers, free, m, steps, k - 1);
      assert PlacedOne(steps[k - 1], newcomers[k - 1], free[k - 1], m, steps[k]);
      assert newcomers[k - 1] in Runnable(ts);
      RunningOne(cores, steps[k - 1], newcomers[k - 1], free[k - 1], m, steps[k]);
    }
  }

  lemma RunningOne(cores: seq<nat>, now: Threads, id: Id, c: nat, m: Metric, next: Threads)
    requires PlacedOne(now, id, c, m, next) && Running(cores, now) && now[id].runnable && c in cores
    ensures Running(cores, next) && next.Keys == now.Keys && Runnable(next) == Runnable(now)
  {
    var v :| Occupant(now, c, v) && next == MovedTo(Evicted(now, v, m), id, c, m);
    hide Occupant;
    assert forall t :: t in now ==> next[t].runnable == now[t].runnable;
    assert forall t :: t in Runnable(next) <==> t in Runnable(now);
  }

  function OnCore(ts: Threads): set<Id> {
    set t | t in ts && ts[t].core.Some?
  }

  lemma RescoredSame(cores: seq<nat>, ts: Threads, m: Metric)
    requires Running(cores, ts)
    ensures var ts1 := Rescored(ts, m);
            && ts1.Keys == ts.Keys && Runnable(ts1) == Runnable(ts)
            && Running(cores, ts1) && (Exclusive(ts) ==> Exclusive(ts1))
            && forall t :: t in ts ==> ts1[t].core == ts[t].core && (ts[t].core.Some? ==> ts1[t].last == m(t))
  {
    assert forall t :: t in Runnable(ts) <==> t in Runnable(Rescored(ts, m));
  }

  lemma NewcomersWait(n: nat, ts: Threads, chosen: set<Id>, newcomers: seq<Id>)
    requires Selection(n, ts, chosen) && Enumerates(newcomers, chosen - Keepers(ts, chosen))
    ensures Distinct(newcomers) && Waiters(ts, newcomers)
    ensures forall i :: 0 <= i < |newcomers| ==> newcomers[i] in ts && ts[newcomers[i]].runnable
  {
    forall i | 0 <= i < |newcomers|
      ensures newcomers[i] in ts && ts[newcomers[i]].core.None? && ts[newcomers[i]].runnable
    {
      assert newcomers[i] in newcomers;
      assert newcomers[i] in Runnable(ts);
    }
  }

  /** After a placement the chosen threads are the ones on cores. */
  lemma PlacedChosen(cores: seq<nat>, ts: Threads, m: Metric, chosen: set<Id>, newcomers: seq<Id>, ts': Threads)
    requires Exclusive(ts) && Running(cores, ts) && Selection(|cores|, ts, chosen)
    requires Enumerates(newcomers, chosen - Keepers(ts, chosen))
    requires var free := FreeCores(cores, UsedBy(ts, chosen));
             && |newcomers| <= |free| && (chosen != Runnable(ts) ==> |newcomers| == |free|)
             && Placed(ts, newcomers, free, |newcomers|, m, ts')
    ensures JustOn(ts, chosen, m, ts')
  {
    var free := FreeCores(cores, UsedBy(ts, chosen));
    assert newcomers[..|newcomers|] == newcomers;
    forall t | t in ts
      ensures ts'[t].runnable == ts[t].runnable && (ts'[t].core.Some? <==> t in chosen)
      ensures t in chosen ==> ts'[t] == ts[t].(core := ts'[t].core) && (ts[t].core.Some? ==> ts'[t] == ts[t])
      ensures t !in chosen && ts[t].core.Some? ==> ts'[t] == SetCore(ts[t], None, m(t))
      ensures t !in chosen && ts[t].core.None? ==> ts'[t] == ts[t]
    {
      if t in newcomers {
        assert t in chosen - Keepers(ts, chosen);
      } else if t in chosen {
        assert t in Keepers(ts, chosen);
        assert ts[t].core.value in UsedBy(ts, chosen);
        assert ts[t].core.value !in free[..|newcomers|];
      } else if ts[t].core.Some? {
        LeftOut(cores, ts, chosen, t);
        assert free[..|newcomers|] == free;
      }
    }
  }

  lemma PlacedExclusive(cores: seq<nat>, ts: Threads, m: Metric, chosen: set<Id>, newcomers: seq<Id>, ts': Threads)
    requires Exclusive(ts) && Running(cores, ts) && Selection(|cores|, ts, chosen)
    requires Enumerates(newcomers, chosen - Keepers(ts, chosen)) && JustOn(ts, chosen, m, ts')
    requires var free := FreeCores(cores, UsedBy(ts, chosen));
             && Distinct(free) && |newcomers| <= |free| && Placed(ts, newcomers, free, |newcomers|, m, ts')
    ensures Exclusive(ts') && Running(cores, ts')
  {
    var free := FreeCores(cores, UsedBy(ts, chosen));
    forall a | a in ts && ts'[a].core.Some?
      ensures ts'[a].runnable && ts'[a].core.value in cores
      ensures if a in newcomers
              then exists i :: 0 <= i < |newcomers| && newcomers[i] == a && ts'[a].core == Some(free[i])
              else ts'[a].core == ts[a].core && ts'[a].core.value in UsedBy(ts, chosen)
    {
      assert a in chosen && a in Runnable(ts);
      if a in newcomers {
        var i :| 0 <= i < |newcomers| && newcomers[i] == a;
        assert free[i] in free;
      } else {
        assert a in Keepers(ts, chosen);
      }
    }
    forall a, b | a in ts && b in ts && a != b && ts'[a].core.Some?
      ensures ts'[a].core != ts'[b].core
    {
      if a in newcomers && b in newcomers {
        var i :| 0 <= i < |newcomers| && newcomers[i] == a && ts'[a].core == Some(free[i]);
        var j :| 0 <= j < |newcomers| && newcomers[j] == b && ts'[b].core == Some(free[j]);
        assert i < j || j < i;
      }
    }
  }

  /** While cores are being handed out every runnable thread has one, so every one is chosen and stays. */
  lemma AllChosen(cores: seq<nat>, s: State, m: Metric, chosen: set<Id>, s': State)
    requires Early(cores, s) && s'.lastCore == s.lastCore
    requires var ts := Rescored(s.threads, m);
             && ts.Keys == s.threads.Keys && Runnable(ts) == Runnable(s.threads)
             && (forall t :: t in ts ==> ts[t].core == s.threads[t].core)
             && Selection(|cores|, ts, chosen) && JustOn(ts, chosen, m, s'.threads)
    requires Distinct(cores) && Exclusive(s.threads) && Running(cores, s.threads)
    ensures Early(cores, s')
  {
    if s.lastCore < |cores| {
      var ts, all := s.threads, Runnable(s.threads);
      UsedCount(ts, all);
      FreeCoresCount(cores, UsedBy(ts, all));
      if chosen != all {
        Smaller(chosen, all);
      }
    }
  }

  /** A thread that is on a core but not chosen is on a core that will be given away. */
  lemma LeftOut(cores: seq<nat>, ts: Threads, chosen: set<Id>, t: Id)
    requires Exclusive(ts) && Running(cores, ts) && Selection(|cores|, ts, chosen)
    requires t in ts && t !in chosen && ts[t].core.Some?
    ensures t in Runnable(ts) && ts[t].core.value in FreeCores(cores, UsedBy(ts, chosen))
  {
    forall u | u in chosen && ts[u].core.Some?
      ensures ts[u].core.value != ts[t].core.value
    {
      assert u != t;
    }
  }

  /** The threads on cores are runnable threads, as many as there are, up to the number of cores; no runnable thread
      left off has a smaller score than one on a core; and a thread on a core that had one before is still on it. */
  ghost predicate Selected(cores: seq<nat>, ts: Threads, ts': Threads) {
    && ts'.Keys == ts.Keys && Runnable(ts') == Runnable(ts)
    && OnCore(ts') <= Runnable(ts') && |OnCore(ts')| == Min(|Runnable(ts)|, |cores|)
    && (forall a, b :: a in OnCore(ts') && b in Runnable(ts') - OnCore(ts') ==> ts'[a].score <= ts'[b].score)
    && (forall t :: t in OnCore(ts') && ts[t].core.Some? ==> ts'[t].core == ts[t].core)
  }

  /** SELECTION. What the periodic hook does from any state with exclusive cores. */
  lemma PeriodicSelects(cores: seq<nat>, s: State, m: Metric, chosen: set<Id>, newcomers: seq<Id>, steps: seq<Threads>,
                        s': State)
    requires Distinct(cores) && Running(cores, s.threads) && Exclusive(s.threads)
    requires Rescheduled(cores, s, m, chosen, newcomers, steps, s')
    ensures Selected(cores, s.threads, s'.threads) && OnCore(s'.threads) == chosen
  {
    hide Rescored, Exclusive, Running, Selection, Rescheduled;
    AfterPeriodic(cores, s, m, chosen, newcomers, steps, s');
    ScoresKept(|cores|, Rescored(s.threads, m), m, chosen, s'.threads);
  }

  /** `ts'` is `ts` with just the chosen threads on cores, those among them that had one on the same. */
  ghost predicate JustOn(ts: Threads, chosen: set<Id>, m: Metric, ts': Threads) {
    && ts'.Keys == ts.Keys
    && forall t :: t in ts ==>
      && ts'[t].runnable == ts[t].runnable && (ts'[t].core.Some? <==> t in chosen)
      && (t in chosen ==> ts'[t] == ts[t].(core := ts'[t].core) && (ts[t].core.Some? ==> ts'[t] == ts[t]))
      && (t !in chosen && ts[t].core.Some? ==> ts'[t] == SetCore(ts[t], None, m(t)))
      && (t !in chosen && ts[t].core.None? ==> ts'[t] == ts[t])
  }

  lemma ScoresKept(n: nat, ts: Threads, m: Metric, chosen: set<Id>, ts': Threads)
    requires Selection(n, ts, chosen) && JustOn(ts, chosen, m, ts')
    requires forall t :: t in ts && ts[t].core.Some? ==> ts[t].last == m(t)
    ensures Runnable(ts') == Runnable(ts) && OnCore(ts') == chosen
    ensures chosen <= Runnable(ts') && |chosen| == Min(|Runnable(ts)|, n)
    ensures forall a, b :: a in chosen && b in Runnable(ts') - chosen ==> ts'[a].score <= ts'[b].score
  {
    assert forall t :: t in ts ==> ts'[t].score == ts[t].score;
    assert forall t :: t in chosen ==> t in Runnable(ts);
  }

  lemma AfterPeriodic(cores: seq<nat>, s: State, m: Metric, chosen: set<Id>, newcomers: seq<Id>, steps: seq<Threads>,
                      s': State)
    requires Distinct(cores) && Running(cores, s.threads) && Exclusive(s.threads)
    requires Rescheduled(cores, s, m, chosen, newcomers, steps, s')
    ensures var ts := Rescored(s.threads, m);
            && ts.Keys == s.threads.Keys && Runnable(ts) == Runnable(s.threads)
            && (forall t :: t in ts ==> ts[t].core == s.threads[t].core && (ts[t].core.Some? ==> ts[t].last == m(t)))
            && Selection(|cores|, ts, chosen) && JustOn(ts, chosen, m, s'.threads)
            && Exclusive(s'.threads) && s'.lastCore == s.lastCore
  {
    hide Rescored, Exclusive, Running, Selection, FreeCores, Placement, Placed, Waiters, Enumerates, JustOn, Distinct;
    var ts := Rescored(s.threads, m);
    var free := FreeCores(cores, UsedBy(ts, chosen));
    RescoredSame(cores, s.threads, m);
    EnoughCores(cores, ts, chosen, newcomers);
    NewcomersWait(|cores|, ts, chosen, newcomers);
    PlaceShape(ts, newcomers, free, m, steps, |newcomers|);
    PlacedChosen(cores, ts, m, chosen, newcomers, s'.threads);
    PlacedExclusive(cores, ts, m, chosen, newcomers, s'.threads);
  }

  /** The periodic hook keeps exclusive cores exclusive, and every thread in place while cores are handed out. */
  lemma PeriodicKeeps(cores: seq<nat>, s: State, m: Metric, chosen: set<Id>, newcomers: seq<Id>, steps: seq<Threads>,
                      s': State)
    requires Distinct(cores) && Sound(cores, s) && Rescheduled(cores, s, m, chosen, newcomers, steps, s')
    ensures Sound(cores, s') && (Exclusive(s.threads) ==> Exclusive(s'.threads))
    ensures Exclusive(s.threads) && Early(cores, s) ==> Early(cores, s')
  {
    hide Rescored, Exclusive, Selection, Placement, Enumerates, Running, Early, JustOn;
    PeriodicSound(cores, s, m, chosen, newcomers, steps, s');
    if Exclusive(s.threads) {
      AfterPeriodic(cores, s, m, chosen, newcomers, steps, s');
      if Early(cores, s) {
        AllChosen(cores, s, m, chosen, s');
      }
    }
  }

  /** Even from a state where threads share a core. */
  lemma PeriodicSound(cores: seq<nat>, s: State, m: Metric, chosen: set<Id>, newcomers: seq<Id>, steps: seq<Threads>,
                      s': State)
    requires Running(cores, s.threads) && Rescheduled(cores, s, m, chosen, newcomers, steps, s')
    ensures Running(cores, s'.threads) && s'.lastCore == s.lastCore
  {
    hide Rescored, Running, Selection, Enumerates;
    var ts := Rescored(s.threads, m);
    var free := FreeCores(cores, UsedBy(ts, chosen));
    RescoredSame(cores, s.threads, m);
    NewcomersWait(|cores|, ts, chosen, newcomers);
    assert forall i :: 0 <= i < |newcomers| ==> free[i] in free;
    PlaceRunning(cores, ts, newcomers, free, m, steps, |newcomers|);
  }

  // ----- whole runs

  /** A resume that is not the echo of being scheduled out. */
  predicate Resumes(s: State, e: Event) {
    e.Resume? && e.id in s.threads && !s.threads[e.id].unscheduled
  }

  /** Every event leaves runnable threads on known cores; every event but a start onto a used core keeps exclusive
      cores exclusive; and every event but an early resume keeps threads in place while cores are handed out. */
  lemma StepKeeps(cores: seq<nat>, s: State, e: Event, m: Metric, s': State)
    requires Distinct(cores) && Sound(cores, s) && Step(cores, s, e, m, s')
    ensures Sound(cores, s') && s'.lastCore == if e.Start? then Min(s.lastCore + 1, |cores|) else s.lastCore
    ensures Exclusive(s.threads) ==> (Exclusive(s'.threads) <==> (e.Start? ==> Unshared(cores, s, e.id)))
    ensures Exclusive(s.threads) && Early(cores, s) && (Resumes(s, e) ==> s.lastCore == |cores|) ==>
      Early(cores, s') && (e.Start? ==> Unshared(cores, s, e.id))
  {
    hide Running, Exclusive, Early, Stalled, MovedIn, Rescheduled, Unshared;
    match e
    case Start(id) =>
      StartKeeps(cores, s, id, m);
      if Exclusive(s.threads) {
        StartExclusive(cores, s, id, m);
      }
    case Stall(id, unscheduled) =>
      if unscheduled {
        FlagKeeps(cores, s, id, true);
      } else {
        StallStays(s, id, m, s');
        StallKeeps(cores, s, id, m, s');
      }
    case Exit(id) =>
      StallStays(s, id, m, s');
      StallKeeps(cores, s, id, m, s');
    case Resume(id) => ResumeKeeps(cores, s, id, m, s');
    case Periodic =>
      var chosen, newcomers, steps :| Rescheduled(cores, s, m, chosen, newcomers, steps, s');
      PeriodicKeeps(cores, s, m, chosen, newcomers, steps, s');
      PeriodicStays(cores, s, m, chosen, newcomers, steps, s');
  }

  lemma StallStays(s: State, id: Id, m: Metric, s': State)
    requires Stalled(s, id, m, s')
    ensures s'.lastCore == s.lastCore
  {
  }

  lemma PeriodicStays(cores: seq<nat>, s: State, m: Metric, chosen: set<Id>, newcomers: seq<Id>, steps: seq<Threads>,
                      s': State)
    requires Rescheduled(cores, s, m, chosen, newcomers, steps, s')
    ensures s'.lastCore == s.lastCore
  {
    hide Selection, Placement;
  }

  lemma FlagKeeps(cores: seq<nat>, s: State, id: Id, flag: bool)
    requires Sound(cores, s) && id in s.threads
    ensures var s' := s.(threads := s.threads[id := s.threads[id].(unscheduled := flag)]);
            Sound(cores, s') && (Exclusive(s.threads) ==> Exclusive(s'.threads))
            && (Early(cores, s) ==> Early(cores, s'))
  {
  }

  /** A run of the scheduler from its setup. */
  ghost predicate Run(cores: seq<nat>, es: seq<Event>, ms: seq<Metric>, states: seq<State>) {
    && |ms| == |es| && |states| == |es| + 1 && states[0] == State(map[], 0)
    && forall i :: 0 <= i < |es| ==> Step(cores, states[i], es[i], ms[i], states[i + 1])
  }

  lemma RunStep(cores: seq<nat>, es: seq<Event>, ms: seq<Metric>, states: seq<State>, i: nat)
    requires Run(cores, es, ms, states) && i < |es|
    ensures |ms| == |es| && |states| == |es| + 1 && Step(cores, states[i], es[i], ms[i], states[i + 1])
  {
    hide Step;
  }

  lemma RunBegins(cores: seq<nat>, es: seq<Event>, ms: seq<Metric>, states: seq<State>)
    requires Run(cores, es, ms, states)
    ensures |ms| == |es| && |states| == |es| + 1 && states[0] == State(map[], 0)
    ensures Sound(cores, states[0]) && Exclusive(states[0].threads) && Early(cores, states[0])
  {
    hide Step;
  }

  function Starts(es: seq<Event>, n: nat): nat
    requires n <= |es|
  {
    if n == 0 then 0 else Starts(es, n - 1) + if es[n - 1].Start? then 1 else 0
  }

  /** In every run, whatever its events: threads on a core are runnable and on one of the cores, and as many cores have
      been handed out as threads have started, up to all of them. */
  lemma {:induction false} RunSound(cores: seq<nat>, es: seq<Event>, ms: seq<Metric>, states: seq<State>, n: nat)
    requires Distinct(cores) && Run(cores, es, ms, states) && n <= |es|
    ensures Sound(cores, states[n]) && states[n].lastCore == Min(Starts(es, n), |cores|)
  {
    hide Sound, Step, Run;
    if n == 0 {
      RunBegins(cores, es, ms, states);
    } else {
      RunSound(cores, es, ms, states, n - 1);
      RunStep(cores, es, ms, states, n - 1);
      StepKeeps(cores, states[n - 1], es[n - 1], ms[n - 1], states[n]);
      SoundBound(cores, states[n - 1]);
    }
  }

  lemma SoundBound(cores: seq<nat>, s: State)
    requires Sound(cores, s)
    ensures s.lastCore <= |cores|
  {
  }

  /** THE ASSERTION NEVER FAILS. In every state of every run there is a free core for every newcomer, whatever is
      selected, even where threads share a core. */
  lemma RunAsserts(cores: seq<nat>, es: seq<Event>, ms: seq<Metric>, states: seq<State>, n: nat, m: Metric,
                   chosen: set<Id>, newcomers: seq<Id>)
    requires Distinct(cores) && Run(cores, es, ms, states) && n <= |es|
    requires var ts := Rescored(states[n].threads, m);
             Selection(|cores|, ts, chosen) && Enumerates(newcomers, chosen - Keepers(ts, chosen))
    ensures |newcomers| <= |FreeCores(cores, UsedBy(Rescored(states[n].threads, m), chosen))|
  {
    hide Step, Selection, Enumerates, FreeCores, Rescored;
    RunSound(cores, es, ms, states, n);
    RescoredSame(cores, states[n].threads, m);
    EnoughCores(cores, Rescored(states[n].threads, m), chosen, newcomers);
  }

  ghost predicate ExclusiveUpTo(states: seq<State>, n: nat)
    requires n < |states|
  {
    forall i :: 0 <= i <= n ==> Exclusive(states[i].threads)
  }

  ghost predicate StartsUnshared(cores: seq<nat>, es: seq<Event>, states: seq<State>, n: nat)
    requires n <= |es| < |states|
  {
    forall i :: 0 <= i < n && es[i].Start? ==> Unshared(cores, states[i], es[i].id)
  }

  /** EXCLUSIVITY. In every run, no two threads ever share a core if and only if no thread starts onto a core that
      another thread is on. */
  lemma {:induction false} RunExclusive(cores: seq<nat>, es: seq<Event>, ms: seq<Metric>, states: seq<State>, n: nat)
    requires Distinct(cores) && Run(cores, es, ms, states) && n <= |es|
    ensures ExclusiveUpTo(states, n) <==> StartsUnshared(cores, es, states, n)
  {
    hide Sound, Step, Exclusive, Unshared, Run;
    RunBegins(cores, es, ms, states);
    if n > 0 {
      hide ExclusiveUpTo, StartsUnshared;
      RunExclusive(cores, es, ms, states, n - 1);
      RunSound(cores, es, ms, states, n - 1);
      RunStep(cores, es, ms, states, n - 1);
      StepKeeps(cores, states[n - 1], es[n - 1], ms[n - 1], states[n]);
      UpToNext(states, n);
      UnsharedNext(cores, es, states, n);
    }
  }

  lemma UpToNext(states: seq<State>, n: nat)
    requires 0 < n < |states|
    ensures ExclusiveUpTo(states, n) <==> ExclusiveUpTo(states, n - 1) && Exclusive(states[n].threads)
    ensures ExclusiveUpTo(states, n - 1) ==> Exclusive(states[n - 1].threads)
  {
    hide Exclusive;
  }

  lemma UnsharedNext(cores: seq<nat>, es: seq<Event>, states: seq<State>, n: nat)
    requires 0 < n <= |es| < |states|
    ensures StartsUnshared(cores, es, states, n) <==>
      StartsUnshared(cores, es, states, n - 1) && (es[n - 1].Start? ==> Unshared(cores, states[n - 1], es[n - 1].id))
  {
    hide Unshared;
  }

  /** No thread resumes before the first `|cores|` starts. */
  ghost predicate Patient(cores: seq<nat>, es: seq<Event>, states: seq<State>)
    requires |states| == |es| + 1
  {
    forall i :: 0 <= i < |es| && Resumes(states[i], es[i]) ==> Starts(es, i) >= |cores|
  }

  /** So it is when no thread resumes before the first `|cores|` starts. */
  lemma {:induction false} PatientRun(cores: seq<nat>, es: seq<Event>, ms: seq<Metric>, states: seq<State>, n: nat)
    requires Distinct(cores) && Run(cores, es, ms, states) && Patient(cores, es, states) && n <= |es|
    ensures Exclusive(states[n].threads) && Early(cores, states[n]) && StartsUnshared(cores, es, states, n)
  {
    hide Sound, Step, Exclusive, Unshared, Early, Run;
    if n == 0 {
      RunBegins(cores, es, ms, states);
    } else {
      hide StartsUnshared;
      PatientRun(cores, es, ms, states, n - 1);
      RunSound(cores, es, ms, states, n - 1);
      RunStep(cores, es, ms, states, n - 1);
      StepKeeps(cores, states[n - 1], es[n - 1], ms[n - 1], states[n]);
      UnsharedNext(cores, es, states, n);
    }
  }

  /** A run that the script takes in which two threads share a core: with cores 1 and 8, a thread stalls and resumes
      before the second start. The set of the two free cores lists 8 first, and 8 is then handed to the second
      thread. */
  lemma EarlyResumeShares(m: Metric) returns (es: seq<Event>, states: seq<State>)
    ensures |es| == 4 && |states| == 5 && Run([1, 8], es, [m, m, m, m], states) && !Exclusive(states[4].threads)
    ensures es[2].Resume? && es[2].id in states[3].threads && states[3].threads[es[2].id].core == Some(8)
  {
    var a, b := Id(0), Id(1);
    var cores: seq<nat> := [1, 8];
    es := [Start(a), Stall(a, false), Resume(a), Start(b)];
    var s0 := State(map[], 0);
    var s1 := Started(cores, s0, a, m);
    var s2 := State(TakenOff(s1.threads, a, m), 1);
    var s3 := State(MovedTo(Woken(s2.threads, a, s2.threads[a].score, m), a, 8, m), 1);
    var s4 := Started(cores, s3, b, m);
    states := [s0, s1, s2, s3, s4];
    StallsQuietly(s1, a, m);
    WakesOn(cores, s2, a, 8, m);
    SharesAfter(cores, s3, a, b, m);
    hide Stalled, Resumed, Exclusive;
  }

  lemma StallsQuietly(s: State, id: Id, m: Metric)
    requires s.threads.Keys == {id}
    ensures Stalled(s, id, m, s.(threads := TakenOff(s.threads, id, m)))
  {
  }

  lemma WakesOn(cores: seq<nat>, s: State, id: Id, c: nat, m: Metric)
    requires s.threads.Keys == {id} && s.threads[id].core.None? && !s.threads[id].unscheduled && c in cores
    ensures Resumed(cores, s, id, m, s.(threads := MovedTo(Woken(s.threads, id, s.threads[id].score, m), id, c, m)))
  {
    var x := s.threads[id].score;
    assert LowestScore(s.threads, x);
    var up := Woken(s.threads, id, x, m);
    assert Free(cores, up, c);
    assert MovedIn(cores, up, id, m, MovedTo(up, id, c, m));
  }

  lemma SharesAfter(cores: seq<nat>, s: State, a: Id, b: Id, m: Metric)
    requires a in s.threads && a != b && s.lastCore < |cores| && s.threads[a].core == Some(cores[s.lastCore])
    ensures !Exclusive(Started(cores, s, b, m).threads)
  {
    var ts := Started(cores, s, b, m).threads;
    assert a in ts && b in ts && ts[a].core == ts[b].core;
  }
}
