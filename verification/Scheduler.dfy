/** The locality scheduler as objects: threads whose fields the hooks update in place. */
module Scheduler {
  import opened Basics
  import opened Scheduling

  class ThreadObject {
    var core: Option<nat>
    var runnable: bool
    var unscheduled: bool
    var score: int
    var last: int

    constructor ()
      ensures View() == NewThread()
    {
      core, runnable, unscheduled, score, last := None, false, false, 0, 0;
    }

    function View(): Thread
      reads this
    {
      Thread(core, runnable, unscheduled, score, last)
    }

    method AddMetric(now: int)
      modifies this
      ensures View() == UpdateScore(old(View()), now)
    {
      score := score + (now - last);
      last := now;
    }

    method ResetScore(score: int, now: int)
      modifies this
      ensures View() == SetScore(old(View()), score, now)
    {
      this.score := score;
      last := now;
    }

    method Move(core: Option<nat>, now: int)
      modifies this
      ensures View() == SetCore(old(View()), core, now)
    {
      this.core := core;
      if core.None? {
        AddMetric(now);
      }
    }

    method SetRunnable(b: bool)
      modifies this
      ensures View() == old(View()).(runnable := b)
    {
      runnable := b;
    }

    method SetUnscheduled(b: bool)
      modifies this
      ensures View() == old(View()).(unscheduled := b)
    {
      unscheduled := b;
    }
  }

  /** A new thread, runnable and on the core it is given. */
  method StartedThread(core: Option<nat>, now: int) returns (thread: ThreadObject)
    ensures fresh(thread) && thread.View() == SetCore(NewThread().(runnable := true), core, now)
  {
    thread := new ThreadObject();
    thread.SetRunnable(true);
    thread.Move(core, now);
  }

  ghost predicate Sorted(ids: seq<Id>, ts: Threads) {
    && (forall i :: 0 <= i < |ids| ==> ids[i] in ts)
    && forall i, j :: 0 <= i < j < |ids| ==> ts[ids[i]].score <= ts[ids[j]].score
  }

  /** Sorting threads by their scores. */
  method SortByScore(ids: seq<Id>, ts: Threads) returns (r: seq<Id>)
    requires Distinct(ids) && forall i :: 0 <= i < |ids| ==> ids[i] in ts
    ensures Sorted(r, ts) && Distinct(r) && |r| == |ids| && forall x :: x in r <==> x in ids
  {
    r := [];
    for k := 0 to |ids|
      invariant Sorted(r, ts) && Distinct(r) && |r| == k && forall x :: x in r <==> x in ids[..k]
    {
      assert ids[..k + 1] == ids[..k] + [ids[k]] && ids[k] !in ids[..k];
      r := InsertByScore(r, ids[k], ts);
    }
    assert ids[..|ids|] == ids;
  }

  method InsertByScore(ids: seq<Id>, x: Id, ts: Threads) returns (r: seq<Id>)
    requires Sorted(ids, ts) && Distinct(ids) && x in ts && x !in ids
    ensures Sorted(r, ts) && Distinct(r) && |r| == |ids| + 1 && forall y :: y in r <==> y == x || y in ids
  {
    var k := |ids|;
    while k > 0 && ts[ids[k - 1]].score > ts[x].score
      invariant 0 <= k <= |ids| && forall i :: k <= i < |ids| ==> ts[ids[i]].score > ts[x].score
    {
      k := k - 1;
    }
    r := InsertedAt(ids, k, x);
    InsertedSorted(ids, k, x, ts);
    InsertedMembers(ids, k, x);
  }

  function InsertedAt(ids: seq<Id>, k: nat, x: Id): (r: seq<Id>)
    requires k <= |ids|
    ensures |r| == |ids| + 1
    ensures forall i :: 0 <= i < |r| ==> r[i] == if i < k then ids[i] else if i == k then x else ids[i - 1]
  {
    ids[..k] + [x] + ids[k..]
  }

  lemma InsertedSorted(ids: seq<Id>, k: nat, x: Id, ts: Threads)
    requires k <= |ids| && Sorted(ids, ts) && x in ts
    requires k > 0 ==> ts[ids[k - 1]].score <= ts[x].score
    requires forall i :: k <= i < |ids| ==> ts[x].score < ts[ids[i]].score
    ensures Sorted(InsertedAt(ids, k, x), ts)
  {
    var r := InsertedAt(ids, k, x);
    hide InsertedAt;
    forall i, j | 0 <= i < j < |r|
      ensures r[i] in ts && r[j] in ts && ts[r[i]].score <= ts[r[j]].score
    {
      assert 0 < i < k ==> ts[ids[i]].score <= ts[ids[k - 1]].score;
    }
    assert k < |ids| ==> r[k] in ts && r[k + 1] in ts;
    assert k > 0 ==> r[0] in ts;
  }

  lemma InsertedMembers(ids: seq<Id>, k: nat, x: Id)
    requires k <= |ids| && Distinct(ids) && x !in ids
    ensures Distinct(InsertedAt(ids, k, x)) && forall y :: y in InsertedAt(ids, k, x) <==> y == x || y in ids
  {
    var r := InsertedAt(ids, k, x);
    hide InsertedAt;
    assert r[k] == x;
    forall y | y in ids
      ensures y in r
    {
      var i :| 0 <= i < |ids| && ids[i] == y;
      assert r[if i < k then i else i + 1] == y;
    }
  }

  class Locality {
    const cores: seq<nat>
    var threads: map<Id, ThreadObject>
    /** The keys of the dictionary in the order they were added. */
    var order: seq<Id>
    var lastCore: nat

    /** All cores, or those with a non-zero mask. */
    constructor (ncores: nat, mask: nat -> bool)
      ensures Valid() && State() == Scheduling.State(map[], 0)
      ensures Distinct(cores) && forall c: nat :: c in cores <==> c < ncores && mask(c)
    {
      var cs: seq<nat> := [];
      for c := 0 to ncores
        invariant Distinct(cs) && forall x: nat :: x in cs <==> x < c && mask(x)
      {
        if mask(c) {
          cs := cs + [c];
        }
      }
      cores := cs;
      threads, order, lastCore := map[], [], 0;
    }

    ghost predicate Valid()
      reads this`threads, this`order
    {
      && Enumerates(order, threads.Keys)
      && forall a, b :: a in threads && b in threads && a != b ==> threads[a] != threads[b]
    }

    function Views(): Threads
      reads this`threads, threads.Values
    {
      map t | t in threads :: threads[t].View()
    }

    ghost function State(): State
      reads this, threads.Values
    {
      Scheduling.State(Views(), lastCore)
    }

    // ----- one thread

    method MoveThread(id: Id, core: Option<nat>, m: Metric)
      requires Valid() && id in threads
      modifies threads.Values
      ensures Valid() && Views() == old(Views())[id := SetCore(old(Views())[id], core, m(id))]
    {
      threads[id].Move(core, m(id));
      assert id in threads.Keys;
    }

    method MarkRunnable(id: Id, b: bool)
      requires Valid() && id in threads
      modifies threads.Values
      ensures Valid() && Views() == old(Views())[id := old(Views())[id].(runnable := b)]
    {
      hide Enumerates;
      assert id in threads.Keys;
      threads[id].SetRunnable(b);
    }

    method MarkUnscheduled(id: Id, b: bool)
      requires Valid() && id in threads
      modifies threads.Values
      ensures Valid() && Views() == old(Views())[id := old(Views())[id].(unscheduled := b)]
    {
      hide Enumerates;
      assert id in threads.Keys;
      threads[id].SetUnscheduled(b);
    }

    /** `self.threads[id] = thread`, for a thread that is not in the dictionary. */
    method Install(id: Id, thread: ThreadObject)
      requires Valid() && thread !in threads.Values
      modifies this`threads, this`order
      ensures Valid() && threads == old(threads)[id := thread] && Views() == old(Views())[id := thread.View()]
    {
      if id !in threads {
        order := order + [id];
      }
      threads := threads[id := thread];
    }

    /** A thread starts: it gets the next core until they are exhausted. */
    method HookThreadStart(id: Id, m: Metric)
      requires Valid()
      modifies this
      ensures Valid() && State() == Started(cores, old(State()), id, m)
    {
      hide Valid, SetCore;
      var core := if lastCore < |cores| then Some(cores[lastCore]) else None;
      var thread := StartedThread(core, m(id));
      if lastCore < |cores| {
        lastCore := lastCore + 1;
      }
      Install(id, thread);
    }

    /** The threads that are runnable but have no core, in dictionary order. */
    method WaitingThreads() returns (r: seq<Id>)
      requires Valid()
      ensures Distinct(r) && forall x :: x in r <==> Waiting(Views(), x)
      ensures forall i :: 0 <= i < |r| ==> r[i] in Views()
    {
      r := [];
      for k := 0 to |order|
        invariant Distinct(r) && forall x :: x in r <==> x in order[..k] && Waiting(Views(), x)
      {
        var t := order[k];
        assert order[..k + 1] == order[..k] + [t] && t in order && t !in order[..k];
        if threads[t].runnable && threads[t].core.None? {
          r := r + [t];
        }
      }
      assert order[..|order|] == order;
      assert forall i :: 0 <= i < |r| ==> r[i] in r;
    }

    /** A thread stalls: unless it was only scheduled out, its core goes to the waiting thread with the lowest score. */
    method HookThreadStall(id: Id, unscheduled: bool, m: Metric)
      requires Valid() && id in threads
      modifies threads.Values
      ensures Valid() && Step(cores, old(State()), Stall(id, unscheduled), m, State())
    {
      hide Valid, Stalled;
      if unscheduled {
        MarkUnscheduled(id, true);
      } else {
        Release(id, m);
      }
    }

    method HookThreadExit(id: Id, m: Metric)
      requires Valid() && id in threads
      modifies threads.Values
      ensures Valid() && Step(cores, old(State()), Exit(id), m, State())
    {
      HookThreadStall(id, false, m);
    }

    method Release(id: Id, m: Metric)
      requires Valid() && id in threads
      modifies threads.Values
      ensures Valid() && Stalled(old(State()), id, m, State())
    {
      hide Valid, Waiting, SetCore, Sorted, Distinct, FirstWaiting;
      var core := threads[id].core;
      TakeOff(id, m);
      ghost var ts := Views();
      var waiting := WaitingThreads();
      if waiting != [] {
        var sorted := SortByScore(waiting, Views());
        var w := sorted[0];
        LowestFirst(ts, waiting, sorted);
        MoveThread(w, core, m);
      } else {
        forall x
          ensures !Waiting(ts, x)
        {
          assert x !in waiting;
        }
      }
    }

    method TakeOff(id: Id, m: Metric)
      requires Valid() && id in threads
      modifies threads.Values
      ensures Valid() && Views() == TakenOff(old(Views()), id, m)
    {
      hide Valid, SetCore;
      MoveThread(id, None, m);
      MarkRunnable(id, false);
    }

    /** The lowest score of all threads. */
    method MinScore() returns (x: int)
      requires Valid() && threads != map[]
      ensures LowestScore(Views(), x)
    {
      assert order != [] by {
        var t :| t in threads;
        assert t in order;
      }
      x := threads[order[0]].score;
      for k := 1 to |order|
        invariant exists i :: 0 <= i < k && threads[order[i]].score == x
        invariant forall i :: 0 <= i < k ==> x <= threads[order[i]].score
      {
        if threads[order[k]].score < x {
          x := threads[order[k]].score;
        }
      }
      ghost var k :| 0 <= k < |order| && threads[order[k]].score == x;
      assert order[k] in order && order[k] in Views();
      forall t | t in Views()
        ensures x <= Views()[t].score
      {
        assert t in order;
        var i :| 0 <= i < |order| && order[i] == t;
      }
    }

    /** The cores in use. */
    method UsedCores() returns (used: set<nat>)
      requires Valid()
      ensures forall c: nat :: c in used <==> InUse(Views(), c)
    {
      used := {};
      ghost var ts := Views();
      for k := 0 to |order|
        invariant forall c: nat :: c in used <==>
          exists i :: 0 <= i < k && order[i] in ts && ts[order[i]].core == Some(c)
      {
        assert order[k] in order;
        if threads[order[k]].core.Some? {
          used := used + {threads[order[k]].core.value};
        }
      }
      forall c: nat | InUse(ts, c)
        ensures c in used
      {
        var t :| t in ts && ts[t].core == Some(c);
        assert t in order;
      }
    }

    method Wake(id: Id, score: int, m: Metric)
      requires Valid() && id in threads
      modifies threads.Values
      ensures Valid() && Views() == Woken(old(Views()), id, score, m)
    {
      hide Enumerates;
      assert id in threads.Keys;
      threads[id].ResetScore(score, m(id));
      threads[id].SetRunnable(true);
    }

    /** A thread resumes: unless it was only scheduled back in, it starts again at the lowest score and moves to a
        free core if there is one. */
    method HookThreadResume(id: Id, m: Metric)
      requires Valid() && id in threads
      modifies threads.Values
      ensures Valid() && Step(cores, old(State()), Resume(id), m, State())
    {
      hide Valid, LowestScore, MovedIn, SetScore;
      ghost var s := State();
      if threads[id].unscheduled {
        ClearFlag(id);
      } else {
        var x := MinScore();
        Wake(id, x, m);
        TakeFreeCore(id, m);
      }
    }

    method ClearFlag(id: Id)
      requires Valid() && id in threads
      modifies threads.Values
      ensures Valid() && Views() == old(Views())[id := old(Views())[id].(unscheduled := false)]
    {
      hide Enumerates;
      assert id in threads.Keys;
      threads[id].SetUnscheduled(false);
    }

    method TakeFreeCore(id: Id, m: Metric)
      requires Valid() && id in threads
      modifies threads.Values
      ensures Valid() && MovedIn(cores, old(Views()), id, m, Views())
    {
      hide Valid, SetCore, InUse;
      var used := UsedCores();
      FreeIsUnused(cores, Views(), used);
      if exists c :: c in cores && c !in used {
        var c :| c in cores && c !in used;
        MoveThread(id, Some(c), m);
      }
    }

    // ----- the periodic hook

    /** Updates the scores of the threads on cores. */
    method UpdateScores(m: Metric)
      requires Valid()
      modifies threads.Values
      ensures Valid() && Views() == Rescored(old(Views()), m)
    {
      hide PartlyRescored, Rescored, UpdateScore;
      ghost var was := Views();
      PartlyNone(was, m);
      assert order[..0] == [];
      for k := 0 to |order|
        invariant Valid() && Views() == PartlyRescored(was, order[..k], m)
      {
        var t := order[k];
        assert order[..k + 1] == order[..k] + [t] && t in order && t !in order[..k];
        PartlyKeys(was, order[..k], m);
        PartlyMore(was, order[..k], t, m);
        if threads[t].core.Some? {
          UpdateThread(t, m);
        }
      }
      assert order[..|order|] == order;
      PartlyAll(was, order, m);
    }

    method UpdateThread(id: Id, m: Metric)
      requires Valid() && id in threads
      modifies threads.Values
      ensures Valid() && Views() == old(Views())[id := UpdateScore(old(Views())[id], m(id))]
    {
      hide Enumerates;
      assert id in threads.Keys;
      threads[id].AddMetric(m(id));
    }

    /** All runnable threads, in dictionary order. */
    method RunnableThreads() returns (r: seq<Id>)
      requires Valid()
      ensures Enumerates(r, Runnable(Views()))
    {
      r := [];
      for k := 0 to |order|
        invariant Distinct(r) && forall x :: x in r <==> x in order[..k] && x in Views() && Views()[x].runnable
      {
        var t := order[k];
        assert order[..k + 1] == order[..k] + [t] && t in order && t !in order[..k];
        if threads[t].runnable {
          r := r + [t];
        }
      }
      assert order[..|order|] == order;
    }

    /** The selected threads that have no core yet. */
    method Newcomers(selected: seq<Id>) returns (r: seq<Id>)
      requires Distinct(selected) && forall i :: 0 <= i < |selected| ==> selected[i] in threads
      ensures Distinct(r) && forall x :: x in r <==> x in selected && x in threads && threads[x].core.None?
    {
      r := [];
      for k := 0 to |selected|
        invariant Distinct(r) && forall x :: x in r <==> x in selected[..k] && x in threads && threads[x].core.None?
      {
        var t := selected[k];
        assert selected[..k + 1] == selected[..k] + [t] && t !in selected[..k];
        if threads[t].core.None? {
          r := r + [t];
        }
      }
      assert selected[..|selected|] == selected;
    }

    method CoresKept(selected: seq<Id>) returns (used: set<nat>)
      requires forall i :: 0 <= i < |selected| ==> selected[i] in threads
      ensures forall c: nat :: c in used <==> exists i :: 0 <= i < |selected| && threads[selected[i]].core == Some(c)
    {
      used := {};
      for k := 0 to |selected|
        invariant forall c: nat :: c in used <==> exists i :: 0 <= i < k && threads[selected[i]].core == Some(c)
      {
        if threads[selected[k]].core.Some? {
          used := used + {threads[selected[k]].core.value};
        }
      }
    }

    /** Takes the core from the first thread on it, if there is one. */
    method Evict(c: nat, m: Metric) returns (ghost v: Option<Id>)
      requires Valid()
      modifies threads.Values
      ensures Valid() && Occupant(old(Views()), c, v) && Views() == Evicted(old(Views()), v, m)
    {
      var k := 0;
      while k < |order| && threads[order[k]].core != Some(c)
        invariant 0 <= k <= |order| && forall i :: 0 <= i < k ==> threads[order[i]].core != Some(c)
      {
        k := k + 1;
      }
      if k < |order| {
        assert order[k] in order;
        v := Some(order[k]);
        MoveThread(order[k], None, m);
      } else {
        v := None;
        assert forall t :: t in Views() ==> t in order;
      }
    }

    /** The runnable threads with the lowest scores, one per core. */
    method SelectThreads() returns (selected: seq<Id>, ghost chosen: set<Id>)
      requires Valid()
      ensures Enumerates(selected, chosen) && Selection(|cores|, Views(), chosen)
      ensures Distinct(selected) && forall i :: 0 <= i < |selected| ==> selected[i] in threads
    {
      hide Valid, Selection, Enumerates, Sorted, Distinct;
      ghost var ts := Views();
      var runnable := RunnableThreads();
      Listed(ts, runnable);
      var sorted := SortByScore(runnable, Views());
      selected := sorted[..Min(|sorted|, |cores|)];
      chosen := FirstOf(sorted, |selected|);
      FirstAreSelection(ts, runnable, sorted, |cores|);
    }

    method UnusedCores(used: set<nat>) returns (free: seq<nat>)
      ensures free == FreeCores(cores, used)
    {
      free := [];
      var k := |cores|;
      while k > 0
        invariant 0 <= k <= |cores| && free == FreeCores(cores[k..], used)
      {
        k := k - 1;
        assert cores[k..][1..] == cores[k + 1..];
        if cores[k] !in used {
          free := [cores[k]] + free;
        }
      }
      assert cores[0..] == cores;
    }

    /** Moves a newcomer to a core, after taking it from a thread on it. */
    method PlaceNewcomer(id: Id, c: nat, m: Metric)
      requires Valid() && id in Views()
      modifies threads.Values
      ensures Valid() && PlacedOne(old(Views()), id, c, m, Views())
    {
      hide Valid, SetCore, Evicted, Occupant;
      ghost var v := Evict(c, m);
      MoveThread(id, Some(c), m);
    }

    /** The newcomers and the free cores, taken in pairs. */
    method PlaceNewcomers(newcomers: seq<Id>, free: seq<nat>, m: Metric) returns (ghost steps: seq<Threads>)
      requires Valid() && |newcomers| <= |free|
      requires forall i :: 0 <= i < |newcomers| ==> newcomers[i] in Views() && Views()[newcomers[i]].runnable
      modifies threads.Values
      ensures Valid() && Placement(old(Views()), newcomers, free, m, steps) && Views() == steps[|newcomers|]
    {
      hide Valid, PlacedOne;
      steps := [Views()];
      for k := 0 to |newcomers|
        invariant Valid() && |steps| == k + 1 && steps[0] == old(Views()) && steps[k] == Views()
        invariant forall i :: 0 <= i < k ==> PlacedOne(steps[i], newcomers[i], free[i], m, steps[i + 1])
        invariant forall i :: 0 <= i < |newcomers| ==> newcomers[i] in Views() && Views()[newcomers[i]].runnable
      {
        ghost var before := Views();
        PlaceNewcomer(newcomers[k], free[k], m);
        PlacedFlags(before, newcomers[k], free[k], m, Views());
        steps := steps + [Views()];
        assert threads[newcomers[k]].runnable by { assert Views()[newcomers[k]].runnable; }
      }
    }

    /** The periodic hook: its assertions hold in every state of every run, even where threads share a core; from a
        state with exclusive cores it selects as stated, and keeps them exclusive. */
    method HookPeriodic(m: Metric)
      requires Valid() && Distinct(cores) && Sound(cores, State())
      modifies threads.Values
      ensures Valid() && Step(cores, old(State()), Periodic, m, State()) && Sound(cores, State())
      ensures Exclusive(old(Views())) ==> Exclusive(Views()) && Selected(cores, old(Views()), Views())
    {
      hide Valid, Selection, Placement, Rescored, Exclusive, Running, Early, FreeCores, UsedBy, Enumerates, Selected;
      hide Waiters;
      ghost var s := State();
      UpdateScores(m);
      RescoredSame(cores, s.threads, m);
      ghost var ts, chosen := Views(), {};
      var newcomers, free;
      newcomers, free, chosen := Plan();
      EnoughCores(cores, ts, chosen, newcomers);
      assert |free| >= |newcomers|;
      NewcomersWait(|cores|, ts, chosen, newcomers);
      ghost var steps := PlaceNewcomers(newcomers, free, m);
      assert Rescheduled(cores, s, m, chosen, newcomers, steps, State());
      hide Rescheduled;
      PeriodicKeeps(cores, s, m, chosen, newcomers, steps, State());
      if Exclusive(s.threads) {
        PeriodicSelects(cores, s, m, chosen, newcomers, steps, State());
      }
    }

    /** The selected threads without a core, and the cores not kept by the others. */
    method Plan() returns (newcomers: seq<Id>, free: seq<nat>, ghost chosen: set<Id>)
      requires Valid()
      ensures Selection(|cores|, Views(), chosen) && Distinct(newcomers)
      ensures Enumerates(newcomers, chosen - Keepers(Views(), chosen))
      ensures free == FreeCores(cores, UsedBy(Views(), chosen))
    {
      hide Valid, Selection, FreeCores, UsedBy, Keepers;
      ghost var ts := Views();
      var selected;
      selected, chosen := SelectThreads();
      var used := CoresKept(selected);
      KeptIsUsed(ts, selected, chosen, used);
      free := UnusedCores(used);
      newcomers := Newcomers(selected);
      NewcomersOf(ts, selected, chosen, newcomers);
    }
  }

  ghost function FirstOf(ids: seq<Id>, k: nat): set<Id>
    requires k <= |ids|
  {
    set x | x in ids[..k]
  }

  lemma Listed(ts: Threads, runnable: seq<Id>)
    requires Enumerates(runnable, Runnable(ts))
    ensures Distinct(runnable) && forall i :: 0 <= i < |runnable| ==> runnable[i] in ts
  {
    assert forall i :: 0 <= i < |runnable| ==> runnable[i] in runnable;
  }

  lemma FirstAreSelection(ts: Threads, runnable: seq<Id>, sorted: seq<Id>, n: nat)
    requires Enumerates(runnable, Runnable(ts)) && Sorted(sorted, ts) && Distinct(sorted)
    requires forall x :: x in sorted <==> x in runnable
    ensures var k := Min(|sorted|, n);
            && Enumerates(sorted[..k], FirstOf(sorted, k)) && Selection(n, ts, FirstOf(sorted, k))
            && Distinct(sorted[..k]) && forall i :: 0 <= i < k ==> sorted[..k][i] in ts
  {
    var k := Min(|sorted|, n);
    var chosen := FirstOf(sorted, k);
    EnumerationCount(sorted, Runnable(ts));
    EnumerationCount(sorted[..k], chosen);
    assert forall x :: x in sorted[..k] ==> x in sorted;
    forall a, b | a in chosen && b in Runnable(ts) - chosen
      ensures ts[a].score <= ts[b].score
    {
      var i :| 0 <= i < k && sorted[i] == a;
      assert b in sorted;
      var j :| 0 <= j < |sorted| && sorted[j] == b;
    }
  }

  lemma KeptIsUsed(ts: Threads, selected: seq<Id>, chosen: set<Id>, used: set<nat>)
    requires Enumerates(selected, chosen) && forall i :: 0 <= i < |selected| ==> selected[i] in ts
    requires forall c: nat :: c in used <==> exists i :: 0 <= i < |selected| && ts[selected[i]].core == Some(c)
    ensures used == UsedBy(ts, chosen)
  {
    forall c: nat | c in used
      ensures c in UsedBy(ts, chosen)
    {
      var i :| 0 <= i < |selected| && ts[selected[i]].core == Some(c);
      assert selected[i] in selected && selected[i] in chosen;
    }
    forall c: nat | c in UsedBy(ts, chosen)
      ensures c in used
    {
      var t :| t in chosen && t in ts && ts[t].core == Some(c);
      assert t in selected;
    }
  }

  lemma NewcomersOf(ts: Threads, selected: seq<Id>, chosen: set<Id>, newcomers: seq<Id>)
    requires Enumerates(selected, chosen) && Distinct(newcomers)
    requires forall i :: 0 <= i < |selected| ==> selected[i] in ts
    requires forall x :: x in newcomers <==> x in selected && x in ts && ts[x].core.None?
    ensures Enumerates(newcomers, chosen - Keepers(ts, chosen))
  {
    forall x
      ensures x in newcomers <==> x in chosen - Keepers(ts, chosen)
    {
      assert x in chosen <==> x in selected;
      assert x in selected ==> x in ts;
    }
  }

  lemma PlacedFlags(ts: Threads, id: Id, c: nat, m: Metric, ts': Threads)
    requires PlacedOne(ts, id, c, m, ts')
    ensures ts'.Keys == ts.Keys && forall t :: t in ts ==> ts'[t].runnable == ts[t].runnable
  {
  }

  function PartlyRescored(ts: Threads, done: seq<Id>, m: Metric): Threads {
    map t | t in ts :: if t in done && ts[t].core.Some? then UpdateScore(ts[t], m(t)) else ts[t]
  }

  lemma PartlyNone(ts: Threads, m: Metric)
    ensures PartlyRescored(ts, [], m) == ts
  {
  }

  lemma PartlyKeys(ts: Threads, done: seq<Id>, m: Metric)
    ensures PartlyRescored(ts, done, m).Keys == ts.Keys
  {
  }

  lemma PartlyMore(ts: Threads, done: seq<Id>, t: Id, m: Metric)
    requires t in ts && t !in done
    ensures t in PartlyRescored(ts, done, m) && PartlyRescored(ts, done, m)[t] == ts[t]
    ensures PartlyRescored(ts, done + [t], m) ==
      if ts[t].core.Some? then PartlyRescored(ts, done, m)[t := UpdateScore(ts[t], m(t))]
      else PartlyRescored(ts, done, m)
  {
  }

  lemma PartlyAll(ts: Threads, done: seq<Id>, m: Metric)
    requires forall t :: t in ts ==> t in done
    ensures PartlyRescored(ts, done, m) == Rescored(ts, m)
  {
  }

  lemma FreeIsUnused(cores: seq<nat>, ts: Threads, used: set<nat>)
    requires forall c: nat :: c in used <==> InUse(ts, c)
    ensures forall c: nat :: (c in cores && c !in used) <==> Free(cores, ts, c)
  {
  }

  lemma LowestFirst(ts: Threads, waiting: seq<Id>, sorted: seq<Id>)
    requires waiting != [] && Sorted(sorted, ts) && |sorted| == |waiting|
    requires (forall x :: x in sorted <==> x in waiting) && forall x :: x in waiting <==> Waiting(ts, x)
    ensures sorted[0] in ts && Waiting(ts, sorted[0]) && FirstWaiting(ts, sorted[0])
  {
    hide Waiting;
    forall x | Waiting(ts, x)
      ensures x in ts && ts[sorted[0]].score <= ts[x].score
    {
      assert x in sorted;
      var i :| 0 <= i < |sorted| && sorted[i] == x;
    }
    assert sorted[0] in sorted;
  }
}
