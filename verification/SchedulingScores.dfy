/** What the scores of the locality scheduler mean over whole runs: the metric that a thread has gained since its score
    was last set, on top of the value set then. */
module SchedulingScores {
  import opened Basics
  import opened Scheduling

  // ----- when scores are set and metrics are read

  /** A score that was set: to what value, and the thread's metric at that time. */
  datatype Mark = Mark(value: int, since: int)

  /** The lowest score of all threads. */
  ghost function Lowest(ts: Threads): int {
    if exists x :: LowestScore(ts, x) then (var x :| LowestScore(ts, x); x) else 0
  }

  lemma LowestIs(ts: Threads, x: int)
    requires LowestScore(ts, x)
    ensures Lowest(ts) == x
  {
    var y := Lowest(ts);
    assert LowestScore(ts, y);
  }

  /** The score of a thread is 0 when it starts, and the lowest of all scores when it resumes. */
  ghost function LastMark(es: seq<Event>, ms: seq<Metric>, states: seq<State>, n: nat, t: Id): Mark
    requires |ms| == |es| && |states| == |es| + 1 && n <= |es|
  {
    if n == 0 || es[n - 1] == Start(t) then Mark(0, 0)
    else if es[n - 1] == Resume(t) && Resumes(states[n - 1], es[n - 1]) then
      Mark(Lowest(states[n - 1].threads), ms[n - 1](t))
    else LastMark(es, ms, states, n - 1, t)
  }

  /** The thread stalls, or it is the waiting thread that gets no core from one that stalls without a core. */
  ghost predicate Leaves(s: State, id: Id, s': State, t: Id) {
    t == id ||
    (id in s.threads && s.threads[id].core.None? && t in s.threads && t in s'.threads && s'.threads[t] != s.threads[t])
  }

  /** The event reads the metric of the thread. */
  ghost predicate Reads(s: State, e: Event, s': State, t: Id) {
    match e
    case Start(_) => false
    case Stall(id, unscheduled) => !unscheduled && Leaves(s, id, s', t)
    case Exit(id) => Leaves(s, id, s', t)
    case Resume(id) => id == t && Resumes(s, e)
    case Periodic => t in s.threads && s.threads[t].core.Some?
  }

  /** The metric of the thread when it was read last; a thread that starts on a core counts from 0. */
  ghost function LastRead(cores: seq<nat>, es: seq<Event>, ms: seq<Metric>, states: seq<State>, n: nat, t: Id): int
    requires |ms| == |es| && |states| == |es| + 1 && n <= |es|
  {
    if n == 0 then 0
    else if es[n - 1] == Start(t) then if states[n - 1].lastCore < |cores| then 0 else ms[n - 1](t)
    else if Reads(states[n - 1], es[n - 1], states[n], t) then ms[n - 1](t)
    else LastRead(cores, es, ms, states, n - 1, t)
  }

  /** The value set last, and the metric gained since. */
  ghost function Gained(cores: seq<nat>, es: seq<Event>, ms: seq<Metric>, states: seq<State>, n: nat, t: Id): int
    requires |ms| == |es| && |states| == |es| + 1 && n <= |es|
  {
    var mark := LastMark(es, ms, states, n, t);
    mark.value + (LastRead(cores, es, ms, states, n, t) - mark.since)
  }

  // ----- one event

  /** What an event does to the score and the last metric of a thread. */
  ghost predicate Scored(cores: seq<nat>, s: State, e: Event, m: Metric, s': State, t: Id)
    requires t in s'.threads
  {
    var now := s'.threads[t];
    if e == Start(t) then now.last == (if s.lastCore < |cores| then 0 else m(t)) && now.score == now.last
    else
      && t in s.threads && now.last == (if Reads(s, e, s', t) then m(t) else s.threads[t].last)
      && if e == Resume(t) && Resumes(s, e) then LowestScore(s.threads, now.score)
         else now.score - now.last == s.threads[t].score - s.threads[t].last
  }

  lemma StallScored(cores: seq<nat>, s: State, e: Event, id: Id, m: Metric, s': State, t: Id)
    requires Stalled(s, id, m, s') && t in s'.threads && (e == Exit(id) || e == Stall(id, false))
    ensures Scored(cores, s, e, m, s', t)
  {
    var ts := TakenOff(s.threads, id, m);
    if exists w :: Waiting(ts, w) {
      var w :| FirstWaiting(ts, w) && s'.threads == ts[w := SetCore(ts[w], s.threads[id].core, m(w))];
      hide FirstWaiting;
    }
  }

  lemma ResumeScored(cores: seq<nat>, s: State, id: Id, m: Metric, s': State, t: Id)
    requires Resumed(cores, s, id, m, s') && t in s'.threads
    ensures Scored(cores, s, Resume(id), m, s', t)
  {
    if !s.threads[id].unscheduled {
      var x :| LowestScore(s.threads, x) && MovedIn(cores, Woken(s.threads, id, x, m), id, m, s'.threads);
      hide LowestScore, InUse;
      var up := Woken(s.threads, id, x, m);
      if exists c: nat :: Free(cores, up, c) {
        var c: nat :| Free(cores, up, c) && s'.threads == up[id := SetCore(up[id], Some(c), m(id))];
      }
    }
  }

  /** Placing moves threads but leaves their scores: whoever leaves a core had its metric read just before. */
  ghost predicate SameScores(ts: Threads, free: seq<nat>, k: nat, m: Metric, now: Threads)
    requires k <= |free|
  {
    && now.Keys == ts.Keys
    && forall t :: t in ts ==>
      && now[t].score == ts[t].score && now[t].last == ts[t].last
      && (now[t].core.Some? ==> ts[t].last == m(t) || now[t].core.value in free[..k])
  }

  lemma PlaceOneScore(ts: Threads, free: seq<nat>, k: nat, m: Metric, now: Threads, id: Id, next: Threads)
    requires k < |free| && Distinct(free) && SameScores(ts, free, k, m, now) && PlacedOne(now, id, free[k], m, next)
    ensures SameScores(ts, free, k + 1, m, next)
  {
    var v :| Occupant(now, free[k], v) && next == MovedTo(Evicted(now, v, m), id, free[k], m);
    hide SameScores, Occupant, Evicted, MovedTo;
    EvictedScore(ts, free, k, m, now, v);
    MovedScore(ts, free, k, m, Evicted(now, v, m), id);
  }

  lemma EvictedScore(ts: Threads, free: seq<nat>, k: nat, m: Metric, now: Threads, v: Option<Id>)
    requires k < |free| && Distinct(free) && SameScores(ts, free, k, m, now) && Occupant(now, free[k], v)
    ensures SameScores(ts, free, k, m, Evicted(now, v, m))
  {
    assert free[k] !in free[..k];
    if v.Some? {
      assert ts[v.value].last == m(v.value);
    }
  }

  lemma MovedScore(ts: Threads, free: seq<nat>, k: nat, m: Metric, now: Threads, id: Id)
    requires k < |free| && SameScores(ts, free, k, m, now) && id in now
    ensures SameScores(ts, free, k + 1, m, MovedTo(now, id, free[k], m))
  {
    assert free[..k + 1] == free[..k] + [free[k]];
  }

  lemma {:induction false} PlaceScores(ts: Threads, newcomers: seq<Id>, free: seq<nat>, m: Metric, steps: seq<Threads>,
                                       k: nat)
    requires Placement(ts, newcomers, free, m, steps) && k <= |newcomers| && Distinct(free)
    requires forall t :: t in ts && ts[t].core.Some? ==> ts[t].last == m(t)
    ensures SameScores(ts, free, k, m, steps[k])
  {
    hide PlacedOne, Distinct;
    if k > 0 {
      PlaceScores(ts, newcomers, free, m, steps, k - 1);
      assert PlacedOne(steps[k - 1], newcomers[k - 1], free[k - 1], m, steps[k]);
      hide SameScores;
      PlaceOneScore(ts, free, k - 1, m, steps[k - 1], newcomers[k - 1], steps[k]);
    }
  }

  lemma PeriodicScored(cores: seq<nat>, s: State, m: Metric, chosen: set<Id>, newcomers: seq<Id>, steps: seq<Threads>,
                       s': State, t: Id)
    requires Distinct(cores) && Running(cores, s.threads) && Rescheduled(cores, s, m, chosen, newcomers, steps, s')
    requires t in s'.threads
    ensures Scored(cores, s, Periodic, m, s', t)
  {
    hide Distinct, Running, Selection, Enumerates, FreeCores, Placement, UsedBy;
    var ts := Rescored(s.threads, m);
    var free := FreeCores(cores, UsedBy(ts, chosen));
    RescoredSame(cores, s.threads, m);
    UsedIsKept(cores, ts, chosen);
    FreeCoresCount(cores, UsedBy(ts, chosen));
    PlaceScores(ts, newcomers, free, m, steps, |newcomers|);
  }

  lemma StepScored(cores: seq<nat>, s: State, e: Event, m: Metric, s': State, t: Id)
    requires Distinct(cores) && Running(cores, s.threads) && Step(cores, s, e, m, s') && t in s'.threads
    ensures Scored(cores, s, e, m, s', t)
  {
    hide Distinct, Running, Stalled, Resumed, Rescheduled;
    match e
    case Start(id) =>
    case Stall(id, unscheduled) =>
      if !unscheduled {
        hide Scored;
        StallScored(cores, s, e, id, m, s', t);
      }
    case Exit(id) =>
      hide Scored;
      StallScored(cores, s, e, id, m, s', t);
    case Resume(id) =>
      hide Scored;
      ResumeScored(cores, s, id, m, s', t);
    case Periodic =>
      hide Scored;
      var chosen, newcomers, steps :| Rescheduled(cores, s, m, chosen, newcomers, steps, s');
      PeriodicScored(cores, s, m, chosen, newcomers, steps, s', t);
  }

  // ----- whole runs

  /** SCORES. In every state of every run a thread's score is the value set last and the metric gained from then to when
      its metric was read last. */
  lemma {:induction false} RunScores(cores: seq<nat>, es: seq<Event>, ms: seq<Metric>, states: seq<State>, n: nat,
                                     t: Id)
    requires Distinct(cores) && Run(cores, es, ms, states) && n <= |es| && t in states[n].threads
    ensures states[n].threads[t].last == LastRead(cores, es, ms, states, n, t)
    ensures states[n].threads[t].score == Gained(cores, es, ms, states, n, t)
  {
    hide Step, Run, Distinct, Reads;
    RunBegins(cores, es, ms, states);
    if n > 0 {
      var s, e, m, s' := states[n - 1], es[n - 1], ms[n - 1], states[n];
      RunStep(cores, es, ms, states, n - 1);
      RunSound(cores, es, ms, states, n - 1);
      StepScored(cores, s, e, m, s', t);
      if e != Start(t) {
        RunScores(cores, es, ms, states, n - 1, t);
        if e == Resume(t) && Resumes(s, e) {
          LowestIs(s.threads, s'.threads[t].score);
          ResumeReads(s, t, s');
        }
      }
    }
  }

  lemma ResumeReads(s: State, t: Id, s': State)
    requires Resumes(s, Resume(t))
    ensures Reads(s, Resume(t), s', t)
  {
  }

  /** SELECTION BY GAIN. After the periodic hook of a run, from exclusive cores, as many runnable threads are on cores
      as there can be, and no runnable thread that is left off has gained less than one on a core; threads that had a
      core before and have one now are on the same. */
  lemma RunSelects(cores: seq<nat>, es: seq<Event>, ms: seq<Metric>, states: seq<State>, n: nat)
    requires Distinct(cores) && Run(cores, es, ms, states) && n < |es| && es[n].Periodic?
    requires Exclusive(states[n].threads)
    ensures var before, after := states[n].threads, states[n + 1].threads;
            && OnCore(after) <= Runnable(after) == Runnable(before)
            && |OnCore(after)| == Min(|Runnable(after)|, |cores|)
            && (forall a, b :: a in OnCore(after) && b in Runnable(after) - OnCore(after) ==>
                 Gained(cores, es, ms, states, n + 1, a) <= Gained(cores, es, ms, states, n + 1, b))
            && (forall t :: t in before && before[t].core.Some? ==>
                 LastRead(cores, es, ms, states, n + 1, t) == ms[n](t))
            && (forall t :: t in before && t in OnCore(after) && before[t].core.Some? ==>
                 after[t].core == before[t].core)
  {
    hide Run, Distinct, Gained, Rescheduled, Running, Exclusive;
    RunStep(cores, es, ms, states, n);
    RunSound(cores, es, ms, states, n);
    var s, s' := states[n], states[n + 1];
    var chosen, newcomers, steps :| Rescheduled(cores, s, ms[n], chosen, newcomers, steps, s');
    PeriodicSelects(cores, s, ms[n], chosen, newcomers, steps, s');
    forall t | t in s'.threads
      ensures s'.threads[t].score == Gained(cores, es, ms, states, n + 1, t)
    {
      RunScores(cores, es, ms, states, n + 1, t);
    }
  }

  /** The thread is off its core, `w` is on it if there is such a thread, and everybody else is as before. */
  ghost predicate PassedTo(before: Threads, id: Id, w: Option<Id>, after: Threads) {
    && id in before && id in after && after[id].core.None? && !after[id].runnable
    && (w.Some? ==> w.value in after && w.value != id && after[w.value].core == before[id].core)
    && forall t :: t in before && t != id && w != Some(t) ==> t in after && after[t] == before[t]
  }

  lemma StallPasses(s: State, id: Id, m: Metric, s': State) returns (w: Option<Id>)
    requires Stalled(s, id, m, s') && s.threads[id].core.Some?
    ensures PassedTo(s.threads, id, w, s'.threads)
    ensures if w.Some? then FirstWaiting(s.threads, w.value) else forall x :: !Waiting(s.threads, x)
  {
    var ts := TakenOff(s.threads, id, m);
    assert forall x :: Waiting(ts, x) <==> Waiting(s.threads, x);
    if exists x :: Waiting(ts, x) {
      var x :| FirstWaiting(ts, x) && s'.threads == ts[x := SetCore(ts[x], s.threads[id].core, m(x))];
      w := Some(x);
    } else {
      w := None;
    }
  }

  /** PASSING ON. When a thread stalls or exits on a core, the core goes to a waiting thread that has gained no more
      than any other, if there is one; nobody else moves. */
  lemma RunPasses(cores: seq<nat>, es: seq<Event>, ms: seq<Metric>, states: seq<State>, n: nat, id: Id)
    returns (w: Option<Id>)
    requires Distinct(cores) && Run(cores, es, ms, states) && n < |es|
    requires (es[n] == Exit(id) || es[n] == Stall(id, false)) && id in states[n].threads
    requires states[n].threads[id].core.Some?
    ensures PassedTo(states[n].threads, id, w, states[n + 1].threads)
    ensures w.Some? <==> exists x :: Waiting(states[n].threads, x)
    ensures w.Some? ==>
      && Waiting(states[n].threads, w.value)
      && forall x :: Waiting(states[n].threads, x) ==>
           Gained(cores, es, ms, states, n, w.value) <= Gained(cores, es, ms, states, n, x)
  {
    hide Run, Distinct, Gained, Rescheduled, Stalled, PassedTo;
    RunStep(cores, es, ms, states, n);
    w := StallPasses(states[n], id, ms[n], states[n + 1]);
    forall x | x in states[n].threads
      ensures states[n].threads[x].score == Gained(cores, es, ms, states, n, x)
    {
      RunScores(cores, es, ms, states, n, x);
    }
  }

  /** A thread that really resumes is runnable, and on a core that was free if there was one; nobody else moves. */
  lemma ResumeRuns(cores: seq<nat>, s: State, id: Id, m: Metric, s': State)
    requires Step(cores, s, Resume(id), m, s') && Resumes(s, Resume(id)) && s.threads[id].core.None?
    ensures id in s'.threads && s'.threads[id].runnable
    ensures if exists c: nat :: Free(cores, s.threads, c)
            then s'.threads[id].core.Some? && Free(cores, s.threads, s'.threads[id].core.value)
            else s'.threads[id].core.None?
    ensures forall t :: t in s.threads && t != id ==> t in s'.threads && s'.threads[t] == s.threads[t]
  {
    hide Stalled, Rescheduled;
    var x :| LowestScore(s.threads, x) && MovedIn(cores, Woken(s.threads, id, x, m), id, m, s'.threads);
    hide LowestScore;
    var up := Woken(s.threads, id, x, m);
    forall c: nat
      ensures Free(cores, up, c) <==> Free(cores, s.threads, c)
    {
      assert forall t :: t in up ==> up[t].core == s.threads[t].core;
    }
    if exists c: nat :: Free(cores, up, c) {
      var c: nat :| Free(cores, up, c) && s'.threads == up[id := SetCore(up[id], Some(c), m(id))];
    }
  }
}
