/** CPI stacks: the cycles of a core are moved between components, closed to the time of the run, and shown as parts
    of it. */
module CpiStack {
  import opened Basics
  import opened MapSum
  import opened BuildStack
  import opened StackPlaces

  /** The components that the critical-path counters go to, in the order of the counters. */
  function Targets(): (r: seq<Key>)
    ensures |r| == 16
  {
    ["PathInt", "PathStore", "PathLoadX", "PathBranch", "DataCacheL1", "DataCacheL2", "DataCacheL3", "PathFP", "PathFP",
     "PathP0", "PathP1", "PathP2", "PathP34", "PathP5", "PathP05", "PathP015"]
  }

  predicate IsSync(k: Key) {
    (|k| >= 4 && k[..4] == "Sync") || k == "StartTime"
  }

  // ----- moving cycles

  /** Cycles moved from one component to another. */
  function Moved(data: map<Key, real>, source: Key, target: Key, v: real): map<Key, real> {
    var taken := data[source := Get(data, source) - v];
    taken[target := Get(taken, target) + v]
  }

  lemma MoveKeepsSum(data: map<Key, real>, source: Key, target: Key, v: real)
    ensures Sum(Moved(data, source, target, v)) == Sum(data)
    ensures forall k :: k != source && k != target ==> Get(Moved(data, source, target, v), k) == Get(data, k)
  {
    SumUpdate(data, source, Get(data, source) - v);
    var taken := data[source := Get(data, source) - v];
    SumUpdate(taken, target, Get(taken, target) + v);
  }

  /** The base component split over the counters: each takes its scaled value. */
  function SplitBase(data: map<Key, real>, vals: seq<real>, n: nat, scale: real): map<Key, real>
    requires n <= |vals| && n <= |Targets()|
  {
    if n == 0 then data else Moved(SplitBase(data, vals, n - 1, scale), "Base", Targets()[n - 1], vals[n - 1] * scale)
  }

  lemma SplitBaseStep(data: map<Key, real>, vals: seq<real>, n: nat, scale: real)
    requires n < |vals| && n < |Targets()|
    ensures SplitBase(data, vals, n + 1, scale) ==
      Moved(SplitBase(data, vals, n, scale), "Base", Targets()[n], vals[n] * scale)
  {
    hide Targets, Moved;
  }

  function SplitIssue(data: map<Key, real>, vals: seq<real>, n: nat): map<Key, real>
    requires n <= |vals|
  {
    if n == 0 then data else Moved(SplitIssue(data, vals, n - 1), "Base", "Issue", vals[n - 1])
  }

  lemma TargetsAreNotImbalance(i: nat)
    requires i < |Targets()|
    ensures Targets()[i] != "Imbalance"
  {
    assert "Imbalance"[0] == 'I';
    assert Targets()[i][0] == 'P' || Targets()[i][0] == 'D';
  }

  lemma {:induction false} SplitBaseKeeps(data: map<Key, real>, vals: seq<real>, n: nat, scale: real)
    requires n <= |vals| && n <= |Targets()|
    ensures Sum(SplitBase(data, vals, n, scale)) == Sum(data)
    ensures Get(SplitBase(data, vals, n, scale), "Imbalance") == Get(data, "Imbalance")
  {
    hide Targets, Moved;
    if n > 0 {
      SplitBaseKeeps(data, vals, n - 1, scale);
      TargetsAreNotImbalance(n - 1);
      assert "Base"[0] != "Imbalance"[0];
      MoveKeepsSum(SplitBase(data, vals, n - 1, scale), "Base", Targets()[n - 1], vals[n - 1] * scale);
    }
  }

  lemma {:induction false} SplitIssueKeeps(data: map<Key, real>, vals: seq<real>, n: nat)
    requires n <= |vals|
    ensures Sum(SplitIssue(data, vals, n)) == Sum(data)
    ensures Get(SplitIssue(data, vals, n), "Imbalance") == Get(data, "Imbalance")
  {
    hide Moved;
    if n > 0 {
      SplitIssueKeeps(data, vals, n - 1);
      assert "Base"[0] != "Imbalance"[0] && "Issue"[1] != "Imbalance"[1];
      MoveKeepsSum(SplitIssue(data, vals, n - 1), "Base", "Issue", vals[n - 1]);
    }
  }

  // ----- cycles that were not counted at the start

  /** The waiting components that could have started before the interval. */
  function SyncKeys(data: map<Key, real>, extra: real): set<Key> {
    set k | k in data && IsSync(k) && data[k] > extra
  }

  /** The part of the cycles that a component of size `v` takes. */
  function Share(v: real, extra: real, total: real): real
    requires total != 0.0
  {
    extra * v / total
  }

  /** Some components shortened by their shares. */
  function Shortened(data: map<Key, real>, keys: set<Key>, extra: real, total: real): map<Key, real>
    requires total != 0.0
  {
    map k | k in data :: if k in keys then data[k] - Share(data[k], extra, total) else data[k]
  }

  lemma ShareAdds(a: real, b: real, extra: real, total: real)
    requires total != 0.0
    ensures Share(a + b, extra, total) == Share(a, extra, total) + Share(b, extra, total)
    ensures Share(0.0, extra, total) == 0.0 && Share(total, extra, total) == extra
  {
    assert extra * (a + b) == extra * a + extra * b;
  }

  lemma {:induction false} ShortenedSum(data: map<Key, real>, keys: set<Key>, extra: real, total: real)
    requires total != 0.0 && keys <= data.Keys
    ensures Sum(Shortened(data, keys, extra, total)) == Sum(data) - Share(Sum(On(data, keys)), extra, total)
  {
    hide Share, Sum;
    if keys == {} {
      NoValues();
      assert Shortened(data, keys, extra, total) == data;
      assert On(data, keys) == map[];
      ShareAdds(0.0, 0.0, extra, total);
    } else {
      var k :| k in keys;
      var rest := keys - {k};
      ShortenedSum(data, rest, extra, total);
      var before := Shortened(data, rest, extra, total);
      assert Shortened(data, keys, extra, total) == before[k := data[k] - Share(data[k], extra, total)];
      SumUpdate(before, k, data[k] - Share(data[k], extra, total));
      SumRemove(On(data, keys), k);
      assert On(data, keys) - {k} == On(data, rest);
      ShareAdds(data[k], Sum(On(data, rest)), extra, total);
    }
  }

  lemma {:induction false} PositiveSum(m: map<Key, real>, bound: real)
    requires bound >= 0.0 && forall k :: k in m ==> m[k] > bound
    ensures Sum(m) >= 0.0 && (m != map[] ==> Sum(m) > bound) && forall k :: k in m ==> m[k] <= Sum(m)
    decreases |m|
  {
    if m != map[] {
      forall k | k in m
        ensures Sum(m) > bound && m[k] <= Sum(m)
      {
        SumRemove(m, k);
        PositiveSum(m - {k}, bound);
      }
      var k :| k in m;
      assert Sum(m) > bound;
    }
  }

  /** What the fix-up of the start does: if some component is larger than the uncounted cycles, those that are give
      up just these cycles, and stay positive; otherwise nothing happens. */
  ghost function FixedUp(data: map<Key, real>, extra: real): map<Key, real> {
    var keys := SyncKeys(data, extra);
    var total := Sum(On(data, keys));
    if total == 0.0 then data else Shortened(data, keys, extra, total)
  }

  /** The fix-up divides by zero, unless there is nothing to divide. */
  ghost predicate Divides(data: map<Key, real>, extra: real) {
    SyncKeys(data, extra) == {} || Sum(On(data, SyncKeys(data, extra))) != 0.0
  }

  lemma FixUpKeeps(data: map<Key, real>, extra: real)
    ensures Sum(FixedUp(data, extra)) == Sum(data) - if Sum(On(data, SyncKeys(data, extra))) == 0.0 then 0.0 else extra
    ensures Get(FixedUp(data, extra), "Imbalance") == Get(data, "Imbalance")
  {
    var keys := SyncKeys(data, extra);
    var total := Sum(On(data, keys));
    if total != 0.0 {
      ShortenedSum(data, keys, extra, total);
      ShareAdds(0.0, 0.0, extra, total);
    }
    ImbalanceIsNotSync();
  }

  /** With uncounted cycles, as there are when the interval starts late and cycles take time, the fix-up takes exactly
      these, if some component is larger, and leaves those components positive. */
  lemma FixUpTakes(data: map<Key, real>, extra: real)
    requires extra > 0.0
    ensures Divides(data, extra)
    ensures Sum(FixedUp(data, extra)) == Sum(data) - if SyncKeys(data, extra) == {} then 0.0 else extra
    ensures forall k :: k in SyncKeys(data, extra) ==> 0.0 < FixedUp(data, extra)[k] < data[k]
  {
    var keys := SyncKeys(data, extra);
    var sync := On(data, keys);
    PositiveSum(sync, extra);
    FixUpKeeps(data, extra);
    if keys == {} {
      NoValues();
      assert sync == map[];
    } else {
      var k :| k in keys;
      assert k in sync;
      forall k | k in keys
        ensures 0.0 < Share(data[k], extra, Sum(sync)) < data[k]
      {
        assert k in sync;
        ShareBelow(data[k], extra, Sum(sync));
      }
    }
  }

  lemma ShareBelow(v: real, extra: real, total: real)
    requires 0.0 < extra < v <= total
    ensures 0.0 < Share(v, extra, total) < v
  {
    Smaller(0.0, extra, v);
    Smaller(extra, total, v);
    QuotientBetween(extra * v, v, total);
  }

  lemma Smaller(a: real, b: real, c: real)
    requires a < b && c > 0.0
    ensures a * c < b * c
  {
  }

  lemma QuotientBetween(x: real, y: real, t: real)
    requires t > 0.0 && 0.0 < x < t * y
    ensures 0.0 < x / t < y
  {
    var q := x / t;
    assert q * t == x;
    assert q >= y ==> (q - y) * t >= 0.0;
    assert q <= 0.0 ==> q * t <= 0.0;
  }

  lemma ImbalanceIsNotSync()
    ensures !IsSync("Imbalance")
  {
    assert "Imbalance"[..4][0] == 'I' && "Sync"[0] == 'S' && "StartTime"[0] == 'S';
  }

  // ----- closing the stack

  /** The rest of the run's time becomes imbalance. */
  ghost function Closed(data: map<Key, real>, time: real): map<Key, real> {
    data["Imbalance" := time - Sum(data)]
  }

  lemma CloseSum(data: map<Key, real>, time: real)
    ensures Sum(Closed(data, time)) == time - Get(data, "Imbalance")
  {
    SumUpdate(data, "Imbalance", time - Sum(data));
  }

  // ----- one core

  function BaseScale(base: real, best: real): real {
    (base - best) / if base == 0.0 then 1.0 else base
  }

  /** The measurements of a core: instructions over the dispatch width, the critical-path counters, the issue
      counters, the cycles before the interval that were not counted, and the cycles of the whole run. */
  datatype Measured = Measured(best: real, critical: seq<real>, issue: seq<real>, extra: Option<real>, time: real)

  ghost predicate Sensible(m: Measured) {
    |m.critical| == 16
  }

  function CopyDropped(data: map<Key, real>): map<Key, real> {
    if Get(data, "SyncMemAccess") == Get(data, "SyncPthreadBarrier") then data["SyncMemAccess" := 0.0] else data
  }

  /** The components before the fix-up of the start. */
  ghost function Split(data: map<Key, real>, m: Measured): map<Key, real>
    requires Sensible(m)
  {
    var d0 := CopyDropped(data);
    SplitIssue(SplitBase(d0, m.critical, 16, BaseScale(Get(d0, "Base"), m.best)), m.issue, |m.issue|)
  }

  /** The steps for one core, in their order. */
  ghost function Parsed(data: map<Key, real>, m: Measured): map<Key, real>
    requires Sensible(m)
  {
    var d := Split(data, m);
    Closed(if m.extra.Some? then FixedUp(d, m.extra.value) else d, m.time)
  }

  /** They go through unless the fix-up divides by zero. */
  ghost predicate Parses(data: map<Key, real>, m: Measured)
    requires Sensible(m)
  {
    m.extra.Some? ==> Divides(Split(data, m), m.extra.value)
  }

  lemma DropKeeps(data: map<Key, real>)
    ensures Get(CopyDropped(data), "Imbalance") == Get(data, "Imbalance")
  {
    assert "SyncMemAccess"[0] == 'S' && "Imbalance"[0] == 'I';
  }

  /** Whatever was moved, the stack sums to the time of the run, less the imbalance that was there before. */
  lemma ParsedSum(data: map<Key, real>, m: Measured)
    requires Sensible(m)
    ensures Sum(Parsed(data, m)) == m.time - Get(data, "Imbalance")
  {
    hide Split, FixedUp, Closed;
    var d := Split(data, m);
    SplitKeeps(data, m);
    if m.extra.Some? {
      FixUpKeeps(d, m.extra.value);
    }
    CloseSum(if m.extra.Some? then FixedUp(d, m.extra.value) else d, m.time);
  }

  lemma SplitKeeps(data: map<Key, real>, m: Measured)
    requires Sensible(m)
    ensures Get(Split(data, m), "Imbalance") == Get(data, "Imbalance")
  {
    hide SplitBase, SplitIssue, CopyDropped, BaseScale;
    DropKeeps(data);
    var d0 := CopyDropped(data);
    var scale := BaseScale(Get(d0, "Base"), m.best);
    SplitBaseKeeps(d0, m.critical, 16, scale);
    SplitIssueKeeps(SplitBase(d0, m.critical, 16, scale), m.issue, |m.issue|);
  }

  // ----- the components one by one

  function SumTo(vals: seq<real>, n: nat): real
    requires n <= |vals|
  {
    if n == 0 then 0.0 else SumTo(vals, n - 1) + vals[n - 1]
  }

  /** What the first `n` counters send to a component. */
  function SentTo(vals: seq<real>, n: nat, k: Key): real
    requires n <= |vals| && n <= 16
  {
    if n == 0 then 0.0 else SentTo(vals, n - 1, k) + if Targets()[n - 1] == k then vals[n - 1] else 0.0
  }

  function Scaled(v: real, scale: real): real {
    v * scale
  }

  lemma ScaledAdds(a: real, b: real, scale: real)
    ensures Scaled(a + b, scale) == Scaled(a, scale) + Scaled(b, scale) && Scaled(0.0, scale) == 0.0
    ensures b * scale == Scaled(b, scale)
  {
  }

  lemma MovedAt(data: map<Key, real>, source: Key, target: Key, v: real, k: Key)
    requires source != target
    ensures Get(Moved(data, source, target, v), k) ==
      Get(data, k) + if k == source then -v else if k == target then v else 0.0
  {
  }

  lemma TargetsAreNotBase(i: nat)
    requires i < |Targets()|
    ensures Targets()[i] != "Base"
  {
    assert "Base"[0] == 'B';
    assert Targets()[i][0] == 'P' || Targets()[i][0] == 'D';
  }

  lemma {:induction false} SplitBaseAt(data: map<Key, real>, vals: seq<real>, n: nat, scale: real, k: Key)
    requires n <= |vals| && n <= 16
    ensures Get(SplitBase(data, vals, n, scale), k) ==
      Get(data, k) + if k == "Base" then -Scaled(SumTo(vals, n), scale) else Scaled(SentTo(vals, n, k), scale)
  {
    hide Targets, Moved, Scaled;
    if n == 0 {
      ScaledAdds(0.0, 0.0, scale);
    } else {
      SplitBaseAt(data, vals, n - 1, scale, k);
      TargetsAreNotBase(n - 1);
      MovedAt(SplitBase(data, vals, n - 1, scale), "Base", Targets()[n - 1], vals[n - 1] * scale, k);
      ScaledAdds(SumTo(vals, n - 1), vals[n - 1], scale);
      ScaledAdds(SentTo(vals, n - 1, k), vals[n - 1], scale);
    }
  }

  lemma {:induction false} SplitIssueAt(data: map<Key, real>, vals: seq<real>, n: nat, k: Key)
    requires n <= |vals|
    ensures Get(SplitIssue(data, vals, n), k) ==
      Get(data, k) + if k == "Base" then -SumTo(vals, n) else if k == "Issue" then SumTo(vals, n) else 0.0
  {
    hide Moved;
    if n > 0 {
      SplitIssueAt(data, vals, n - 1, k);
      assert "Base"[0] != "Issue"[0];
      MovedAt(SplitIssue(data, vals, n - 1), "Base", "Issue", vals[n - 1], k);
    }
  }

  /** Every component before the fix-up of the start. */
  lemma SplitAt(data: map<Key, real>, m: Measured, k: Key)
    requires Sensible(m)
    ensures var scale := BaseScale(Get(data, "Base"), m.best);
            Get(Split(data, m), k) == Get(CopyDropped(data), k) +
              if k == "Base" then -Scaled(SumTo(m.critical, 16), scale) - SumTo(m.issue, |m.issue|)
              else Scaled(SentTo(m.critical, 16, k), scale) + if k == "Issue" then SumTo(m.issue, |m.issue|) else 0.0
  {
    hide SplitBase, SplitIssue, BaseScale, Scaled, SentTo, SumTo;
    var d0 := CopyDropped(data);
    assert "SyncMemAccess"[0] != "Base"[0];
    var scale := BaseScale(Get(d0, "Base"), m.best);
    SplitBaseAt(d0, m.critical, 16, scale, k);
    SplitIssueAt(SplitBase(d0, m.critical, 16, scale), m.issue, |m.issue|, k);
    assert "Base"[0] != "Issue"[0];
  }

  /** The fix-up and the closing touch only waiting components and the imbalance. */
  lemma ParsedAt(data: map<Key, real>, m: Measured, k: Key)
    requires Sensible(m) && !IsSync(k) && k != "Imbalance"
    ensures Get(Parsed(data, m), k) == Get(Split(data, m), k)
  {
    hide Split, Sum, IsSync, Share;
  }

  lemma TargetShape(i: nat)
    requires i < 16
    ensures |Targets()[i]| == [7, 9, 9, 10, 11, 11, 11, 6, 6, 6, 6, 6, 7, 6, 7, 8][i]
    ensures Targets()[i][|Targets()[i]| - 1] == "teXh123PP0124555"[i]
  {
  }

  /** No two counters go to the same component, except the two of floating-point operations. */
  lemma TargetsApart(i: nat, j: nat)
    requires i < 16 && j < 16 && i != j && !(7 <= i <= 8 && 7 <= j <= 8)
    ensures Targets()[i] != Targets()[j]
  {
    hide Targets;
    TargetShape(i);
    TargetShape(j);
  }

  lemma {:induction false} SentToTarget(vals: seq<real>, n: nat, i: nat)
    requires n <= 16 == |vals| && i < 16 && i != 8
    ensures SentTo(vals, n, Targets()[i]) ==
      (if i < n then vals[i] else 0.0) + if i == 7 && n > 8 then vals[8] else 0.0
  {
    if n > 0 {
      SentToTarget(vals, n - 1, i);
      if i != n - 1 && !(i == 7 && n - 1 == 8) {
        TargetsApart(i, n - 1);
      }
    }
  }

  lemma NotSync(k: Key)
    requires k != "" && k[0] != 'S'
    ensures !IsSync(k)
  {
    assert "Sync"[0] == 'S' && "StartTime"[0] == 'S';
    assert |k| >= 4 ==> k[..4][0] == k[0];
  }

  /** The fraction of the base cycles beyond the instructions over the dispatch width. */
  function Excess(base: real, best: real): real {
    if base == 0.0 then -best else (base - best) / base
  }

  /** The component gains the scaled counter. */
  ghost predicate Gains(data: map<Key, real>, m: Measured, k: Key, v: real)
    requires Sensible(m)
  {
    Get(Parsed(data, m), k) == Get(data, k) + v * Excess(Get(data, "Base"), m.best)
  }

  /** Components that nothing is moved from or to. */
  predicate Other(k: Key) {
    !("Sync" <= k) && k !in {"StartTime", "Imbalance", "Issue", "Base"} && k !in Targets()
  }

  lemma TargetGains(data: map<Key, real>, m: Measured, i: nat)
    requires Sensible(m) && i < 16 && i != 8
    ensures Gains(data, m, Targets()[i], if i == 7 then m.critical[7] + m.critical[8] else m.critical[i])
  {
    hide Parsed, Split, SentTo, SumTo;
    var k := Targets()[i];
    assert k[0] == 'P' || k[0] == 'D';
    hide Targets;
    assert "Base"[0] == 'B' && "Issue"[0] == 'I' && "Imbalance"[0] == 'I' && "SyncMemAccess"[0] == 'S';
    NotSync(k);
    ParsedAt(data, m, k);
    SplitAt(data, m, k);
    SentToTarget(m.critical, 16, i);
  }

  /** COMPONENTS. What parsing makes of every component but the waiting ones and the imbalance: each critical-path
      counter, scaled by the part of the base cycles beyond the best, goes to the component that is named for it; the
      issue counters go to `Issue`; the base component pays for all of them; any other component stays as it was. */
  lemma Components(data: map<Key, real>, m: Measured)
    requires Sensible(m)
    ensures Gains(data, m, "PathInt", m.critical[0])
    ensures Gains(data, m, "PathStore", m.critical[1])
    ensures Gains(data, m, "PathLoadX", m.critical[2])
    ensures Gains(data, m, "PathBranch", m.critical[3])
    ensures Gains(data, m, "DataCacheL1", m.critical[4])
    ensures Gains(data, m, "DataCacheL2", m.critical[5])
    ensures Gains(data, m, "DataCacheL3", m.critical[6])
    ensures Gains(data, m, "PathFP", m.critical[7] + m.critical[8])
    ensures Gains(data, m, "PathP0", m.critical[9])
    ensures Gains(data, m, "PathP1", m.critical[10])
    ensures Gains(data, m, "PathP2", m.critical[11])
    ensures Gains(data, m, "PathP34", m.critical[12])
    ensures Gains(data, m, "PathP5", m.critical[13])
    ensures Gains(data, m, "PathP05", m.critical[14])
    ensures Gains(data, m, "PathP015", m.critical[15])
    ensures Get(Parsed(data, m), "Issue") == Get(data, "Issue") + SumTo(m.issue, |m.issue|)
    ensures Get(Parsed(data, m), "Base") == Get(data, "Base")
      - SumTo(m.critical, 16) * Excess(Get(data, "Base"), m.best) - SumTo(m.issue, |m.issue|)
    ensures forall k :: Other(k) ==> Get(Parsed(data, m), k) == Get(data, k)
  {
    hide Parsed, SumTo, Gains, Excess, IsSync;
    forall i | 0 <= i < 16 && i != 8
      ensures Gains(data, m, Targets()[i], if i == 7 then m.critical[7] + m.critical[8] else m.critical[i])
    {
      TargetGains(data, m, i);
    }
    NamedGains(data, m);
    hide Targets;
    BaseAndIssue(data, m);
    forall k | Other(k)
      ensures Get(Parsed(data, m), k) == Get(data, k)
    {
      SyncIs(k);
      OtherStays(data, m, k);
    }
  }

  lemma SyncIs(k: Key)
    ensures IsSync(k) <==> "Sync" <= k || k == "StartTime"
  {
  }

  /** What the waiting components lose to uncounted cycles: those larger than these cycles share them in proportion. A
      memory-access wait that equals the barrier wait is taken for a copy of it, and is 0. */
  lemma Waiting(data: map<Key, real>, m: Measured, k: Key)
    requires Sensible(m) && ("Sync" <= k || k == "StartTime")
    ensures var d := Split(data, m);
            var copied := k == "SyncMemAccess" && Get(data, k) == Get(data, "SyncPthreadBarrier");
            var v := if copied then 0.0 else Get(data, k);
            && Get(d, k) == v
            && (m.extra.None? ==> Get(Parsed(data, m), k) == v)
            && (m.extra.Some? && Parses(data, m) ==>
                 var x := m.extra.value;
                 var larger := set j | j in d && ("Sync" <= j || j == "StartTime") && d[j] > x;
                 Get(Parsed(data, m), k) ==
                   if k in larger && Sum(On(d, larger)) != 0.0 then v - x * v / Sum(On(d, larger)) else v)
  {
    hide Sum, Split, IsSync, Share, SyncKeys;
    SyncIs(k);
    SplitWaiting(data, m, k);
    ImbalanceIsNotSync();
    if m.extra.Some? {
      LargerAre(Split(data, m), m.extra.value);
      ShareIs(Get(Split(data, m), k), m.extra.value, Sum(On(Split(data, m), SyncKeys(Split(data, m), m.extra.value))));
    }
  }

  lemma ShareIs(v: real, extra: real, total: real)
    ensures total != 0.0 ==> Share(v, extra, total) == extra * v / total
  {
  }

  lemma LargerAre(d: map<Key, real>, x: real)
    ensures SyncKeys(d, x) == set j | j in d && ("Sync" <= j || j == "StartTime") && d[j] > x
  {
    forall j
      ensures IsSync(j) <==> "Sync" <= j || j == "StartTime"
    {
      SyncIs(j);
    }
    hide IsSync;
  }

  lemma SplitWaiting(data: map<Key, real>, m: Measured, k: Key)
    requires Sensible(m) && IsSync(k)
    ensures var copied := k == "SyncMemAccess" && Get(data, k) == Get(data, "SyncPthreadBarrier");
            Get(Split(data, m), k) == if copied then 0.0 else Get(data, k)
  {
    hide Split, SentTo, SumTo, BaseScale, Scaled;
    SyncIsNoTarget(k);
    hide Targets, IsSync;
    SplitAt(data, m, k);
    NothingSent(m.critical, 16, k);
    ScaledAdds(0.0, 0.0, BaseScale(Get(data, "Base"), m.best));
  }

  lemma SyncIsNoTarget(k: Key)
    requires IsSync(k)
    ensures k !in Targets() && k != "Base" && k != "Issue" && k != "Imbalance"
  {
    assert "Sync"[0] == 'S' && "StartTime"[0] == 'S' && "Base"[0] == 'B' && "Issue"[0] == 'I' && "Imbalance"[0] == 'I';
    assert k[0] == 'S' by {
      assert |k| >= 4 && k[..4] == "Sync" ==> k[0] == k[..4][0];
    }
    forall i | 0 <= i < 16
      ensures Targets()[i] != k
    {
      assert Targets()[i][0] == 'P' || Targets()[i][0] == 'D';
    }
  }

  lemma NamedGains(data: map<Key, real>, m: Measured)
    requires Sensible(m)
    requires forall i :: 0 <= i < 16 && i != 8 ==>
      Gains(data, m, Targets()[i], if i == 7 then m.critical[7] + m.critical[8] else m.critical[i])
    ensures Gains(data, m, "PathInt", m.critical[0])
    ensures Gains(data, m, "PathStore", m.critical[1])
    ensures Gains(data, m, "PathLoadX", m.critical[2])
    ensures Gains(data, m, "PathBranch", m.critical[3])
    ensures Gains(data, m, "DataCacheL1", m.critical[4])
    ensures Gains(data, m, "DataCacheL2", m.critical[5])
    ensures Gains(data, m, "DataCacheL3", m.critical[6])
    ensures Gains(data, m, "PathFP", m.critical[7] + m.critical[8])
    ensures Gains(data, m, "PathP0", m.critical[9])
    ensures Gains(data, m, "PathP1", m.critical[10])
    ensures Gains(data, m, "PathP2", m.critical[11])
    ensures Gains(data, m, "PathP34", m.critical[12])
    ensures Gains(data, m, "PathP5", m.critical[13])
    ensures Gains(data, m, "PathP05", m.critical[14])
    ensures Gains(data, m, "PathP015", m.critical[15])
  {
    hide Gains, Parsed;
    assert Targets()[0] == "PathInt";
    assert Targets()[1] == "PathStore";
    assert Targets()[2] == "PathLoadX";
    assert Targets()[3] == "PathBranch";
    assert Targets()[4] == "DataCacheL1";
    assert Targets()[5] == "DataCacheL2";
    assert Targets()[6] == "DataCacheL3";
    assert Targets()[7] == "PathFP";
    assert Targets()[9] == "PathP0";
    assert Targets()[10] == "PathP1";
    assert Targets()[11] == "PathP2";
    assert Targets()[12] == "PathP34";
    assert Targets()[13] == "PathP5";
    assert Targets()[14] == "PathP05";
    assert Targets()[15] == "PathP015";
  }

  lemma {:induction false} NothingSent(vals: seq<real>, n: nat, k: Key)
    requires n <= |vals| && n <= 16 && k !in Targets()
    ensures SentTo(vals, n, k) == 0.0
  {
    hide Targets;
    if n > 0 {
      NothingSent(vals, n - 1, k);
      assert Targets()[n - 1] in Targets();
    }
  }

  lemma OtherStays(data: map<Key, real>, m: Measured, k: Key)
    requires Sensible(m) && !IsSync(k) && k != "Imbalance" && k != "Issue" && k != "Base" && k !in Targets()
    ensures Get(Parsed(data, m), k) == Get(data, k)
  {
    hide Parsed, Split, SentTo, SumTo, Targets, Scaled, BaseScale;
    ParsedAt(data, m, k);
    SplitAt(data, m, k);
    NothingSent(m.critical, 16, k);
    ScaledAdds(0.0, 0.0, BaseScale(Get(data, "Base"), m.best));
    assert "SyncMemAccess"[..4] == "Sync";
  }

  lemma BaseAndIssue(data: map<Key, real>, m: Measured)
    requires Sensible(m)
    ensures Get(Parsed(data, m), "Issue") == Get(data, "Issue") + SumTo(m.issue, |m.issue|)
    ensures Get(Parsed(data, m), "Base") == Get(data, "Base")
      - SumTo(m.critical, 16) * Excess(Get(data, "Base"), m.best) - SumTo(m.issue, |m.issue|)
  {
    hide Parsed, Split, SentTo, SumTo, IsSync;
    assert "Base"[0] == 'B' && "Issue"[0] == 'I' && "Issue"[1] == 's' && "Imbalance"[0] == 'I' && "Imbalance"[1] == 'm';
    assert "SyncMemAccess"[0] == 'S';
    NotSync("Base");
    NotSync("Issue");
    ParsedAt(data, m, "Base");
    ParsedAt(data, m, "Issue");
    SplitAt(data, m, "Base");
    SplitAt(data, m, "Issue");
    IssueIsNoTarget();
    NothingSent(m.critical, 16, "Issue");
  }

  lemma IssueIsNoTarget()
    ensures "Issue" !in Targets()
  {
    forall i | 0 <= i < 16
      ensures Targets()[i] != "Issue"
    {
      assert Targets()[i][0] == 'P' || Targets()[i][0] == 'D';
      assert "Issue"[0] == 'I';
    }
  }

  class CoreData {
    var data: map<Key, real>

    constructor (data: map<Key, real>)
      ensures this.data == data
    {
      this.data := data;
    }

    method Move(source: Key, target: Key, v: real)
      modifies this
      ensures data == Moved(old(data), source, target, v)
    {
      data := data[source := Get(data, source) - v];
      data := data[target := Get(data, target) + v];
    }

    /** Memory-access waits that are a copy of the barrier waits are dropped. */
    method DropCopy()
      modifies this
      ensures data == CopyDropped(old(data))
    {
      if Get(data, "SyncMemAccess") == Get(data, "SyncPthreadBarrier") {
        data := data["SyncMemAccess" := 0.0];
      }
    }

    /** Only 1/width stays in the base component, as far as the critical-path counters explain the rest. */
    method SplitBaseCycles(best: real, vals: seq<real>)
      requires |vals| == 16
      modifies this
      ensures data == SplitBase(old(data), vals, 16, BaseScale(Get(old(data), "Base"), best))
    {
      hide Targets, Moved, BaseScale;
      var scale := BaseScale(Get(data, "Base"), best);
      for i := 0 to 16
        invariant data == SplitBase(old(data), vals, i, scale)
      {
        SplitBaseStep(old(data), vals, i, scale);
        Move("Base", Targets()[i], vals[i] * scale);
      }
    }

    method TakeIssue(vals: seq<real>)
      modifies this
      ensures data == SplitIssue(old(data), vals, |vals|)
    {
      hide Moved;
      for i := 0 to |vals|
        invariant data == SplitIssue(old(data), vals, i)
      {
        Move("Base", "Issue", vals[i]);
      }
    }

    /** Takes uncounted cycles from the waiting components that are larger; false on a division by zero. */
    method FixStart(extra: real) returns (ok: bool)
      modifies this
      ensures ok <==> Divides(old(data), extra)
      ensures data == FixedUp(old(data), extra)
    {
      ghost var was := data;
      var keys := SyncKeys(data, extra);
      var sync := On(data, keys);
      var total := SumValues(sync);
      NoValues();
      assert keys == {} ==> sync == map[];
      if total == 0.0 {
        return keys == {};
      }
      var todo := keys;
      assert data == Shortened(was, {}, extra, total);
      while todo != {}
        invariant todo <= keys && data == Shortened(was, keys - todo, extra, total)
        decreases todo
      {
        var k :| k in todo;
        data := data[k := data[k] - Share(sync[k], extra, total)];
        todo := todo - {k};
      }
      assert keys - {} == keys;
      ok := true;
    }

    method Close(time: real)
      modifies this
      ensures data == Closed(old(data), time)
    {
      var sum := SumValues(data);
      data := data["Imbalance" := time - sum];
    }

    /** All redistribution steps and the closing step; false when they raise. */
    method Parse(m: Measured) returns (ok: bool)
      requires Sensible(m)
      modifies this
      ensures ok <==> Parses(old(data), m)
      ensures ok ==> data == Parsed(old(data), m) && Sum(data) == m.time - Get(old(data), "Imbalance")
    {
      hide SplitBase, SplitIssue, FixedUp, Divides, Closed, CopyDropped, BaseScale;
      ParsedSum(data, m);
      DropCopy();
      SplitBaseCycles(m.best, m.critical);
      TakeIssue(m.issue);
      if m.extra.Some? {
        var divided := FixStart(m.extra.value);
        if !divided {
          return false;
        }
      }
      Close(m.time);
      ok := true;
    }
  }

  // ----- results

  /** Entries as parts of the run: one number per title, the last one if a title comes again. */
  function TimeStack(res: seq<Entry>, n: nat, cycles: real): map<Key, real>
    requires n <= |res| && cycles != 0.0
  {
    if n == 0 then map[] else TimeStack(res, n - 1, cycles)[res[n - 1].0 := res[n - 1].1 / cycles]
  }

  lemma {:induction false} TimeStackTitles(res: seq<Entry>, n: nat, cycles: real)
    requires n <= |res| && cycles != 0.0
    ensures forall k :: k in TimeStack(res, n, cycles) <==> exists i :: 0 <= i < n && res[i].0 == k
  {
    if n > 0 {
      TimeStackTitles(res, n - 1, cycles);
    }
  }

  function SumFirst(res: seq<Entry>, n: nat): real
    requires n <= |res|
  {
    if n == 0 then 0.0 else SumFirst(res, n - 1) + res[n - 1].1
  }

  lemma {:induction false} SumFirstIs(res: seq<Entry>, n: nat)
    requires n <= |res|
    ensures SumFirst(res, n) == SumEntries(res[..n])
  {
    if n > 0 {
      SumFirstIs(res, n - 1);
      assert res[..n] == res[..n - 1] + [res[n - 1]];
      SumEntriesConcat(res[..n - 1], [res[n - 1]]);
      SumEntriesOne(res[n - 1]);
    }
  }

  lemma {:induction false} TimeStackSum(res: seq<Entry>, n: nat, cycles: real)
    requires n <= |res| && cycles != 0.0 && forall i, j :: 0 <= i < j < |res| ==> res[i].0 != res[j].0
    ensures Sum(TimeStack(res, n, cycles)) == SumFirst(res, n) / cycles
  {
    if n > 0 {
      TimeStackSum(res, n - 1, cycles);
      TimeStackTitles(res, n - 1, cycles);
      var before, e := TimeStack(res, n - 1, cycles), res[n - 1];
      assert e.0 !in before;
      SumUpdate(before, e.0, e.1 / cycles);
      DivideSum(SumFirst(res, n - 1), e.1, cycles);
    }
  }

  lemma DivideSum(a: real, b: real, c: real)
    requires c != 0.0
    ensures (a + b) / c == a / c + b / c
  {
  }

  /** `get_data` for one core and the time metric, with zeroes for the titles it lacks. */
  method TimeData(res: seq<Entry>, cycles: real, titles: seq<string>) returns (data: map<Key, real>)
    requires cycles != 0.0
    ensures Sum(data) == Sum(TimeStack(res, |res|, cycles))
    ensures forall t :: Get(data, t) == Get(TimeStack(res, |res|, cycles), t)
    ensures forall t :: t in data <==> t in titles || exists i :: 0 <= i < |res| && res[i].0 == t
  {
    data := map[];
    for n := 0 to |res|
      invariant data == TimeStack(res, n, cycles)
    {
      data := data[res[n].0 := res[n].1 / cycles];
    }
    TimeStackTitles(res, |res|, cycles);
    ghost var stack := data;
    for i := 0 to |titles|
      invariant Sum(data) == Sum(stack) && forall t :: Get(data, t) == Get(stack, t)
      invariant forall t :: t in data <==> t in stack || t in titles[..i]
    {
      assert titles[..i + 1] == titles[..i] + [titles[i]];
      if titles[i] !in data {
        SumUpdate(data, titles[i], 0.0);
        data := data[titles[i] := 0.0];
      }
    }
    assert titles[..|titles|] == titles;
  }

  /** The stack shows, under every title, the entry of the merged and redistributed values as a part of the cycles. */
  ghost predicate Shows(stack: map<Key, real>, values: map<Key, real>, m: Measured, items: seq<Item>, nocollapse: bool,
                        cycles: real)
    requires Sensible(m) && cycles != 0.0
  {
    var res := Stack(items, Parsed(values, m), nocollapse);
    forall t :: Get(stack, t) == Get(TimeStack(res, |res|, cycles), t)
  }

  /** END TO END. With unique titles, the time stack of a core sums to its own cycles, less the imbalance that was
      counted before, as a part of the cycles of the first core: to 1 exactly when that imbalance is the difference
      between the two, so with none and with equal frequencies. */
  method CoreStack(values: map<Key, real>, m: Measured, items: seq<Item>, nocollapse: bool, cycles: real,
                   titles: seq<string>)
    returns (stack: Option<map<Key, real>>)
    requires Sensible(m) && cycles != 0.0 && Distinct(TitlesOf("", items, |items|) + ["other"])
    ensures stack.Some? <==> Parses(values, m)
    ensures stack.Some? ==>
      && Shows(stack.value, values, m, items, nocollapse, cycles)
      && Sum(stack.value) == (m.time - Get(values, "Imbalance")) / cycles
      && (Sum(stack.value) == 1.0 <==> m.time - cycles == Get(values, "Imbalance"))
  {
    hide TitlesOf, Distinct, TimeStack, Stack, Parsed, Parses, Sum, SumEntries, Titled, KeysOf, Scale;
    var core := new CoreData(values);
    var ok := core.Parse(m);
    if !ok {
      return None;
    }
    var res, total, other, scale := MergeValues(core.data, items, nocollapse);
    StackTitled(items, core.data, nocollapse);
    var data := TimeData(res, cycles, titles);
    stack := Some(data);
    TitledSum(res, TitlesOf("", items, |items|) + ["other"], cycles);
    QuotientIsOne(m.time - Get(values, "Imbalance"), cycles);
  }

  lemma TitledSum(res: seq<Entry>, titles: seq<string>, cycles: real)
    requires Titled(res, titles) && cycles != 0.0
    ensures Sum(TimeStack(res, |res|, cycles)) == SumEntries(res) / cycles
  {
    hide TimeStack, Sum;
    TimeStackSum(res, |res|, cycles);
    SumFirstIs(res, |res|);
    assert res[..|res|] == res;
  }

  lemma QuotientIsOne(x: real, y: real)
    requires y != 0.0
    ensures x / y == 1.0 <==> x == y
  {
    assert x / y * y == x;
  }

  // ----- all cores

  /** A core's values and measurements, and its cycles per unit of time. */
  datatype Core = Core(values: map<Key, real>, measured: Measured, scale: real)

  /** The cycles of a core in some time. */
  function CyclesIn(core: Core, time: real): real {
    core.scale * time
  }

  function Quotient(a: real, b: real): real
    requires b != 0.0
  {
    a / b
  }

  lemma QuotientIs(a: real, b: real)
    requires b != 0.0
    ensures Quotient(a, b) == a / b
  {
  }

  /** The measurements of a core, with the longest time of any core. */
  function Timed(core: Core, longest: real): (m: Measured)
    ensures Sensible(core.measured) ==> Sensible(m)
  {
    core.measured.(time := CyclesIn(core, longest))
  }

  /** The stacks of the first `n` cores, in a run with this longest time. */
  ghost predicate ShowsCores(stacks: seq<map<Key, real>>, cores: seq<Core>, items: seq<Item>, nocollapse: bool,
                             longest: real, n: nat)
    requires n <= |cores| && cores != [] && forall i :: 0 <= i < |cores| ==> Sensible(cores[i].measured)
  {
    && |stacks| == n && CyclesIn(cores[0], longest) != 0.0
    && forall i :: 0 <= i < n ==>
      && Shows(stacks[i], cores[i].values, Timed(cores[i], longest), items, nocollapse, CyclesIn(cores[0], longest))
      && Sum(stacks[i]) ==
           Quotient(CyclesIn(cores[i], longest) - Get(cores[i].values, "Imbalance"), CyclesIn(cores[0], longest))
      && (cores[i].scale == cores[0].scale && Get(cores[i].values, "Imbalance") == 0.0 ==> Sum(stacks[i]) == 1.0)
  }

  /** The stack sums to the core's cycles in the longest time, less the earlier imbalance, over the first core's. */
  ghost predicate SumsTo(stack: map<Key, real>, core: Core, first: Core, longest: real) {
    && first.scale * longest != 0.0
    && Sum(stack) == (core.scale * longest - Get(core.values, "Imbalance")) / (first.scale * longest)
  }

  ghost predicate IsMax(times: seq<real>, x: real) {
    x in times && forall i :: 0 <= i < |times| ==> times[i] <= x
  }

  method MaxOf(times: seq<real>) returns (x: real)
    requires times != []
    ensures IsMax(times, x)
  {
    x := times[0];
    for i := 1 to |times|
      invariant x in times[..i] && forall j :: 0 <= j < i ==> times[j] <= x
    {
      assert times[..i + 1] == times[..i] + [times[i]];
      if times[i] > x {
        x := times[i];
      }
    }
    assert times[..|times|] == times;
  }

  /** The time stacks of all cores, or nothing if no cycles were counted or a core's fix-up divides by zero: every
      core whose frequency is that of the first and that had no imbalance before sums to exactly 1. */
  method TimeStacks(cores: seq<Core>, times: seq<real>, items: seq<Item>, nocollapse: bool, titles: seq<string>)
    returns (stacks: Option<seq<map<Key, real>>>)
    requires |cores| == |times| > 0 && (forall i :: 0 <= i < |cores| ==> Sensible(cores[i].measured))
    requires Distinct(TitlesOf("", items, |items|) + ["other"])
    ensures forall x :: IsMax(times, x) ==>
      && (stacks.Some? <==>
            CyclesIn(cores[0], x) != 0.0
            && forall i :: 0 <= i < |cores| ==> Parses(cores[i].values, Timed(cores[i], x)))
      && (stacks.Some? ==> ShowsCores(stacks.value, cores, items, nocollapse, x, |cores|))
    ensures forall x, i :: stacks.Some? && IsMax(times, x) && 0 <= i < |cores| ==>
      |stacks.value| == |cores| && SumsTo(stacks.value[i], cores[i], cores[0], x)
  {
    hide TitlesOf, Distinct, Sum, Get, Shows, Parses, CyclesIn, Quotient;
    var longest := MaxOf(times);
    var cycles := CyclesIn(cores[0], longest);
    OneMax(times, longest);
    if cycles == 0.0 {
      return None;
    }
    var r: seq<map<Key, real>> := [];
    for i := 0 to |cores|
      invariant ShowsCores(r, cores, items, nocollapse, longest, i)
      invariant forall j :: 0 <= j < i ==> Parses(cores[j].values, Timed(cores[j], longest))
    {
      var stack := CoreStack(cores[i].values, Timed(cores[i], longest), items, nocollapse, cycles, titles);
      if stack.None? {
        return None;
      }
      QuotientIs(CyclesIn(cores[i], longest) - Get(cores[i].values, "Imbalance"), cycles);
      ShowsMore(r, cores, items, nocollapse, longest, i, stack.value);
      r := r + [stack.value];
    }
    hide SumsTo;
    forall i | 0 <= i < |cores|
      ensures SumsTo(r[i], cores[i], cores[0], longest)
    {
      SumOf(r, cores, items, nocollapse, longest, i);
    }
    stacks := Some(r);
  }

  lemma SumOf(stacks: seq<map<Key, real>>, cores: seq<Core>, items: seq<Item>, nocollapse: bool, longest: real, i: nat)
    requires i < |cores| && (forall i :: 0 <= i < |cores| ==> Sensible(cores[i].measured))
    requires ShowsCores(stacks, cores, items, nocollapse, longest, |cores|)
    ensures SumsTo(stacks[i], cores[i], cores[0], longest)
  {
    hide Shows, Sum, Get;
    assert Sum(stacks[i]) ==
      Quotient(CyclesIn(cores[i], longest) - Get(cores[i].values, "Imbalance"), CyclesIn(cores[0], longest));
    hide ShowsCores;
  }

  lemma ShowsMore(stacks: seq<map<Key, real>>, cores: seq<Core>, items: seq<Item>, nocollapse: bool, longest: real,
                  n: nat, stack: map<Key, real>)
    requires n < |cores| && (forall i :: 0 <= i < |cores| ==> Sensible(cores[i].measured))
    requires ShowsCores(stacks, cores, items, nocollapse, longest, n)
    requires var cycles, m := CyclesIn(cores[0], longest), Timed(cores[n], longest);
             && Shows(stack, cores[n].values, m, items, nocollapse, cycles)
             && Sum(stack) == Quotient(m.time - Get(cores[n].values, "Imbalance"), cycles)
             && (Sum(stack) == 1.0 <==> m.time - cycles == Get(cores[n].values, "Imbalance"))
    ensures ShowsCores(stacks + [stack], cores, items, nocollapse, longest, n + 1)
  {
    hide Shows, Sum, Get, Quotient;
    assert cores[n].scale == cores[0].scale ==> CyclesIn(cores[n], longest) == CyclesIn(cores[0], longest);
    hide CyclesIn;
  }

  lemma OneMax(times: seq<real>, x: real)
    requires IsMax(times, x)
    ensures forall y :: IsMax(times, y) ==> y == x
  {
    forall y | IsMax(times, y)
      ensures y == x
    {
      var i :| 0 <= i < |times| && times[i] == y;
      var j :| 0 <= j < |times| && times[j] == x;
    }
  }
}
