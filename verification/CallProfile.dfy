/** The profile of `gen_profile`: the call forest, the worklist that orders it, and folding. */
module CallProfile {
  import opened Basics
  import opened CallTree

  const CALLS: Key := "calls"

  /** One counter of every call; 0 for a call without it. */
  function Column(data: map<Stack, Data>, k: Key): map<Stack, int> {
    map s | s in data :: if k in data[s] then data[s][k] else 0
  }

  ghost predicate Uniform(data: map<Stack, Data>, keys: set<Key>) {
    forall s :: s in data ==> HasKeys(data[s], keys)
  }

  predicate HasKeys(d: Data, keys: set<Key>) {
    d.Keys == keys
  }

  /** The child sets hold every call under its parent, and nothing else. */
  ghost predicate Forest(calls: set<Stack>, children: map<Stack, set<Stack>>) {
    && [] !in calls
    && (forall c :: c in calls ==> Parent(c) in children && c in children[Parent(c)])
    && forall p, c :: p in children && c in children[p] ==> c in calls && Parent(c) == p
  }

  function Kids(children: map<Stack, set<Stack>>, s: Stack): set<Stack> {
    if s in children then children[s] else {}
  }

  lemma ForestKids(calls: set<Stack>, children: map<Stack, set<Stack>>, s: Stack)
    requires Forest(calls, children)
    ensures Kids(children, s) == Children(calls, s)
  {
    assert forall c :: c in calls ==> c != [];
  }

  lemma ForestMore(calls: set<Stack>, children: map<Stack, set<Stack>>, s: Stack)
    requires Forest(calls, children) && s != [] && s !in calls
    ensures Forest(calls + {s}, children[Parent(s) := Kids(children, Parent(s)) + {s}])
  {
  }

  /** Adds the counters of `b` to those of `a`, but for those in `except`. */
  method AddTo(a: Data, b: Data, except: set<Key>) returns (r: Data)
    requires a.Keys == b.Keys
    ensures r.Keys == a.Keys && forall k :: k in a ==> r[k] == a[k] + if k in except then 0 else b[k]
  {
    r := a;
    var todo := b.Keys;
    while todo != {}
      invariant todo <= b.Keys && r.Keys == a.Keys
      invariant forall k :: k in a ==> r[k] == a[k] + if k in except || k in todo then 0 else b[k]
      decreases todo
    {
      var k :| k in todo;
      todo := todo - {k};
      if k !in except {
        r := r[k := r[k] + b[k]];
      }
    }
  }

  /** Each call once, children before their parents. */
  ghost predicate BottomUp(order: seq<Stack>, calls: set<Stack>) {
    Enumerates(order, calls) && ParentsLater(order)
  }

  /** The calls placed so far and those still to visit: together they hold all roots and all children of what is
      placed, and everything but a root comes after its parent. */
  ghost predicate Frontier(calls: set<Stack>, placed: set<Stack>, todo: set<Stack>) {
    && placed <= calls && todo <= calls && placed !! todo && Roots(calls) <= placed + todo
    && (forall s :: s in placed ==> Children(calls, s) <= placed + todo)
    && (forall s :: s in placed + todo ==> s in Roots(calls) || Parent(s) in placed)
  }

  ghost predicate ParentsLater(order: seq<Stack>) {
    forall i, j :: 0 <= i < |order| && 0 <= j < |order| && Parent(order[i]) == order[j] ==> i < j
  }

  lemma FrontierStep(calls: set<Stack>, placed: set<Stack>, todo: set<Stack>, s: Stack)
    requires [] !in calls && Frontier(calls, placed, todo) && s in todo
    ensures var kids := Children(calls, s);
            kids !! placed + todo && Frontier(calls, placed + {s}, todo - {s} + kids)
  {
    var kids := Children(calls, s);
    forall c | c in kids
      ensures c !in placed + todo
    {
      assert Parent(c) == s && s !in placed;
    }
    var placed', todo' := placed + {s}, todo - {s} + kids;
    assert placed + todo <= placed' + todo';
    forall x | x in placed' + todo'
      ensures x in Roots(calls) || Parent(x) in placed'
    {
      if x !in kids {
        assert x in placed + todo;
      }
    }
  }

  /** Placing a call before what is placed keeps parents later: none of its children is placed yet. */
  lemma PlaceFirst(calls: set<Stack>, order: seq<Stack>, placed: set<Stack>, todo: set<Stack>, s: Stack)
    requires [] !in calls && Frontier(calls, placed, todo)
    requires s in todo && Enumerates(order, placed) && ParentsLater(order)
    ensures Enumerates([s] + order, placed + {s}) && ParentsLater([s] + order)
  {
    FrontierStep(calls, placed, todo, s);
    assert Parent(s) != s;
    forall x | x in order
      ensures Parent(x) != s
    {
      assert x in placed && x !in Children(calls, s);
    }
  }

  /** When nothing is left to visit, every call is placed. */
  lemma {:induction false} AllPlaced(calls: set<Stack>, placed: set<Stack>, s: Stack)
    requires [] !in calls && Frontier(calls, placed, {}) && s in calls
    ensures s in placed
  {
    if s !in Roots(calls) {
      AllPlaced(calls, placed, Parent(s));
      assert s in Children(calls, Parent(s));
    }
  }

  /** A set as a sequence, in any order. */
  method AsSequence(s: set<Stack>) returns (q: seq<Stack>)
    ensures Enumerates(q, s)
  {
    q := [];
    var todo := s;
    while todo != {}
      invariant todo <= s && Enumerates(q, s - todo)
      decreases todo
    {
      var x :| x in todo;
      todo := todo - {x};
      q := q + [x];
    }
  }

  class Profile {
    const keys: set<Key>
    var data: map<Stack, Data>
    var name: map<Stack, string>
    var children: map<Stack, set<Stack>>
    var total: map<Stack, Data>
    var folded: map<Stack, bool>
    var totals: Data

    constructor (keys: set<Key>)
      ensures this.keys == keys && data == map[] && totals == map[] && total == map[] && folded == map[]
      ensures Loaded()
    {
      this.keys := keys;
      data, name, children, total, folded, totals := map[], map[], map[], map[], map[], map[];
    }

    ghost predicate Loaded()
      reads this`data, this`name, this`children
    {
      name.Keys == data.Keys && Forest(data.Keys, children)
    }

    /** One line of the trace: a new call, or more data for a known one. */
    method AddLine(stack: Stack, called: string, d: Data)
      requires Loaded() && stack != []
      modifies this`data, this`name, this`children
      ensures Loaded() && data.Keys == old(data).Keys + {stack}
      ensures forall s :: s in old(data) && s != stack ==> data[s] == old(data)[s]
      ensures name == if stack in old(data) then old(name) else old(name)[stack := called]
      ensures if stack in old(data) then SumOf(old(data)[stack], d, data[stack]) else data[stack] == d
    {
      hide Forest, SumOf;
      if stack in data {
        AddData(stack, d);
      } else {
        AddCall(stack, called, d);
      }
    }

    method AddData(stack: Stack, d: Data)
      requires Loaded() && stack in data
      modifies this`data
      ensures Loaded() && data.Keys == old(data).Keys && SumOf(old(data)[stack], d, data[stack])
      ensures forall s :: s in old(data) && s != stack ==> data[s] == old(data)[s]
    {
      hide Forest, SumOf;
      var sum := AddTotals(data[stack], d);
      data := data[stack := sum];
      assert data.Keys == old(data).Keys;
    }

    method AddCall(stack: Stack, called: string, d: Data)
      requires Loaded() && stack != [] && stack !in data
      modifies this`data, this`name, this`children
      ensures Loaded() && data == old(data)[stack := d] && name == old(name)[stack := called]
    {
      hide Forest;
      ForestMore(data.Keys, children, stack);
      data := data[stack := d];
      name := name[stack := called];
      var parent := Parent(stack);
      children := children[parent := Kids(children, parent) + {stack}];
      assert data.Keys == old(data).Keys + {stack};
    }

    /** The calls that are nobody's child. */
    method FindRoots() returns (roots: set<Stack>)
      requires Loaded()
      ensures roots == Roots(data.Keys)
    {
      roots := data.Keys;
      var todo := data.Keys;
      while todo != {}
        invariant todo <= data.Keys
        invariant roots == set s | s in data && !(Parent(s) in data && Parent(s) !in todo)
        decreases todo
      {
        var parent :| parent in todo;
        ForestKids(data.Keys, children, parent);
        todo := todo - {parent};
        assert Kids(children, parent) <= roots;
        roots := roots - Kids(children, parent);
      }
    }

    /** The worklist: each call once, children before their parents. */
    method OrderCalls(roots: set<Stack>) returns (order: seq<Stack>)
      requires Loaded() && roots == Roots(data.Keys)
      ensures BottomUp(order, data.Keys)
    {
      hide Forest, Frontier, ParentsLater;
      ghost var calls, placed, left := data.Keys, {}, roots;
      assert [] !in calls by { NoEmptyStack(calls, children); }
      order := [];
      var todo := AsSequence(roots);
      Begin(calls);
      while todo != []
        invariant Enumerates(order, placed) && ParentsLater(order)
        invariant Enumerates(todo, left) && Frontier(calls, placed, left)
        decreases calls - placed
      {
        var last := |todo| - 1;
        var s := todo[last];
        FrontierSets(calls, placed, left);
        assert s in left;
        ForestKids(calls, children, s);
        FrontierStep(calls, placed, left, s);
        PlaceFirst(calls, order, placed, left, s);
        var kids := AsSequence(Kids(children, s));
        ListsMore(todo, left, kids, Children(calls, s));
        order := [s] + order;
        todo := todo[..last] + kids;
        placed, left := placed + {s}, left - {s} + Children(calls, s);
      }
      assert left == {};
      AllArePlaced(calls, placed);
    }

    // ----- totals and folding

    /** `buildTotal`, for a call whose children have all been visited. */
    method BuildTotal(s: Stack, ghost orig: map<Stack, Data>, ghost folds: set<Stack>, ghost done: set<Stack>)
      requires Built(keys, orig, folds, done, data, total, children, folded)
      requires Counted(keys, orig, done, data, total, totals, folds)
      requires s in orig && s !in done && Children(orig.Keys, s) <= done
      requires s in name && (s in folds <==> name[s] == ".plt")
      modifies this`data, this`total, this`children, this`folded, this`totals
      ensures Built(keys, orig, folds, done + {s}, data, total, children, folded)
      ensures Counted(keys, orig, done + {s}, data, total, totals, folds)
    {
      hide Counted, Built;
      BuiltKids(keys, orig, folds, done, data, total, children, folded, s);
      totals := AddTotals(totals, data[s]);
      var kids := Kids(children, s);
      var t, d, shown := FoldKids(s, kids, keys, data, total, children, folded);
      BuiltMore(keys, orig, folds, done, data, total, children, folded, s, t, d, shown);
      CountedMore(keys, orig, folds, done, data, total, children, folded, old(totals), totals, s, t, d, shown);
      total := total[s := t];
      data := data[s := d];
      children := children[s := shown];
      folded := folded[s := name[s] == ".plt"];
    }

    /** The totals of all calls, in the order of the worklist. */
    method BuildTotals(order: seq<Stack>, ghost folds: set<Stack>)
      requires Loaded() && Uniform(data, keys) && BottomUp(order, data.Keys)
      requires total == map[] && folded == map[] && totals == map[]
      requires folds == Plt(name)
      modifies this`data, this`total, this`children, this`folded, this`totals
      ensures Built(keys, old(data), folds, old(data).Keys, data, total, children, folded)
      ensures Counted(keys, old(data), old(data).Keys, data, total, totals, folds)
    {
      hide Counted, Built, BottomUp;
      ghost var orig := data;
      Unbuilt(keys, orig, folds, children);
      assert First(order, 0) == {};
      for i := 0 to |order|
        invariant Built(keys, orig, folds, First(order, i), data, total, children, folded)
        invariant Counted(keys, orig, First(order, i), data, total, totals, folds)
      {
        OrderStep(order, orig.Keys, i);
        BuildTotal(order[i], orig, folds, First(order, i));
      }
      OrderEnd(order, orig.Keys);
    }

    /** From the lines of the trace to the folded call tree. Root totals sum to the profile's totals; what is shown
        under a call is never folded; and the data of the calls that are not folded sums to the totals, up to the
        data of folded roots, for every counter but the number of calls. */
    method Build()
      requires Loaded() && Uniform(data, keys) && total == map[] && folded == map[] && totals == map[]
      modifies this`data, this`total, this`children, this`folded, this`totals
      ensures data.Keys == old(data).Keys && total.Keys == data.Keys && folded.Keys == data.Keys
      ensures forall k :: k in keys ==>
        Get(totals, k) == Sum(data.Keys, Column(old(data), k)) == Sum(Roots(data.Keys), Column(total, k))
      ensures forall s :: s in data ==> s in name && (folded[s] <==> name[s] == ".plt")
      ensures forall s, k :: s in data && k in keys ==>
        Get(total[s], k) == Sum(Subtree(data.Keys, s), Column(old(data), k))
      ensures forall s, k :: s in data && k in keys ==> Get(data[s], k) == Kept(old(data), Plt(name), s, k)
      ensures forall s :: s in data ==> Kids(children, s) == ShownUnder(data.Keys, Plt(name), s)
      ensures forall s, c :: s in data && c in Kids(children, s) ==> c in folded && !folded[c]
      ensures forall k :: k in keys && k != CALLS ==>
        Get(totals, k) == Sum(data.Keys - Plt(name), Column(data, k))
          + Sum(Roots(data.Keys) * Plt(name), Column(data, k))
    {
      hide BottomUp, Loaded;
      ghost var orig := data;
      assert [] !in orig by { NoCallOutside(); }
      AllNamed();
      var roots := FindRoots();
      var order := OrderCalls(roots);
      BuildTotals(order, Plt(name));
      Conclude(keys, orig, Plt(name), data, total, children, folded, totals);
    }

    lemma AllNamed()
      ensures Loaded() ==> forall s :: s in data ==> s in name
    {
    }

    lemma NoCallOutside()
      requires Loaded()
      ensures [] !in data
    {
      NoEmptyStack(data.Keys, children);
    }
  }

  function Plt(name: map<Stack, string>): set<Stack> {
    set s | s in name && name[s] == ".plt"
  }

  ghost function First(order: seq<Stack>, i: nat): set<Stack>
    requires i <= |order|
  {
    set s | s in order[..i]
  }

  lemma Unbuilt(keys: set<Key>, orig: map<Stack, Data>, folds: set<Stack>, children: map<Stack, set<Stack>>)
    requires Uniform(orig, keys) && Forest(orig.Keys, children)
    ensures Built(keys, orig, folds, {}, orig, map[], children, map[])
    ensures Counted(keys, orig, {}, orig, map[], map[], folds)
  {
    NoEmptyStack(orig.Keys, children);
    forall s | s in orig
      ensures Kids(children, s) == Children(orig.Keys, s)
    {
      ForestKids(orig.Keys, children, s);
    }
    assert Unmerged(folds, {}) == {};
  }

  lemma OrderStep(order: seq<Stack>, calls: set<Stack>, i: nat)
    requires BottomUp(order, calls) && i < |order|
    ensures order[i] in calls && order[i] !in First(order, i) && Children(calls, order[i]) <= First(order, i)
    ensures First(order, i + 1) == First(order, i) + {order[i]}
  {
    assert order[..i + 1] == order[..i] + [order[i]];
    assert order[i] in order;
    forall c | c in Children(calls, order[i])
      ensures c in First(order, i)
    {
      assert c in order;
      var j :| 0 <= j < |order| && order[j] == c;
      assert j < i;
      assert order[..i][j] == c;
    }
  }

  lemma OrderEnd(order: seq<Stack>, calls: set<Stack>)
    requires BottomUp(order, calls)
    ensures First(order, |order|) == calls
  {
    assert order[..|order|] == order;
  }

  lemma Conclude(keys: set<Key>, orig: map<Stack, Data>, folds: set<Stack>, data: map<Stack, Data>,
                 total: map<Stack, Data>, children: map<Stack, set<Stack>>, folded: map<Stack, bool>, totals: Data)
    requires [] !in orig
    requires Built(keys, orig, folds, orig.Keys, data, total, children, folded)
    requires Counted(keys, orig, orig.Keys, data, total, totals, folds)
    ensures data.Keys == orig.Keys && total.Keys == data.Keys && folded.Keys == data.Keys
    ensures forall k :: k in keys ==>
      Get(totals, k) == Sum(data.Keys, Column(orig, k)) == Sum(Roots(data.Keys), Column(total, k))
    ensures forall s :: s in data ==> (folded[s] <==> s in folds)
    ensures forall s, k :: s in data && k in keys ==>
      Get(total[s], k) == Sum(Subtree(data.Keys, s), Column(orig, k)) && Get(data[s], k) == Kept(orig, folds, s, k)
    ensures forall s :: s in data ==> Kids(children, s) == ShownUnder(data.Keys, folds, s)
    ensures forall s, c :: s in data && c in Kids(children, s) ==> c in folded && !folded[c]
    ensures forall k :: k in keys && k != CALLS ==>
      Get(totals, k) == Sum(data.Keys - folds, Column(data, k)) + Sum(Roots(data.Keys) * folds, Column(data, k))
  {
    BuiltDomains(keys, orig, folds, orig.Keys, data, total, children, folded);
    hide Roots, Sum, Get, Column, Counted, Uniform, Rest;
    forall k | k in keys
      ensures Get(totals, k) == Sum(data.Keys, Column(orig, k)) == Sum(Roots(data.Keys), Column(total, k))
      ensures k != CALLS ==>
        Get(totals, k) == Sum(data.Keys - folds, Column(data, k)) + Sum(Roots(data.Keys) * folds, Column(data, k))
    {
      ConcludeSums(keys, orig, folds, data, total, totals, k);
    }
    hide Kept;
    forall s, k | s in data && k in keys
      ensures Get(total[s], k) == Sum(Subtree(data.Keys, s), Column(orig, k))
      ensures Get(data[s], k) == Kept(orig, folds, s, k)
    {
      ConcludeTotal(keys, orig, folds, data, total, totals, s, k);
    }
    forall s | s in data
      ensures folded[s] <==> s in folds
    {
      assert Visited(orig.Keys, folds, orig.Keys, children, folded, s);
    }
    forall s, c | s in data && c in Kids(children, s)
      ensures c in folded && !folded[c]
    {
      assert Visited(orig.Keys, folds, orig.Keys, children, folded, s);
      assert c in orig;
      assert Visited(orig.Keys, folds, orig.Keys, children, folded, c);
    }
  }

  lemma ConcludeTotal(keys: set<Key>, orig: map<Stack, Data>, folds: set<Stack>, data: map<Stack, Data>,
                      total: map<Stack, Data>, totals: Data, s: Stack, k: Key)
    requires data.Keys == orig.Keys && total.Keys == orig.Keys && k in keys && s in orig
    requires Counted(keys, orig, orig.Keys, data, total, totals, folds)
    ensures Get(total[s], k) == Sum(Subtree(orig.Keys, s), Column(orig, k))
    ensures Get(data[s], k) == Kept(orig, folds, s, k)
  {
    assert CountedKey(orig, orig.Keys, data, total, totals, folds, k);
    hide Sum, Subtree, Kept;
  }

  lemma BuiltDomains(keys: set<Key>, orig: map<Stack, Data>, folds: set<Stack>, done: set<Stack>,
                     data: map<Stack, Data>, total: map<Stack, Data>, children: map<Stack, set<Stack>>,
                     folded: map<Stack, bool>)
    requires Built(keys, orig, folds, done, data, total, children, folded)
    ensures data.Keys == orig.Keys && total.Keys == done && folded.Keys == done
  {
  }

  lemma ConcludeSums(keys: set<Key>, orig: map<Stack, Data>, folds: set<Stack>, data: map<Stack, Data>,
                     total: map<Stack, Data>, totals: Data, k: Key)
    requires [] !in orig && data.Keys == orig.Keys && total.Keys == orig.Keys && k in keys
    requires Counted(keys, orig, orig.Keys, data, total, totals, folds)
    ensures Get(totals, k) == Sum(orig.Keys, Column(orig, k)) == Sum(Roots(orig.Keys), Column(total, k))
    ensures k != CALLS ==>
      Get(totals, k) == Sum(orig.Keys - folds, Column(data, k)) + Sum(Roots(orig.Keys) * folds, Column(data, k))
  {
    assert CountedKey(orig, orig.Keys, data, total, totals, folds, k);
    hide Sum;
    RootSum(orig.Keys, Column(total, k), Column(orig, k));
    if k != CALLS {
      UnmergedRoots(orig.Keys, folds);
      SumUnion(orig.Keys - folds, Roots(orig.Keys) * folds, Column(data, k));
    }
  }

  lemma UnmergedRoots(calls: set<Stack>, folds: set<Stack>)
    ensures Unmerged(folds, calls) == (calls - folds) + Roots(calls) * folds
  {
  }

  // ----- one call

  function Get(totals: Data, k: Key): int {
    if k in totals then totals[k] else 0
  }

  /** The counters of two lines together. */
  ghost predicate SumOf(a: Data, b: Data, r: Data) {
    r.Keys == a.Keys + b.Keys && forall k :: k in r ==> r[k] == Get(a, k) + Get(b, k)
  }

  /** Adds counters to others, those that are missing being 0. */
  method AddTotals(totals: Data, d: Data) returns (r: Data)
    ensures SumOf(totals, d, r)
  {
    r := totals;
    var todo := d.Keys;
    while todo != {}
      invariant todo <= d.Keys && r.Keys == totals.Keys + (d.Keys - todo)
      invariant forall k :: k in r ==> r[k] == Get(totals, k) + if k in todo then 0 else Get(d, k)
      decreases todo
    {
      var k :| k in todo;
      todo := todo - {k};
      r := r[k := Get(r, k) + d[k]];
    }
  }

  function FoldedIn(kids: set<Stack>, folded: map<Stack, bool>): set<Stack> {
    set c | c in kids && c in folded && folded[c]
  }

  function Grandchildren(kids: set<Stack>, children: map<Stack, set<Stack>>): set<Stack> {
    set c, t | c in kids && t in Kids(children, c) :: t
  }

  /** `r` is `base` with the counters of some calls added, but for those in `except`. */
  ghost predicate Added(keys: set<Key>, base: Data, calls: set<Stack>, data: map<Stack, Data>, except: set<Key>,
                        r: Data)
    requires calls <= data.Keys
  {
    r.Keys == keys
    && forall k :: k in keys ==> Get(r, k) == Get(base, k) + if k in except then 0 else Sum(calls, Column(data, k))
  }

  lemma AddedNone(keys: set<Key>, base: Data, data: map<Stack, Data>, except: set<Key>)
    requires base.Keys == keys
    ensures Added(keys, base, {}, data, except, base)
  {
  }

  lemma AddedKeys(keys: set<Key>, base: Data, calls: set<Stack>, data: map<Stack, Data>, except: set<Key>, r: Data)
    requires calls <= data.Keys && Added(keys, base, calls, data, except, r)
    ensures r.Keys == keys
  {
  }

  lemma AddedOne(keys: set<Key>, base: Data, calls: set<Stack>, data: map<Stack, Data>, except: set<Key>, r: Data,
                 c: Stack, r': Data)
    requires calls <= data.Keys && Added(keys, base, calls, data, except, r) && c in data && c !in calls
    requires data[c].Keys == keys && r'.Keys == keys
    requires forall k :: k in keys ==> r'[k] == r[k] + if k in except then 0 else data[c][k]
    ensures Added(keys, base, calls + {c}, data, except, r')
  {
    forall k | k in keys
      ensures Sum(calls + {c}, Column(data, k)) == Sum(calls, Column(data, k)) + data[c][k]
    {
      SumAdd(calls, Column(data, k), c);
    }
    hide Sum, Column;
  }

  /** The children that are left: the folded ones give way to theirs. */
  function Left(kids: set<Stack>, folded: map<Stack, bool>, children: map<Stack, set<Stack>>): set<Stack> {
    kids - FoldedIn(kids, folded) + Grandchildren(FoldedIn(kids, folded), children)
  }

  /** What the children of `s` add to its total, what the folded ones add to its data, and the children left. */
  ghost predicate FoldedUp(s: Stack, kids: set<Stack>, keys: set<Key>, data: map<Stack, Data>, total: map<Stack, Data>,
                           children: map<Stack, set<Stack>>, folded: map<Stack, bool>, t: Data, d: Data,
                           shown: set<Stack>)
    requires s in data && kids <= total.Keys && kids <= data.Keys
  {
    && Added(keys, data[s], kids, total, {}, t)
    && Added(keys, data[s], FoldedIn(kids, folded), data, {CALLS}, d)
    && shown == Left(kids, folded, children)
  }

  method FoldKids(s: Stack, kids: set<Stack>, keys: set<Key>, data: map<Stack, Data>, total: map<Stack, Data>,
                  children: map<Stack, set<Stack>>, folded: map<Stack, bool>)
    returns (t: Data, d: Data, shown: set<Stack>)
    requires s in data && kids <= total.Keys && kids <= data.Keys
    requires kids <= folded.Keys && Uniform(data, keys) && Uniform(total, keys)
    requires kids !! Grandchildren(kids, children)
    ensures FoldedUp(s, kids, keys, data, total, children, folded, t, d, shown)
  {
    hide Added, Left, Grandchildren, FoldedIn;
    t, d, shown := data[s], data[s], kids;
    var todo := kids;
    AddedNone(keys, data[s], total, {});
    AddedNone(keys, data[s], data, {CALLS});
    NoneFolded(kids, folded, children);
    assert kids - kids == {};
    while todo != {}
      invariant todo <= kids && FoldedIn(kids - todo, folded) <= data.Keys
      invariant Added(keys, data[s], kids - todo, total, {}, t)
      invariant Added(keys, data[s], FoldedIn(kids - todo, folded), data, {CALLS}, d)
      invariant shown == Left(kids - todo, folded, children) + todo
      decreases todo
    {
      var c :| c in todo;
      ghost var t0, d0, before := t, d, kids - todo;
      AddedKeys(keys, data[s], before, total, {}, t);
      AddedKeys(keys, data[s], FoldedIn(before, folded), data, {CALLS}, d);
      OneMoreFolded(kids, before, folded, children, c, todo);
      t := AddTo(t, total[c], {});
      AddedOne(keys, data[s], before, total, {}, t0, c, t);
      if folded[c] {
        d := AddTo(d, data[c], {CALLS});
        AddedOne(keys, data[s], FoldedIn(before, folded), data, {CALLS}, d0, c, d);
        shown := shown - {c} + Kids(children, c);
      }
      assert before + {c} == kids - (todo - {c});
      todo := todo - {c};
    }
    assert kids - {} == kids && shown == Left(kids, folded, children) + {};
  }

  lemma NoneFolded(kids: set<Stack>, folded: map<Stack, bool>, children: map<Stack, set<Stack>>)
    ensures FoldedIn({}, folded) == {} && Left({}, folded, children) == {}
  {
    assert FoldedIn({}, folded) == {};
  }

  lemma OneMoreFolded(kids: set<Stack>, before: set<Stack>, folded: map<Stack, bool>, children: map<Stack, set<Stack>>,
                      c: Stack, todo: set<Stack>)
    requires kids !! Grandchildren(kids, children) && before == kids - todo && c in todo && todo <= kids && c in folded
    ensures c !in FoldedIn(before, folded)
    ensures FoldedIn(before + {c}, folded) ==
      if folded[c] then FoldedIn(before, folded) + {c} else FoldedIn(before, folded)
    ensures var shown := Left(before, folded, children) + todo;
            Left(before + {c}, folded, children) + (todo - {c}) ==
              if folded[c] then shown - {c} + Kids(children, c) else shown
  {
    var f := FoldedIn(before, folded);
    assert FoldedIn(before + {c}, folded) == if folded[c] then f + {c} else f;
    assert Grandchildren(f + {c}, children) == Grandchildren(f, children) + Kids(children, c);
    forall t | t in Grandchildren(f + {c}, children)
      ensures t !in kids
    {
      assert t in Grandchildren(kids, children);
    }
    hide Grandchildren, FoldedIn;
  }

  // ----- what every visit keeps

  /** The calls whose data has not been added to a parent's. */
  ghost function Unmerged(folds: set<Stack>, done: set<Stack>): set<Stack> {
    set s | s in done && !(s in folds && Parent(s) in done)
  }

  /** After the visits in `done`: the flags are set, children are what is shown, and the rest is as it was. */
  ghost predicate Built(keys: set<Key>, orig: map<Stack, Data>, folds: set<Stack>, done: set<Stack>,
                        data: map<Stack, Data>, total: map<Stack, Data>, children: map<Stack, set<Stack>>,
                        folded: map<Stack, bool>) {
    && [] !in orig && Uniform(orig, keys) && Uniform(data, keys) && Uniform(total, keys)
    && Domains(orig, done, data, total, folded) && Rest(orig, done, data, children)
    && (forall s :: s in done ==> Visited(orig.Keys, folds, done, children, folded, s))
  }

  ghost predicate Domains(orig: map<Stack, Data>, done: set<Stack>, data: map<Stack, Data>, total: map<Stack, Data>,
                          folded: map<Stack, bool>) {
    done <= orig.Keys && data.Keys == orig.Keys && total.Keys == done && folded.Keys == done
  }

  ghost predicate Rest(orig: map<Stack, Data>, done: set<Stack>, data: map<Stack, Data>,
                       children: map<Stack, set<Stack>>) {
    forall s :: s in orig && s !in done ==>
      s in data && data[s] == orig[s] && Kids(children, s) == Children(orig.Keys, s)
  }

  lemma UniformMore(data: map<Stack, Data>, keys: set<Key>, s: Stack, d: Data)
    requires Uniform(data, keys) && d.Keys == keys
    ensures Uniform(data[s := d], keys)
  {
  }

  lemma RestMore(orig: map<Stack, Data>, done: set<Stack>, data: map<Stack, Data>, children: map<Stack, set<Stack>>,
                 s: Stack, d: Data, shown: set<Stack>)
    requires Rest(orig, done, data, children)
    ensures Rest(orig, done + {s}, data[s := d], children[s := shown])
  {
    hide Children;
  }

  ghost predicate Visited(calls: set<Stack>, folds: set<Stack>, done: set<Stack>, children: map<Stack, set<Stack>>,
                          folded: map<Stack, bool>, s: Stack) {
    && Children(calls, s) <= done && s in folded && folded[s] == (s in folds)
    && Kids(children, s) == ShownUnder(calls, folds, s)
  }

  /** The sums over the visits in `done`: the profile's totals, every call's total, and the data not merged away. */
  ghost predicate Counted(keys: set<Key>, orig: map<Stack, Data>, done: set<Stack>, data: map<Stack, Data>,
                          total: map<Stack, Data>, totals: Data, folds: set<Stack>) {
    && done <= orig.Keys && done <= data.Keys && done <= total.Keys
    && forall k :: k in keys ==> CountedKey(orig, done, data, total, totals, folds, k)
  }

  /** A counter of a call with the data of the calls that it absorbs; only the number of calls stays its own. */
  ghost function Kept(orig: map<Stack, Data>, folds: set<Stack>, s: Stack, k: Key): int
    requires s in orig
  {
    if k == CALLS then Get(orig[s], k) else Sum(Absorbed(orig.Keys, folds, s), Column(orig, k))
  }

  ghost predicate CountedKey(orig: map<Stack, Data>, done: set<Stack>, data: map<Stack, Data>,
                             total: map<Stack, Data>, totals: Data, folds: set<Stack>, k: Key)
    requires done <= orig.Keys && done <= data.Keys && done <= total.Keys
  {
    && Get(totals, k) == Sum(done, Column(orig, k))
    && (forall s :: s in done ==> Get(total[s], k) == Sum(Subtree(orig.Keys, s), Column(orig, k)))
    && (forall s :: s in done ==> Get(data[s], k) == Kept(orig, folds, s, k))
    && (k != CALLS ==> Sum(Unmerged(folds, done), Column(data, k)) == Sum(done, Column(orig, k)))
  }

  lemma BuiltKids(keys: set<Key>, orig: map<Stack, Data>, folds: set<Stack>, done: set<Stack>, data: map<Stack, Data>,
                  total: map<Stack, Data>, children: map<Stack, set<Stack>>, folded: map<Stack, bool>, s: Stack)
    requires Built(keys, orig, folds, done, data, total, children, folded)
    requires s in orig && s !in done && Children(orig.Keys, s) <= done
    ensures var kids := Kids(children, s);
            && s in data && data[s] == orig[s] && data[s].Keys == keys && Uniform(data, keys) && Uniform(total, keys)
            && kids == Children(orig.Keys, s) && kids <= done && done <= orig.Keys
            && kids <= total.Keys && kids <= data.Keys && kids <= folded.Keys
            && kids !! Grandchildren(kids, children)
  {
    var kids := Kids(children, s);
    forall t | t in Grandchildren(kids, children)
      ensures t !in kids
    {
      var c :| c in kids && t in Kids(children, c);
      assert Shown(orig.Keys, folds, c, t);
      ChildOf(orig.Keys, s, c);
      assert |t| > |c| by { assert t[..|t|] == t; }
    }
  }

  lemma LeftIsShown(keys: set<Key>, orig: map<Stack, Data>, folds: set<Stack>, done: set<Stack>, data: map<Stack, Data>,
                    total: map<Stack, Data>, children: map<Stack, set<Stack>>, folded: map<Stack, bool>, s: Stack)
    requires Built(keys, orig, folds, done, data, total, children, folded)
    requires s in orig && s !in done && Children(orig.Keys, s) <= done
    ensures var kids := Children(orig.Keys, s);
            FoldedIn(kids, folded) == kids * folds && Left(kids, folded, children) == ShownUnder(orig.Keys, folds, s)
  {
    hide Uniform, Rest, Domains;
    var calls, kids := orig.Keys, Children(orig.Keys, s);
    assert FoldedIn(kids, folded) == kids * folds;
    ShownParts(calls, folds, s);
    forall c | c in kids * folds
      ensures Kids(children, c) == Showns(calls, folds)[c]
    {
    }
    hide Kids, Showns, Children, ShownUnder, Visited;
    assert Grandchildren(kids * folds, children) == Union(kids * folds, Showns(calls, folds));
  }

  lemma BuiltMore(keys: set<Key>, orig: map<Stack, Data>, folds: set<Stack>, done: set<Stack>, data: map<Stack, Data>,
                  total: map<Stack, Data>, children: map<Stack, set<Stack>>, folded: map<Stack, bool>,
                  s: Stack, t: Data, d: Data, shown: set<Stack>)
    requires Built(keys, orig, folds, done, data, total, children, folded)
    requires s in orig && s !in done && Children(orig.Keys, s) <= done
    requires FoldedUp(s, Children(orig.Keys, s), keys, data, total, children, folded, t, d, shown)
    ensures Built(keys, orig, folds, done + {s}, data[s := d], total[s := t], children[s := shown],
                  folded[s := s in folds])
  {
    hide ShownUnder, Added, Left, Children, FoldedIn, Rest, Uniform, Visited, Domains;
    DomainsMore(orig, done, data, total, folded, s, t, d, s in folds);
    LeftIsShown(keys, orig, folds, done, data, total, children, folded, s);
    AddedKeys(keys, data[s], Children(orig.Keys, s), total, {}, t);
    AddedKeys(keys, data[s], FoldedIn(Children(orig.Keys, s), folded), data, {CALLS}, d);
    UniformMore(total, keys, s, t);
    UniformMore(data, keys, s, d);
    RestMore(orig, done, data, children, s, d, shown);
    VisitedMore(orig.Keys, folds, done, children, folded, s);
  }

  lemma DomainsMore(orig: map<Stack, Data>, done: set<Stack>, data: map<Stack, Data>, total: map<Stack, Data>,
                    folded: map<Stack, bool>, s: Stack, t: Data, d: Data, b: bool)
    requires Domains(orig, done, data, total, folded) && s in orig
    ensures Domains(orig, done + {s}, data[s := d], total[s := t], folded[s := b])
    ensures done <= data.Keys && done <= total.Keys && s in data
  {
  }

  lemma VisitedMore(calls: set<Stack>, folds: set<Stack>, done: set<Stack>, children: map<Stack, set<Stack>>,
                    folded: map<Stack, bool>, s: Stack)
    requires s !in done && Children(calls, s) <= done
    requires forall x :: x in done ==> Visited(calls, folds, done, children, folded, x)
    ensures var children' := children[s := ShownUnder(calls, folds, s)];
            forall x :: x in done + {s} ==> Visited(calls, folds, done + {s}, children', folded[s := s in folds], x)
  {
    hide ShownUnder, Children;
  }

  lemma TotalMore(orig: map<Stack, Data>, done: set<Stack>, data: map<Stack, Data>, total: map<Stack, Data>,
                  totals: Data, folds: set<Stack>, s: Stack, t: Data, k: Key)
    requires done <= orig.Keys && done <= data.Keys && done <= total.Keys
    requires CountedKey(orig, done, data, total, totals, folds, k) && s in orig && Children(orig.Keys, s) <= done
    requires Get(t, k) == Get(orig[s], k) + Sum(Children(orig.Keys, s), Column(total, k))
    ensures Get(t, k) == Sum(Subtree(orig.Keys, s), Column(orig, k))
  {
    hide Subtree, Children;
    SubtreeSum(orig.Keys, s, Column(total, k), Column(orig, k));
  }

  lemma KeptMore(orig: map<Stack, Data>, folds: set<Stack>, done: set<Stack>, data: map<Stack, Data>, s: Stack, d: Data,
                 k: Key)
    requires done <= orig.Keys && data.Keys == orig.Keys && s in orig && Children(orig.Keys, s) <= done
    requires forall x :: x in done ==> Get(data[x], k) == Kept(orig, folds, x, k)
    requires Get(d, k) ==
      Get(orig[s], k) + if k == CALLS then 0 else Sum(Children(orig.Keys, s) * folds, Column(data, k))
    ensures Get(d, k) == Kept(orig, folds, s, k)
  {
    hide Absorbed, Children;
    if k != CALLS {
      AbsorbedSum(orig.Keys, folds, s, Column(data, k), Column(orig, k));
    }
  }

  lemma UnmergedMore(calls: set<Stack>, folds: set<Stack>, done: set<Stack>, s: Stack)
    requires [] !in calls && done <= calls && s in calls && s !in done && Children(calls, s) <= done
    requires forall x :: x in done ==> Children(calls, x) <= done
    ensures var merged := Children(calls, s) * folds;
            && merged <= Unmerged(folds, done) && s !in Unmerged(folds, done)
            && Unmerged(folds, done + {s}) == Unmerged(folds, done) - merged + {s}
  {
    assert Parent(s) != s;
    assert Parent(s) !in done by {
      assert s in Children(calls, Parent(s));
    }
    forall x | x in done
      ensures Parent(x) == s <==> x in Children(calls, s)
    {
    }
  }

  lemma DataMore(orig: map<Stack, Data>, done: set<Stack>, data: map<Stack, Data>, folds: set<Stack>, s: Stack,
                 d: Data, k: Key)
    requires [] !in orig && data.Keys == orig.Keys && done <= orig.Keys
    requires forall x :: x in done ==> Children(orig.Keys, x) <= done
    requires Sum(Unmerged(folds, done), Column(data, k)) == Sum(done, Column(orig, k))
    requires s in orig && s !in done && Children(orig.Keys, s) <= done
    requires Get(d, k) == Get(orig[s], k) + Sum(Children(orig.Keys, s) * folds, Column(data, k))
    ensures Sum(Unmerged(folds, done + {s}), Column(data[s := d], k)) == Sum(done + {s}, Column(orig, k))
  {
    var u, merged := Unmerged(folds, done), Children(orig.Keys, s) * folds;
    UnmergedMore(orig.Keys, folds, done, s);
    hide Unmerged, Children;
    var f, f' := Column(data, k), Column(data[s := d], k);
    assert u == (u - merged) + merged;
    SumUnion(u - merged, merged, f);
    SumSame(u - merged, f, f');
    SumAdd(u - merged, f', s);
    SumAdd(done, Column(orig, k), s);
  }

  lemma CountedMore(keys: set<Key>, orig: map<Stack, Data>, folds: set<Stack>, done: set<Stack>, data: map<Stack, Data>,
                    total: map<Stack, Data>, children: map<Stack, set<Stack>>, folded: map<Stack, bool>,
                    totals: Data, totals': Data, s: Stack, t: Data, d: Data, shown: set<Stack>)
    requires Built(keys, orig, folds, done, data, total, children, folded)
    requires Counted(keys, orig, done, data, total, totals, folds)
    requires s in orig && s !in done && Children(orig.Keys, s) <= done
    requires FoldedUp(s, Children(orig.Keys, s), keys, data, total, children, folded, t, d, shown)
    requires forall k :: Get(totals', k) == Get(totals, k) + Get(data[s], k)
    ensures Counted(keys, orig, done + {s}, data[s := d], total[s := t], totals', folds)
  {
    hide Sum, Unmerged, Subtree, Children, Column, CountedKey, Left;
    LeftIsShown(keys, orig, folds, done, data, total, children, folded, s);
    forall k | k in keys
      ensures CountedKey(orig, done + {s}, data[s := d], total[s := t], totals', folds, k)
    {
      CountedKeyMore(orig, folds, done, data, total, totals, totals', s, t, d, k);
    }
  }

  lemma CountedKeyMore(orig: map<Stack, Data>, folds: set<Stack>, done: set<Stack>, data: map<Stack, Data>,
                       total: map<Stack, Data>, totals: Data, totals': Data, s: Stack, t: Data, d: Data, k: Key)
    requires [] !in orig && data.Keys == orig.Keys && done <= orig.Keys && done <= total.Keys
    requires forall x :: x in done ==> Children(orig.Keys, x) <= done
    requires CountedKey(orig, done, data, total, totals, folds, k)
    requires s in orig && s !in done && Children(orig.Keys, s) <= done
    requires data[s] == orig[s] && Get(totals', k) == Get(totals, k) + Get(orig[s], k)
    requires Get(t, k) == Get(orig[s], k) + Sum(Children(orig.Keys, s), Column(total, k))
    requires Get(d, k) ==
      Get(orig[s], k) + if k == CALLS then 0 else Sum(Children(orig.Keys, s) * folds, Column(data, k))
    ensures CountedKey(orig, done + {s}, data[s := d], total[s := t], totals', folds, k)
  {
    hide Sum, Unmerged, Subtree, Children, Kept;
    SumAdd(done, Column(orig, k), s);
    TotalMore(orig, done, data, total, totals, folds, s, t, k);
    KeptMore(orig, folds, done, data, s, d, k);
    if k != CALLS {
      DataMore(orig, done, data, folds, s, d, k);
    }
  }

  lemma NoEmptyStack(calls: set<Stack>, children: map<Stack, set<Stack>>)
    requires Forest(calls, children)
    ensures [] !in calls
  {
  }

  lemma Begin(calls: set<Stack>)
    ensures Frontier(calls, {}, Roots(calls)) && ParentsLater([])
  {
  }

  lemma FrontierSets(calls: set<Stack>, placed: set<Stack>, todo: set<Stack>)
    requires Frontier(calls, placed, todo)
    ensures placed <= calls && todo <= calls && placed !! todo
  {
  }

  lemma AllArePlaced(calls: set<Stack>, placed: set<Stack>)
    requires [] !in calls && Frontier(calls, placed, {})
    ensures placed == calls
  {
    forall s | s in calls
      ensures s in placed
    {
      AllPlaced(calls, placed, s);
    }
  }

  lemma ListsMore(q: seq<Stack>, s: set<Stack>, r: seq<Stack>, t: set<Stack>)
    requires Enumerates(q, s) && Enumerates(r, t) && s !! t && q != []
    ensures var k := |q| - 1; Enumerates(q[..k] + r, s - {q[k]} + t)
  {
    var k := |q| - 1;
    var q' := q[..k] + r;
    assert q == q[..k] + [q[k]];
    forall x
      ensures x in q' <==> x in s - {q[k]} + t
    {
      assert x in q[..k] <==> x in s && x != q[k];
    }
    forall i, j | 0 <= i < j < |q'|
      ensures q'[i] != q'[j]
    {
      assert i < k ==> q[i] in s;
      assert j >= k ==> r[j - k] in t;
    }
  }
}
