/** `Profile.find_cycles`: strongly connected components of a call graph, found by Tarjan's algorithm. */
module Tarjan {
  import opened Basics
  import opened Graph

  // ----- the traversal's invariant

  /** `gray` are the functions whose calls are still being followed. Everything on the stack is reached by what
      lies below it, and reaches some gray function below it; functions taken off the stack lead only to others
      that were taken off. */
  ghost predicate Shape(g: Graph, stack: seq<Id>, orders: map<Id, nat>, gray: set<Id>, order: nat) {
    && Closed(g) && orders.Keys <= g.Keys
    && (forall x :: x in orders ==> orders[x] < order)
    && (forall i :: 0 <= i < |stack| ==> stack[i] in orders)
    && (forall i, j :: 0 <= i < j < |stack| ==> orders[stack[i]] < orders[stack[j]])
    && (forall x :: x in gray ==> x in stack)
    && (forall u, v :: u in orders && u !in gray && Edge(g, u, v) ==> v in orders)
    && (forall u, v :: u in orders && u !in stack && Edge(g, u, v) ==> v in orders && v !in stack)
    && (forall i, j :: 0 <= i <= j < |stack| ==> Reach(g, stack[i], stack[j]))
    && (forall j :: 0 <= j < |stack| ==> Grounded(g, stack, gray, j))
  }

  /** The function at position `j` of the stack reaches a gray function at or below it. */
  ghost predicate Grounded(g: Graph, stack: seq<Id>, gray: set<Id>, j: nat)
    requires j < |stack|
  {
    exists i :: 0 <= i <= j && stack[i] in gray && Reach(g, stack[j], stack[i])
  }

  // ----- the cycles found so far

  /** On `done`, two distinct functions share a cycle exactly when each reaches the other, and a function has a
      cycle exactly when there is another such function. Nobody else has a cycle. */
  ghost predicate CyclesOk(g: Graph, cycle: map<Id, nat>, done: set<Id>, made: nat) {
    && cycle.Keys <= done
    && (forall u :: u in cycle ==> cycle[u] < made)
    && (forall u, v :: u in done && v in done && u != v ==>
          ((u in cycle && v in cycle && cycle[u] == cycle[v]) <==> Mutual(g, u, v)))
    && (forall u :: u in cycle ==> exists v :: v != u && Mutual(g, u, v))
    && (forall u, v :: u in done && Edge(g, u, v) ==> v in done)
  }

  // ----- steps of the traversal

  lemma Push(g: Graph, stack: seq<Id>, orders: map<Id, nat>, gray: set<Id>, order: nat, f: Id)
    requires Shape(g, stack, orders, gray, order) && f in g && f !in orders
    requires forall x :: x in gray ==> Reach(g, x, f)
    ensures Shape(g, stack + [f], orders[f := order], gray + {f}, order + 1)
  {
    var s := stack + [f];
    forall i, j | 0 <= i <= j < |s|
      ensures Reach(g, s[i], s[j])
    {
      if j < |stack| {
        assert Reach(g, stack[i], stack[j]);
      } else if i == |stack| {
        ReachSelf(g, f);
      } else {
        assert Grounded(g, stack, gray, i);
        var k :| 0 <= k <= i && stack[k] in gray && Reach(g, stack[i], stack[k]);
        ReachTrans(g, stack[i], stack[k], f);
      }
    }
    forall j | 0 <= j < |s|
      ensures Grounded(g, s, gray + {f}, j)
    {
      if j < |stack| {
        assert Grounded(g, stack, gray, j);
        var i :| 0 <= i <= j && stack[i] in gray && Reach(g, stack[j], stack[i]);
        assert s[i] == stack[i] && s[j] == stack[j];
      } else {
        ReachSelf(g, f);
        assert s[j] == f && s[j] in gray + {f};
      }
    }
  }

  /** `low` is the order of a stack function that `f`, at position `pos`, reaches. */
  ghost predicate LowReached(g: Graph, stack: seq<Id>, orders: map<Id, nat>, f: Id, low: nat)
    requires forall i :: 0 <= i < |stack| ==> stack[i] in orders
  {
    exists i :: 0 <= i < |stack| && orders[stack[i]] == low && Reach(g, f, stack[i])
  }

  /** No edge from a function at or above `from` leads below `pos` to an order smaller than `low`. */
  ghost predicate LowBounds(g: Graph, stack: seq<Id>, orders: map<Id, nat>, pos: nat, from: nat, low: nat)
    requires forall i :: 0 <= i < |stack| ==> stack[i] in orders
  {
    forall i, j :: 0 <= i < pos && from <= j < |stack| && i < |stack| && Edge(g, stack[j], stack[i]) ==>
      low <= orders[stack[i]]
  }

  /** The first `k` calls of `f` have been followed. */
  ghost predicate CallsFollowed(g: Graph, stack: seq<Id>, orders: map<Id, nat>, pos: nat, f: Id, k: nat, low: nat)
    requires f in g && k <= |g[f]|
  {
    forall c :: 0 <= c < k ==>
      && g[f][c] in orders
      && (forall i :: 0 <= i < pos && i < |stack| && stack[i] == g[f][c] ==> low <= orders[g[f][c]])
  }

  /** When nothing from `f` upwards leads below `f`, those functions are exactly the component of `f`. */
  lemma Component(g: Graph, stack: seq<Id>, orders: map<Id, nat>, gray: set<Id>, order: nat, pos: nat)
    requires Shape(g, stack, orders, gray, order) && pos < |stack| && stack[pos] in gray
    requires forall i :: pos < i < |stack| ==> stack[i] !in gray
    requires forall v :: Edge(g, stack[pos], v) ==> v in orders
    requires forall i, j :: 0 <= i < pos <= j < |stack| ==> !Edge(g, stack[j], stack[i])
    ensures forall x, y :: x in stack[pos..] ==> (Mutual(g, x, y) <==> y in stack[pos..])
  {
    hide Shape, Mutual, Edge;
    forall x, y | x in Here(stack, orders, pos) && Edge(g, x, y)
      ensures y in Here(stack, orders, pos)
    {
      HereClosed(g, stack, orders, gray, order, pos, x, y);
    }
    PoppedClosed(g, stack, orders, gray, order);
    forall x | x in stack[pos..]
      ensures Mutual(g, stack[pos], x)
    {
      MutualWithRoot(g, stack, orders, gray, order, pos, x);
    }
    forall x, y | x in stack[pos..]
      ensures Mutual(g, x, y) <==> y in stack[pos..]
    {
      if y in stack[pos..] {
        MutualTrans(g, stack[pos], x, y);
      } else {
        NotMutual(g, stack, orders, pos, x, y);
      }
    }
  }

  /** The functions from position `pos` upwards, and those that were taken off. */
  ghost function Here(stack: seq<Id>, orders: map<Id, nat>, pos: nat): set<Id>
    requires pos <= |stack|
  {
    SetOf(stack[pos..]) + Popped(stack, orders)
  }

  lemma HereClosed(g: Graph, stack: seq<Id>, orders: map<Id, nat>, gray: set<Id>, order: nat, pos: nat, x: Id, y: Id)
    requires Shape(g, stack, orders, gray, order) && pos < |stack|
    requires forall i :: pos < i < |stack| ==> stack[i] !in gray
    requires forall v :: Edge(g, stack[pos], v) ==> v in orders
    requires forall i, j :: 0 <= i < pos <= j < |stack| ==> !Edge(g, stack[j], stack[i])
    requires x in Here(stack, orders, pos) && Edge(g, x, y)
    ensures y in Here(stack, orders, pos)
  {
    if x in stack[pos..] {
      var j :| 0 <= j < |stack[pos..]| && stack[pos..][j] == x;
      assert stack[pos + j] == x;
      assert y in orders;
      if y in stack {
        var i :| 0 <= i < |stack| && stack[i] == y;
        assert i >= pos;
        assert y == stack[pos..][i - pos];
      }
    }
  }

  lemma PoppedClosed(g: Graph, stack: seq<Id>, orders: map<Id, nat>, gray: set<Id>, order: nat)
    requires Shape(g, stack, orders, gray, order)
    ensures forall x, y :: x in Popped(stack, orders) && Edge(g, x, y) ==> y in Popped(stack, orders)
  {
  }

  lemma MutualWithRoot(g: Graph, stack: seq<Id>, orders: map<Id, nat>, gray: set<Id>, order: nat, pos: nat, x: Id)
    requires Shape(g, stack, orders, gray, order) && pos < |stack| && x in stack[pos..]
    requires forall i :: pos < i < |stack| ==> stack[i] !in gray
    requires forall x, y :: x in Here(stack, orders, pos) && Edge(g, x, y) ==> y in Here(stack, orders, pos)
    ensures Mutual(g, stack[pos], x)
  {
    var j :| 0 <= j < |stack[pos..]| && stack[pos..][j] == x;
    assert stack[pos + j] == x;
    assert Grounded(g, stack, gray, pos + j);
    var i :| 0 <= i <= pos + j && stack[i] in gray && Reach(g, x, stack[i]);
    ReachStays(g, Here(stack, orders, pos), x, stack[i]);
    StackSplit(stack, orders, pos, i);
  }

  lemma MutualTrans(g: Graph, f: Id, x: Id, y: Id)
    requires Mutual(g, f, x) && Mutual(g, f, y)
    ensures Mutual(g, x, y)
  {
    ReachTrans(g, x, f, y);
    ReachTrans(g, y, f, x);
  }

  lemma NotMutual(g: Graph, stack: seq<Id>, orders: map<Id, nat>, pos: nat, x: Id, y: Id)
    requires pos <= |stack| && x in stack[pos..] && y !in stack[pos..]
    requires forall x, y :: x in Here(stack, orders, pos) && Edge(g, x, y) ==> y in Here(stack, orders, pos)
    requires forall x, y :: x in Popped(stack, orders) && Edge(g, x, y) ==> y in Popped(stack, orders)
    ensures !Mutual(g, x, y)
  {
    if Mutual(g, x, y) {
      ReachStays(g, Here(stack, orders, pos), x, y);
      assert y in Popped(stack, orders);
      ReachStays(g, Popped(stack, orders), y, x);
      assert false;
    }
  }

  lemma StackSplit(stack: seq<Id>, orders: map<Id, nat>, pos: nat, i: nat)
    requires pos <= |stack| && i < |stack| && forall k :: 0 <= k < |stack| ==> stack[k] in orders
    requires forall i, j :: 0 <= i < j < |stack| ==> orders[stack[i]] < orders[stack[j]]
    ensures stack[i] in stack[pos..] <==> i >= pos
  {
    if i >= pos {
      assert stack[i] == stack[pos..][i - pos];
    }
  }

  /** Taking the component off the stack. */
  lemma Pop(g: Graph, stack: seq<Id>, orders: map<Id, nat>, gray: set<Id>, order: nat, pos: nat)
    requires Shape(g, stack, orders, gray, order) && pos < |stack| && stack[pos] in gray
    requires forall i :: pos < i < |stack| ==> stack[i] !in gray
    requires forall v :: Edge(g, stack[pos], v) ==> v in orders
    requires forall i, j :: 0 <= i < pos <= j < |stack| ==> !Edge(g, stack[j], stack[i])
    ensures Shape(g, stack[..pos], orders, gray - {stack[pos]}, order)
  {
    var f, s := stack[pos], stack[..pos];
    forall x | x in gray - {f}
      ensures x in s
    {
      var i :| 0 <= i < |stack| && stack[i] == x;
      assert i < pos && s[i] == x;
    }
    forall u, v | u in orders && u !in s && Edge(g, u, v)
      ensures v in orders && v !in s
    {
      if u in stack {
        var j :| 0 <= j < |stack| && stack[j] == u;
        assert j >= pos;
      }
    }
    forall j | 0 <= j < |s|
      ensures Grounded(g, s, gray - {f}, j)
    {
      assert Grounded(g, stack, gray, j);
      var i :| 0 <= i <= j && stack[i] in gray && Reach(g, stack[j], stack[i]);
      assert s[i] == stack[i] && s[j] == stack[j] && orders[stack[i]] < orders[f];
    }
    forall i, j | 0 <= i <= j < |s|
      ensures Reach(g, s[i], s[j])
    {
      assert s[i] == stack[i] && s[j] == stack[j];
    }
  }

  /** Leaving `f` on the stack because it reaches something older. */
  lemma Keep(g: Graph, stack: seq<Id>, orders: map<Id, nat>, gray: set<Id>, order: nat, pos: nat, low: nat)
    requires Shape(g, stack, orders, gray, order) && pos < |stack| && stack[pos] in gray
    requires forall v :: Edge(g, stack[pos], v) ==> v in orders
    requires low < orders[stack[pos]] && LowReached(g, stack, orders, stack[pos], low)
    ensures Shape(g, stack, orders, gray - {stack[pos]}, order)
  {
    hide Grounded;
    var h := GrayBelow(g, stack, orders, gray, order, pos, low);
    hide Reach;
    forall j | 0 <= j < |stack|
      ensures Grounded(g, stack, gray - {stack[pos]}, j)
    {
      KeepGrounded(g, stack, gray, pos, h, j);
    }
    FewerGray(g, stack, orders, gray, order, stack[pos]);
  }

  /** The older function leads to a gray one below `f`. */
  lemma GrayBelow(g: Graph, stack: seq<Id>, orders: map<Id, nat>, gray: set<Id>, order: nat, pos: nat, low: nat)
    returns (h: nat)
    requires Shape(g, stack, orders, gray, order) && pos < |stack|
    requires low < orders[stack[pos]] && LowReached(g, stack, orders, stack[pos], low)
    ensures h < pos && stack[h] in gray && Reach(g, stack[pos], stack[h])
    ensures forall i :: 0 <= i < |stack| && stack[i] == stack[pos] ==> i == pos
  {
    var f := stack[pos];
    var k :| 0 <= k < |stack| && orders[stack[k]] == low && Reach(g, f, stack[k]);
    assert k < pos;
    assert Grounded(g, stack, gray, k);
    var i :| 0 <= i <= k && stack[i] in gray && Reach(g, stack[k], stack[i]);
    ReachTrans(g, f, stack[k], stack[i]);
    h := i;
  }

  lemma FewerGray(g: Graph, stack: seq<Id>, orders: map<Id, nat>, gray: set<Id>, order: nat, f: Id)
    requires Shape(g, stack, orders, gray, order) && forall v :: Edge(g, f, v) ==> v in orders
    requires forall j :: 0 <= j < |stack| ==> Grounded(g, stack, gray - {f}, j)
    ensures Shape(g, stack, orders, gray - {f}, order)
  {
    hide Grounded, Reach, Edge;
  }

  lemma KeepGrounded(g: Graph, stack: seq<Id>, gray: set<Id>, pos: nat, h: nat, j: nat)
    requires h < pos < |stack| && j < |stack| && Grounded(g, stack, gray, j)
    requires forall i :: 0 <= i < |stack| && stack[i] == stack[pos] ==> i == pos
    requires stack[h] in gray && Reach(g, stack[pos], stack[h])
    ensures Grounded(g, stack, gray - {stack[pos]}, j)
  {
    var f := stack[pos];
    var i :| 0 <= i <= j && stack[i] in gray && Reach(g, stack[j], stack[i]);
    if stack[i] == f {
      ReachTrans(g, stack[j], f, stack[h]);
      assert stack[h] in gray - {f};
    } else {
      assert stack[i] in gray - {f};
    }
  }

  // ----- assigning cycles

  /** The cycle map after the component `top` was found: a component of one function gets no cycle. */
  function Assign(cycle: map<Id, nat>, top: seq<Id>, made: nat): map<Id, nat> {
    if |top| > 1 then Overlay(cycle, SetOf(top), made) else cycle
  }

  function SetOf(s: seq<Id>): set<Id> {
    set x | x in s
  }

  function Overlay(cycle: map<Id, nat>, s: set<Id>, c: nat): map<Id, nat> {
    map x | x in cycle.Keys + s :: if x in s then c else cycle[x]
  }

  /** Giving a whole component a fresh cycle, or a lone function none, keeps the cycles right, also when the
      component had been found before. */
  lemma AssignOk(g: Graph, cycle: map<Id, nat>, done: set<Id>, made: nat, top: seq<Id>)
    requires CyclesOk(g, cycle, done, made) && top != [] && Distinct(top)
    requires forall x, y :: x in top ==> (Mutual(g, x, y) <==> y in top)
    requires forall x, y :: x in top && Edge(g, x, y) ==> y in done || y in top
    ensures CyclesOk(g, Assign(cycle, top, made), done + (set x | x in top), made + 1)
  {
    hide Mutual, Edge;
    var new_cycle, members := Assign(cycle, top, made), set x | x in top;
    forall u, v | u in done + members && v in done + members && u != v
      ensures (u in new_cycle && v in new_cycle && new_cycle[u] == new_cycle[v]) <==> Mutual(g, u, v)
    {
      AssignPair(g, cycle, done, made, top, u, v);
    }
    AssignRange(g, cycle, done, made, top);
    hide Assign;
    assert forall u, v :: u in done && Edge(g, u, v) ==> v in done;
    forall u | u in new_cycle
      ensures exists v :: v != u && Mutual(g, u, v)
    {
      if u !in cycle {
        Companion(g, top, u);
      }
    }
  }

  lemma AssignRange(g: Graph, cycle: map<Id, nat>, done: set<Id>, made: nat, top: seq<Id>)
    requires CyclesOk(g, cycle, done, made)
    ensures var c := Assign(cycle, top, made);
            && c.Keys <= done + (set x | x in top) && (forall u :: u in c ==> c[u] < made + 1)
            && forall u :: u in c && u !in cycle ==> u in top && |top| > 1
  {
    hide Mutual, Edge;
  }

  lemma AssignPair(g: Graph, cycle: map<Id, nat>, done: set<Id>, made: nat, top: seq<Id>, u: Id, v: Id)
    requires CyclesOk(g, cycle, done, made) && Distinct(top) && u != v
    requires forall x, y :: x in top ==> (Mutual(g, x, y) <==> y in top)
    requires (u in done || u in top) && (v in done || v in top)
    ensures var c := Assign(cycle, top, made);
            (u in c && v in c && c[u] == c[v]) <==> Mutual(g, u, v)
  {
    hide Mutual, Edge;
    if u in top {
      AssignTop(g, cycle, done, made, top, u, v);
    } else if v in top {
      AssignTop(g, cycle, done, made, top, v, u);
      MutualSwaps(g, u, v);
    } else {
      assert u in done && v in done;
    }
  }

  lemma MutualSwaps(g: Graph, u: Id, v: Id)
    ensures Mutual(g, u, v) == Mutual(g, v, u)
  {
  }

  lemma Companion(g: Graph, top: seq<Id>, u: Id)
    requires |top| > 1 && Distinct(top) && u in top
    requires forall x, y :: x in top ==> (Mutual(g, x, y) <==> y in top)
    ensures exists v :: v != u && Mutual(g, u, v)
  {
    var v := if top[0] == u then top[1] else top[0];
    assert v in top && v != u && Mutual(g, u, v);
  }

  lemma AssignTop(g: Graph, cycle: map<Id, nat>, done: set<Id>, made: nat, top: seq<Id>, u: Id, v: Id)
    requires CyclesOk(g, cycle, done, made) && Distinct(top)
    requires forall x, y :: x in top ==> (Mutual(g, x, y) <==> y in top)
    requires u in top && u != v && (v in done || v in top)
    ensures var c := Assign(cycle, top, made);
            (u in c && v in c && c[u] == c[v]) <==> Mutual(g, u, v)
  {
    assert Mutual(g, u, v) <==> v in top;
    if |top| > 1 {
      if v !in top && v in cycle {
        assert cycle[v] < made;
      }
    } else {
      assert forall y :: y in top ==> y == u;
      assert u !in cycle;
    }
  }

  // ----- the algorithm

  /** The functions that were taken off the stack again. */
  ghost function Popped(stack: seq<Id>, orders: map<Id, nat>): set<Id> {
    set x | x in orders && x !in stack
  }

  /** The members listed in a cycle are the functions that point to it. */
  ghost predicate MembersOk(cycle: map<Id, nat>, members: map<nat, set<Id>>) {
    forall u :: u in cycle ==>
      cycle[u] in members && forall v :: v in members[cycle[u]] <==> v in cycle && cycle[v] == cycle[u]
  }

  class Profile {
    const g: Graph
    const ids: seq<Id>

    /** The cycle object each function points to, and the functions in each cycle object made so far. */
    var cycle: map<Id, nat>
    var members: map<nat, set<Id>>
    var made: nat
    var cycles: seq<nat>

    var stack: seq<Id>
    var orders: map<Id, nat>
    var lowlinks: map<Id, nat>
    var visited: set<Id>

    ghost predicate Inv(gray: set<Id>, before: set<Id>, order: nat)
      reads this
    {
      && Shape(g, stack, orders, gray, order)
      && CyclesOk(g, cycle, before + Popped(stack, orders), made)
      && MembersOk(cycle, members)
      && orders.Keys == lowlinks.Keys && visited == before + orders.Keys
      && (forall c :: c in members ==> c < made)
    }

    constructor (g: Graph, ids: seq<Id>)
      ensures this.g == g && this.ids == ids && cycle == map[] && members == map[] && made == 0
    {
      this.g, this.ids := g, ids;
      cycle, members, made, cycles := map[], map[], 0, [];
      stack, orders, lowlinks, visited := [], map[], map[], {};
    }

    /** `Cycle.add_function`. The loop over the function's previous cycle asks whether the function is missing, when
        it is already there: nothing is merged and the function just changes over. */
    method AddFunction(c: nat, f: Id)
      requires c in members && f !in members[c] && (f in cycle ==> cycle[f] in members)
      modifies this`cycle, this`members
      ensures members == old(members)[c := old(members)[c] + {f}] && cycle == old(cycle)[f := c]
    {
      members := members[c := members[c] + {f}];
      if f in cycle {
        var others := members[cycle[f]];
        while others != {}
          invariant members == old(members)[c := old(members)[c] + {f}]
          decreases others
        {
          var other :| other in others;
          if f !in members[c] {
            assert false;
          }
          others := others - {other};
        }
      }
      cycle := cycle[f := c];
    }

    /** The functions of a component of at least two functions change over to a new cycle. */
    method NewCycle(top: seq<Id>)
      requires |top| > 1 && Distinct(top) && MembersOk(cycle, members)
      requires (forall c :: c in members ==> c < made) && (forall u :: u in cycle ==> cycle[u] < made)
      requires forall u, v :: u in cycle && v in cycle && u in top && cycle[u] == cycle[v] ==> v in top
      modifies this`cycle, this`members, this`made
      ensures cycle == Assign(old(cycle), top, old(made)) && made == old(made) + 1
      ensures MembersOk(cycle, members) && forall c :: c in members ==> c < made
    {
      hide MembersOk, Overlay;
      ghost var c0, m0 := cycle, members;
      members := members[made := {}];
      assert SetOf(top[..0]) == {};
      OverlayNothing(c0, made);
      for i := 0 to |top|
        invariant made == old(made)
        invariant members == m0[made := SetOf(top[..i])] && cycle == Overlay(c0, SetOf(top[..i]), made)
      {
        assert top[i] !in top[..i];
        assert SetOf(top[..i + 1]) == SetOf(top[..i]) + {top[i]};
        OverlaySnoc(c0, SetOf(top[..i]), top[i], made);
        OverlayAt(c0, m0, SetOf(top[..i]), top[i], made);
        AddFunction(made, top[i]);
      }
      assert top[..|top|] == top;
      NewMembers(c0, m0, made, top);
      made := made + 1;
    }

    /** `f`, at position `pos`, is being followed and has `k` calls behind it. */
    ghost predicate Following(f: Id, pos: nat, k: nat, gray: set<Id>, before: set<Id>, order: nat)
      reads this
    {
      && Inv(gray + {f}, before, order) && f in g && k <= |g[f]|
      && pos < |stack| && stack[pos] == f && f in lowlinks
      && (forall x :: x in gray ==> x in stack[..pos] && Reach(g, x, f))
      && LowOk(g, stack, orders, pos, k, lowlinks[f])
    }

    method Visit(f: Id, order: nat, ghost gray: set<Id>, ghost before: set<Id>) returns (next: nat)
      requires Inv(gray, before, order) && f in g && f !in orders
      requires forall x :: x in gray ==> Reach(g, x, f)
      modifies this`cycle, this`members, this`made, this`stack, this`orders, this`lowlinks, this`visited
      ensures Inv(gray, before, next) && order < next
      ensures Returned(g, old(stack), stack, orders, lowlinks, f, order)
      ensures f in orders && orders[f] == order && f in lowlinks
      ensures Extends(old(orders), orders, old(lowlinks), lowlinks) && old(visited) <= visited
      decreases g.Keys - orders.Keys, 0
    {
      hide Shape, CyclesOk, MembersOk, LowOk, Popped, Returned, Reach, Edge, Extends;
      ExtendsOne(orders, lowlinks, f, order);
      visited := visited + {f};
      Begin(g, stack, orders, gray, order, f);
      orders := orders[f := order];
      lowlinks := lowlinks[f := order];
      next := order + 1;
      var pos := |stack|;
      stack := stack + [f];
      var k := 0;
      while k < |g[f]|
        invariant k <= |g[f]| && order < next && pos == |old(stack)|
        invariant Following(f, pos, k, gray, before, next)
        invariant stack[..pos] == old(stack) && f in orders && orders[f] == order
        invariant Extends(old(orders), orders, old(lowlinks), lowlinks) && old(visited) <= visited
        invariant old(orders).Keys <= orders.Keys
      {
        ghost var o1, l1 := orders, lowlinks;
        next := FollowCall(f, k, pos, next, gray, before);
        ExtendsTwice(old(orders), o1, orders, old(lowlinks), l1, lowlinks, f);
        k := k + 1;
      }
      Finish(f, pos, next, gray, before);
    }

    /** One iteration of the loop over the calls of `f`. */
    method FollowCall(f: Id, k: nat, pos: nat, order: nat, ghost gray: set<Id>, ghost before: set<Id>)
      returns (next: nat)
      requires f in g && k < |g[f]| && Following(f, pos, k, gray, before, order)
      modifies this`cycle, this`members, this`made, this`stack, this`orders, this`lowlinks, this`visited
      ensures Following(f, pos, k + 1, gray, before, next) && order <= next && stack[..pos] == old(stack)[..pos]
      ensures f in old(orders)
      ensures Extends(old(orders), orders, old(lowlinks)[f := 0], lowlinks[f := 0]) && old(visited) <= visited
      decreases g.Keys - orders.Keys, 1
    {
      hide Shape, CyclesOk, MembersOk, LowOk, Returned, Popped;
      var callee := g[f][k];
      next := order;
      ghost var s0, o0, low := stack, orders, lowlinks[f];
      CalleeFacts(g, stack, orders, pos, k, low, gray + {f}, order);
      if callee !in orders {
        CalleeReached(g, gray, f, callee);
        next := Visit(callee, order, gray + {f}, before);
        var newLow := if lowlinks[callee] < lowlinks[f] then lowlinks[callee] else lowlinks[f];
        FollowNew(g, s0, o0, stack, orders, lowlinks, pos, k, low);
        lowlinks := lowlinks[f := newLow];
      } else if callee in stack {
        var newLow := if orders[callee] < lowlinks[f] then orders[callee] else lowlinks[f];
        FollowStacked(g, stack, orders, pos, k, low);
        lowlinks := lowlinks[f := newLow];
      } else {
        FollowPopped(g, stack, orders, pos, k, low);
      }
    }

    method Finish(f: Id, pos: nat, order: nat, ghost gray: set<Id>, ghost before: set<Id>)
      requires f in g && Following(f, pos, |g[f]|, gray, before, order)
      modifies this`cycle, this`members, this`made, this`stack
      ensures Inv(gray, before, order)
      ensures f in orders && Returned(g, old(stack)[..pos], stack, orders, lowlinks, f, orders[f])
    {
      hide Shape, CyclesOk, MembersOk, LowOk, Returned, Popped, Distinct;
      var top := stack[pos..];
      FinishFacts(g, stack, orders, pos, lowlinks[f], gray, order);
      if lowlinks[f] == orders[f] {
        ComponentFound(g, stack, orders, pos, gray, order);
        CyclesUpdated(g, stack, orders, pos, gray, order, cycle, before, made);
        ReturnedPopped(g, stack, orders, lowlinks, pos);
        stack := stack[..pos];
        if |top| > 1 {
          NewCycle(top);
        }
      } else {
        ReturnedKept(g, stack, orders, lowlinks, pos, gray, order);
      }
    }

    /** Two distinct functions share a cycle exactly when each reaches the other; a function has a cycle exactly
        when there is such another function; a cycle lists exactly the functions that have it; and `cycles` lists
        every cycle in use once. */
    ghost predicate Correct()
      reads this
    {
      && (forall u, v :: u in g && v in g && u != v ==>
            ((u in cycle && v in cycle && cycle[u] == cycle[v]) <==> Mutual(g, u, v)))
      && (forall u :: u in g ==> (u in cycle <==> exists v :: v != u && Mutual(g, u, v)))
      && MembersOk(cycle, members)
      && (forall i, j :: 0 <= i < j < |cycles| ==> cycles[i] != cycles[j])
      && (forall c :: c in cycles <==> c in cycle.Values)
    }

    method VisitRoot(f: Id)
      requires Closed(g) && f in g && f !in visited && CyclesOk(g, cycle, visited, made) && MembersOk(cycle, members)
      requires (forall c :: c in members ==> c < made) && visited <= g.Keys
      modifies this`cycle, this`members, this`made, this`stack, this`orders, this`lowlinks, this`visited
      ensures CyclesOk(g, cycle, visited, made) && MembersOk(cycle, members) && (forall c :: c in members ==> c < made)
      ensures f in visited && old(visited) <= visited <= g.Keys
    {
      hide CyclesOk, MembersOk, Returned, Reach, Edge;
      ghost var before := visited;
      stack, orders, lowlinks := [], map[], map[];
      EmptyShape(g);
      assert before + Popped(stack, orders) == before && before + orders.Keys == before;
      var next := Visit(f, 0, {}, before);
      EmptyStack(g, stack, orders, next);
      assert before + Popped(stack, orders) == visited;
    }

    method FindCycles()
      requires Closed(g) && (forall x :: x in ids <==> x in g) && cycle == map[] && members == map[] && made == 0
      modifies this
      ensures Correct()
    {
      hide MembersOk, CyclesOk;
      visited := {};
      EmptyCycles(g);
      for i := 0 to |ids|
        invariant CyclesOk(g, cycle, visited, made)
        invariant MembersOk(cycle, members) && (forall c :: c in members ==> c < made)
        invariant visited <= g.Keys && forall k :: 0 <= k < i ==> ids[k] in visited
      {
        if ids[i] !in visited {
          VisitRoot(ids[i]);
        }
      }
      assert visited == g.Keys;
      AllDone(g, cycle, made);
      ListCycles();
    }

    /** Collects the cycles in use, each once. */
    method ListCycles()
      requires forall x :: x in cycle ==> x in ids
      modifies this`cycles
      ensures forall i, j :: 0 <= i < j < |cycles| ==> cycles[i] != cycles[j]
      ensures forall c :: c in cycles <==> c in cycle.Values
    {
      var list: seq<nat> := [];
      for k := 0 to |ids|
        invariant forall i, j :: 0 <= i < j < |list| ==> list[i] != list[j]
        invariant forall c :: c in list ==> c in cycle.Values
        invariant forall j :: 0 <= j < k && ids[j] in cycle ==> cycle[ids[j]] in list
      {
        if ids[k] in cycle && cycle[ids[k]] !in list {
          list := list + [cycle[ids[k]]];
        }
      }
      cycles := list;
    }
  }

  lemma EmptyShape(g: Graph)
    requires Closed(g)
    ensures Shape(g, [], map[], {}, 0)
  {
  }

  /** Back at the root nothing is gray, so nothing is left on the stack. */
  lemma EmptyStack(g: Graph, stack: seq<Id>, orders: map<Id, nat>, order: nat)
    requires Shape(g, stack, orders, {}, order)
    ensures stack == [] && Popped(stack, orders) == orders.Keys
  {
    if |stack| > 0 {
      NotGrounded(g, stack, 0);
    }
  }

  lemma NotGrounded(g: Graph, stack: seq<Id>, j: nat)
    requires j < |stack|
    ensures !Grounded(g, stack, {}, j)
  {
  }

  lemma EmptyCycles(g: Graph)
    ensures CyclesOk(g, map[], {}, 0) && MembersOk(map[], map[])
  {
  }

  lemma AllDone(g: Graph, cycle: map<Id, nat>, made: nat)
    requires Closed(g) && CyclesOk(g, cycle, g.Keys, made)
    ensures cycle.Keys <= g.Keys
    ensures forall u, v :: u in g && v in g && u != v ==>
              ((u in cycle && v in cycle && cycle[u] == cycle[v]) <==> Mutual(g, u, v))
    ensures forall u :: u in g ==> (u in cycle <==> exists v :: v != u && Mutual(g, u, v))
  {
    forall u, v | u in g && v != u && Mutual(g, u, v)
      ensures u in cycle
    {
      ReachStays(g, g.Keys, u, v);
    }
  }

  /** What one call of `_tarjan` promises its caller: the stack below is untouched; if `f` stays on the stack it
      reaches something below with order `lowlinks[f]`, and nothing above leads to a smaller order there. */
  ghost predicate Returned(g: Graph, was: seq<Id>, stack: seq<Id>, orders: map<Id, nat>, lowlinks: map<Id, nat>, f: Id,
                           order: nat) {
    && f in orders && f in lowlinks && orders[f] == order
    && was <= stack && (forall i :: 0 <= i < |stack| ==> stack[i] in orders)
    && (if |stack| == |was| then lowlinks[f] == order
        else
          && stack[|was|] == f && lowlinks[f] < order
          && LowReached(g, stack, orders, f, lowlinks[f])
          && LowBounds(g, stack, orders, |was|, |was|, lowlinks[f]))
  }

  /** Orders and low links of functions met earlier stay as they are. */
  ghost predicate Extends(o0: map<Id, nat>, o1: map<Id, nat>, l0: map<Id, nat>, l1: map<Id, nat>) {
    forall x :: x in o0 ==> x in o1 && o1[x] == o0[x] && x in l0 && x in l1 && l1[x] == l0[x]
  }

  lemma ExtendsOne(o: map<Id, nat>, l: map<Id, nat>, f: Id, n: nat)
    requires f !in o && o.Keys <= l.Keys
    ensures Extends(o, o[f := n], l, l[f := n])
  {
  }

  lemma ExtendsTwice(o0: map<Id, nat>, o1: map<Id, nat>, o2: map<Id, nat>,
                     l0: map<Id, nat>, l1: map<Id, nat>, l2: map<Id, nat>, f: Id)
    requires f !in o0 && f in o1 && Extends(o0, o1, l0, l1) && Extends(o1, o2, l1[f := 0], l2[f := 0])
    ensures Extends(o0, o2, l0, l2) && o0.Keys <= o2.Keys && f in o2 && o2[f] == o1[f]
  {
  }

  /** The low link of the function at `pos`, with `k` of its calls followed. */
  ghost predicate LowOk(g: Graph, stack: seq<Id>, orders: map<Id, nat>, pos: nat, k: nat, low: nat) {
    && pos < |stack| && (forall i :: 0 <= i < |stack| ==> stack[i] in orders)
    && stack[pos] in g && k <= |g[stack[pos]]| && low <= orders[stack[pos]]
    && LowReached(g, stack, orders, stack[pos], low)
    && LowBounds(g, stack, orders, pos, pos + 1, low)
    && CallsFollowed(g, stack, orders, pos, stack[pos], k, low)
  }

  /** The next callee is a function, and if it was met already, it is on the stack or was popped. */
  lemma CalleeFacts(g: Graph, stack: seq<Id>, orders: map<Id, nat>, pos: nat, k: nat, low: nat, gray: set<Id>,
                    order: nat)
    requires LowOk(g, stack, orders, pos, k, low) && k < |g[stack[pos]]| && Shape(g, stack, orders, gray, order)
    ensures g[stack[pos]][k] in g && stack[pos] in orders && orders[stack[pos]] < order
  {
  }

  lemma CalleeReached(g: Graph, gray: set<Id>, f: Id, callee: Id)
    requires Edge(g, f, callee) && forall x :: x in gray ==> Reach(g, x, f)
    ensures forall x :: x in gray + {f} ==> Reach(g, x, callee)
  {
    ReachEdge(g, f, callee);
    forall x | x in gray
      ensures Reach(g, x, callee)
    {
      ReachTrans(g, x, f, callee);
    }
  }

  /** After a callee was visited for the first time. */
  lemma FollowNew(g: Graph, s0: seq<Id>, o0: map<Id, nat>, stack: seq<Id>, orders: map<Id, nat>, lowlinks: map<Id, nat>,
                  pos: nat, k: nat, low: nat)
    requires LowOk(g, s0, o0, pos, k, low) && k < |g[s0[pos]]|
    requires var callee := g[s0[pos]][k];
             && callee !in o0 && callee in orders && o0[s0[pos]] < orders[callee]
             && Returned(g, s0, stack, orders, lowlinks, callee, orders[callee])
    requires forall x :: x in o0 ==> x in orders && orders[x] == o0[x]
    ensures pos < |stack| && stack[pos] == s0[pos] && stack[..pos] == s0[..pos]
    ensures var low1 := lowlinks[g[s0[pos]][k]];
            LowOk(g, stack, orders, pos, k + 1, if low1 < low then low1 else low)
  {
    var f, callee := s0[pos], g[s0[pos]][k];
    var low1 := lowlinks[callee];
    var min := if low1 < low then low1 else low;
    assert forall i :: 0 <= i < |s0| ==> stack[i] == s0[i];
    if low1 < low {
      var i :| 0 <= i < |stack| && orders[stack[i]] == low1 && Reach(g, callee, stack[i]);
      ReachEdge(g, f, callee);
      ReachTrans(g, f, callee, stack[i]);
    } else {
      var i :| 0 <= i < |s0| && o0[s0[i]] == low && Reach(g, f, s0[i]);
      assert orders[stack[i]] == low && Reach(g, f, stack[i]);
    }
    forall i, j | 0 <= i < pos && pos + 1 <= j < |stack| && Edge(g, stack[j], stack[i])
      ensures min <= orders[stack[i]]
    {
      if j < |s0| {
        assert Edge(g, s0[j], s0[i]);
      }
    }
  }

  lemma FollowStacked(g: Graph, stack: seq<Id>, orders: map<Id, nat>, pos: nat, k: nat, low: nat)
    requires LowOk(g, stack, orders, pos, k, low) && k < |g[stack[pos]]| && g[stack[pos]][k] in stack
    ensures g[stack[pos]][k] in orders
    ensures var low1 := orders[g[stack[pos]][k]];
            LowOk(g, stack, orders, pos, k + 1, if low1 < low then low1 else low)
  {
    var f, callee := stack[pos], g[stack[pos]][k];
    var i :| 0 <= i < |stack| && stack[i] == callee;
    ReachEdge(g, f, callee);
  }

  lemma FollowPopped(g: Graph, stack: seq<Id>, orders: map<Id, nat>, pos: nat, k: nat, low: nat)
    requires LowOk(g, stack, orders, pos, k, low) && k < |g[stack[pos]]|
    requires g[stack[pos]][k] in orders && g[stack[pos]][k] !in stack
    ensures LowOk(g, stack, orders, pos, k + 1, low)
  {
  }

  lemma FinishFacts(g: Graph, stack: seq<Id>, orders: map<Id, nat>, pos: nat, low: nat, gray: set<Id>, order: nat)
    requires pos < |stack| && stack[pos] in g && Shape(g, stack, orders, gray + {stack[pos]}, order)
    requires LowOk(g, stack, orders, pos, |g[stack[pos]]|, low) && forall x :: x in gray ==> x in stack[..pos]
    ensures stack[pos] in orders && stack[pos] !in gray && low <= orders[stack[pos]] && Distinct(stack)
    ensures forall i :: 0 <= i < |stack| ==> stack[i] in orders
    ensures forall v :: Edge(g, stack[pos], v) ==> v in orders
    ensures forall i :: pos < i < |stack| ==> stack[i] !in gray + {stack[pos]}
    ensures low == orders[stack[pos]] ==> forall i, j :: 0 <= i < pos <= j < |stack| ==> !Edge(g, stack[j], stack[i])
  {
    var f := stack[pos];
    forall i, j | 0 <= i < pos <= j < |stack| && low == orders[f]
      ensures !Edge(g, stack[j], stack[i])
    {
      assert orders[stack[i]] < orders[f];
    }
  }

  lemma ComponentFound(g: Graph, stack: seq<Id>, orders: map<Id, nat>, pos: nat, gray: set<Id>, order: nat)
    requires pos < |stack| && Shape(g, stack, orders, gray + {stack[pos]}, order) && stack[pos] !in gray
    requires forall i :: pos < i < |stack| ==> stack[i] !in gray + {stack[pos]}
    requires forall v :: Edge(g, stack[pos], v) ==> v in orders
    requires forall i, j :: 0 <= i < pos <= j < |stack| ==> !Edge(g, stack[j], stack[i])
    ensures Shape(g, stack[..pos], orders, gray, order)
    ensures forall x, y :: x in stack[pos..] ==> (Mutual(g, x, y) <==> y in stack[pos..])
  {
    hide Shape;
    Component(g, stack, orders, gray + {stack[pos]}, order, pos);
    Pop(g, stack, orders, gray + {stack[pos]}, order, pos);
    assert gray + {stack[pos]} - {stack[pos]} == gray;
  }

  lemma CyclesUpdated(g: Graph, stack: seq<Id>, orders: map<Id, nat>, pos: nat, gray: set<Id>, order: nat,
                      cycle: map<Id, nat>, before: set<Id>, made: nat)
    requires pos < |stack| && Shape(g, stack, orders, gray + {stack[pos]}, order)
    requires CyclesOk(g, cycle, before + Popped(stack, orders), made) && Distinct(stack)
    requires forall v :: Edge(g, stack[pos], v) ==> v in orders
    requires forall i :: pos < i < |stack| ==> stack[i] !in gray + {stack[pos]}
    requires forall i, j :: 0 <= i < pos <= j < |stack| ==> !Edge(g, stack[j], stack[i])
    requires forall x, y :: x in stack[pos..] ==> (Mutual(g, x, y) <==> y in stack[pos..])
    ensures Distinct(stack[pos..])
    ensures CyclesOk(g, Assign(cycle, stack[pos..], made), before + Popped(stack[..pos], orders),
                     if |stack[pos..]| > 1 then made + 1 else made)
    ensures forall u :: u in cycle ==> cycle[u] < made
    ensures forall u, v :: u in cycle && v in cycle && u in stack[pos..] && cycle[u] == cycle[v] ==> v in stack[pos..]
  {
    hide Shape, CyclesOk, Assign;
    var top, done := stack[pos..], before + Popped(stack, orders);
    assert Distinct(top);
    TopEdges(g, stack, orders, pos, gray, order);
    AssignCounted(g, cycle, done, made, top);
    PoppedMore(stack, orders, pos);
    assert done + (set x | x in top) == before + Popped(stack[..pos], orders);
  }

  lemma AssignCounted(g: Graph, cycle: map<Id, nat>, done: set<Id>, made: nat, top: seq<Id>)
    requires CyclesOk(g, cycle, done, made) && top != [] && Distinct(top)
    requires forall x, y :: x in top ==> (Mutual(g, x, y) <==> y in top)
    requires forall x, y :: x in top && Edge(g, x, y) ==> y in done || y in top
    ensures CyclesOk(g, Assign(cycle, top, made), done + (set x | x in top), if |top| > 1 then made + 1 else made)
    ensures forall u :: u in cycle ==> cycle[u] < made
    ensures forall u, v :: u in cycle && v in cycle && u in top && cycle[u] == cycle[v] ==> v in top
  {
    hide Mutual, Edge, CyclesOk, Distinct;
    AssignOk(g, cycle, done, made, top);
    BoundLow(g, cycle, done, made);
    if |top| <= 1 {
      LowerBound(g, cycle, done + (set x | x in top), made);
    }
    forall u, v | u in cycle && v in cycle && u in top && cycle[u] == cycle[v]
      ensures v in top
    {
      SameCycle(g, cycle, done, made, u, v);
    }
  }

  lemma BoundLow(g: Graph, cycle: map<Id, nat>, done: set<Id>, made: nat)
    requires CyclesOk(g, cycle, done, made)
    ensures forall u :: u in cycle ==> cycle[u] < made
  {
  }

  lemma LowerBound(g: Graph, cycle: map<Id, nat>, done: set<Id>, made: nat)
    requires CyclesOk(g, cycle, done, made + 1) && forall u :: u in cycle ==> cycle[u] < made
    ensures CyclesOk(g, cycle, done, made)
  {
    hide Mutual, Edge;
  }

  lemma SameCycle(g: Graph, cycle: map<Id, nat>, done: set<Id>, made: nat, u: Id, v: Id)
    requires CyclesOk(g, cycle, done, made) && u in cycle && v in cycle && cycle[u] == cycle[v]
    ensures u == v || Mutual(g, u, v)
  {
    hide Mutual, Edge;
  }

  /** The calls of the component stay inside it or lead to functions already taken off the stack. */
  lemma TopEdges(g: Graph, stack: seq<Id>, orders: map<Id, nat>, pos: nat, gray: set<Id>, order: nat)
    requires pos < |stack| && Shape(g, stack, orders, gray + {stack[pos]}, order)
    requires forall v :: Edge(g, stack[pos], v) ==> v in orders
    requires forall i :: pos < i < |stack| ==> stack[i] !in gray + {stack[pos]}
    requires forall i, j :: 0 <= i < pos <= j < |stack| ==> !Edge(g, stack[j], stack[i])
    ensures forall x, y :: x in stack[pos..] && Edge(g, x, y) ==> y in Popped(stack, orders) || y in stack[pos..]
    ensures forall i :: 0 <= i < |stack| ==> stack[i] in orders
  {
    var top := stack[pos..];
    forall x, y | x in top && Edge(g, x, y)
      ensures y in Popped(stack, orders) || y in top
    {
      var j :| 0 <= j < |top| && top[j] == x;
      assert stack[pos + j] == x && y in orders;
      if y in stack {
        var i :| 0 <= i < |stack| && stack[i] == y;
        assert i >= pos && top[i - pos] == y;
      }
    }
  }

  lemma PoppedMore(stack: seq<Id>, orders: map<Id, nat>, pos: nat)
    requires pos <= |stack| && Distinct(stack) && forall i :: 0 <= i < |stack| ==> stack[i] in orders
    ensures Popped(stack[..pos], orders) == Popped(stack, orders) + (set x | x in stack[pos..])
  {
    assert stack == stack[..pos] + stack[pos..];
    forall x | x in stack[pos..]
      ensures x in orders && x !in stack[..pos]
    {
      var j :| 0 <= j < |stack[pos..]| && stack[pos..][j] == x;
      assert stack[pos + j] == x;
    }
  }

  lemma ReturnedPopped(g: Graph, stack: seq<Id>, orders: map<Id, nat>, lowlinks: map<Id, nat>, pos: nat)
    requires pos < |stack| && (forall i :: 0 <= i < |stack| ==> stack[i] in orders)
    requires stack[pos] in lowlinks && lowlinks[stack[pos]] == orders[stack[pos]]
    ensures Returned(g, stack[..pos], stack[..pos], orders, lowlinks, stack[pos], orders[stack[pos]])
  {
  }

  lemma ReturnedKept(g: Graph, stack: seq<Id>, orders: map<Id, nat>, lowlinks: map<Id, nat>, pos: nat, gray: set<Id>,
                     order: nat)
    requires pos < |stack| && stack[pos] in g
    requires Shape(g, stack, orders, gray + {stack[pos]}, order) && stack[pos] !in gray
    requires stack[pos] in lowlinks && LowOk(g, stack, orders, pos, |g[stack[pos]]|, lowlinks[stack[pos]])
    requires lowlinks[stack[pos]] < orders[stack[pos]] && forall v :: Edge(g, stack[pos], v) ==> v in orders
    ensures Shape(g, stack, orders, gray, order)
    ensures Returned(g, stack[..pos], stack, orders, lowlinks, stack[pos], orders[stack[pos]])
  {
    var f := stack[pos];
    Keep(g, stack, orders, gray + {f}, order, pos, lowlinks[f]);
    assert gray + {f} - {f} == gray;
    forall i, j | 0 <= i < pos && pos <= j < |stack| && Edge(g, stack[j], stack[i])
      ensures lowlinks[f] <= orders[stack[i]]
    {
      if j == pos {
        var c :| 0 <= c < |g[f]| && g[f][c] == stack[i];
      }
    }
  }

  lemma Begin(g: Graph, stack: seq<Id>, orders: map<Id, nat>, gray: set<Id>, order: nat, f: Id)
    requires Shape(g, stack, orders, gray, order) && f in g && f !in orders
    requires forall x :: x in gray ==> Reach(g, x, f)
    ensures Shape(g, stack + [f], orders[f := order], gray + {f}, order + 1)
    ensures Popped(stack + [f], orders[f := order]) == Popped(stack, orders)
    ensures LowOk(g, stack + [f], orders[f := order], |stack|, 0, order)
    ensures forall x :: x in gray ==> x in (stack + [f])[..|stack|]
  {
    Push(g, stack, orders, gray, order, f);
    ReachSelf(g, f);
    assert (stack + [f])[|stack|] == f;
    assert (stack + [f])[..|stack|] == stack;
  }

  lemma OverlayAt(cycle: map<Id, nat>, members: map<nat, set<Id>>, s: set<Id>, f: Id, c: nat)
    requires MembersOk(cycle, members) && f !in s
    ensures var now := Overlay(cycle, s, c); f in now ==> now[f] in members
  {
  }

  lemma OverlayNothing(cycle: map<Id, nat>, c: nat)
    ensures Overlay(cycle, {}, c) == cycle
  {
  }

  lemma OverlaySnoc(cycle: map<Id, nat>, s: set<Id>, x: Id, c: nat)
    ensures Overlay(cycle, s, c)[x := c] == Overlay(cycle, s + {x}, c)
  {
  }

  lemma NewMembers(cycle: map<Id, nat>, members: map<nat, set<Id>>, made: nat, top: seq<Id>)
    requires MembersOk(cycle, members) && (forall c :: c in members ==> c < made)
    requires forall u, v :: u in cycle && v in cycle && u in top && cycle[u] == cycle[v] ==> v in top
    ensures MembersOk(Overlay(cycle, SetOf(top), made), members[made := SetOf(top)])
  {
    var c, m := Overlay(cycle, SetOf(top), made), members[made := SetOf(top)];
    forall u | u in c
      ensures c[u] in m && forall v :: v in m[c[u]] <==> v in c && c[v] == c[u]
    {
      if u !in top {
        assert cycle[u] in members && cycle[u] != made;
      }
    }
  }
}
