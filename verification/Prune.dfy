/** `Profile.prune_root` and `Profile.prune_leaf`: cutting a call graph down to what a root reaches, or to what
    reaches a leaf. */
module Prune {
  import opened Basics
  import opened Graph

  /** Keeps the functions reachable from `root`. None stands for the KeyError on a function that is not defined. */
  method PruneRoot(g: Graph, root: Id) returns (h: Option<Graph>)
    ensures h.Some? <==> forall v :: Reach(g, root, v) ==> v in g
    ensures h.Some? ==>
      (forall v :: v in h.value <==> Reach(g, root, v)) && forall v :: v in h.value ==> h.value[v] == g[v]
  {
    hide Reach;
    var visited: set<Id> := {};
    var frontier := {root};
    ReachSelf(g, root);
    while frontier != {}
      invariant root in visited + frontier && visited <= g.Keys && visited !! frontier
      invariant forall v :: v in visited + frontier ==> Reach(g, root, v)
      invariant forall u, v :: u in visited && Edge(g, u, v) ==> v in visited + frontier
      decreases g.Keys - visited
    {
      var node :| node in frontier;
      frontier := frontier - {node};
      visited := visited + {node};
      if node !in g {
        return None;
      }
      var callees := set v | v in g[node];
      forall v | v in callees
        ensures Reach(g, root, v)
      {
        ReachEdge(g, node, v);
        ReachTrans(g, root, node, v);
      }
      frontier := frontier + (callees - visited);
    }
    forall v | Reach(g, root, v)
      ensures v in visited
    {
      ReachStays(g, visited, root, v);
    }
    h := Some(map v | v in visited :: g[v]);
  }

  /** The callers of every function. */
  function Callers(g: Graph, v: Id): set<Id> {
    set u | u in g && v in g[u]
  }

  function Filtered(calls: seq<Id>, keep: set<Id>): (r: seq<Id>)
    ensures forall v :: v in r <==> v in calls && v in keep
  {
    if calls == [] then []
    else if calls[0] in keep then [calls[0]] + Filtered(calls[1..], keep)
    else Filtered(calls[1..], keep)
  }

  /** Keeps the functions that reach `leaf`, and among their calls those to functions that are kept. */
  method PruneLeaf(g: Graph, leaf: Id) returns (h: Graph)
    ensures forall u :: u in h <==> u in g && Reach(g, u, leaf)
    ensures forall u, v :: Edge(h, u, v) <==> Edge(g, u, v) && u in h && v in h
  {
    hide Reach;
    var visited: set<Id> := {};
    var frontier := {leaf};
    ReachSelf(g, leaf);
    while frontier != {}
      invariant leaf in visited + frontier && visited !! frontier && visited + frontier <= g.Keys + {leaf}
      invariant forall v :: v in visited + frontier ==> Reach(g, v, leaf)
      invariant forall u, v :: v in visited && Edge(g, u, v) ==> u in visited + frontier
      decreases g.Keys + {leaf} - visited
    {
      var node :| node in frontier;
      forall u | u in Callers(g, node)
        ensures Reach(g, u, leaf)
      {
        ReachEdge(g, u, node);
        ReachTrans(g, u, node, leaf);
      }
      frontier := frontier - {node};
      visited := visited + {node};
      frontier := frontier + (Callers(g, node) - visited);
    }
    forall u | Reach(g, u, leaf)
      ensures u in visited
    {
      ComesFrom(g, visited, u, leaf);
    }
    var path := g.Keys * visited;
    h := map u | u in path :: Filtered(g[u], path);
  }

  /** A set that no edge enters from outside contains everything that reaches its members. */
  lemma ComesFrom(g: Graph, s: set<Id>, u: Id, v: Id)
    requires forall x, y :: y in s && Edge(g, x, y) ==> x in s
    requires v in s && Reach(g, u, v)
    ensures u in s
  {
    var p :| WalkFrom(g, p, u, v);
    WalkComesFrom(g, s, p, 0);
  }

  lemma {:induction false} WalkComesFrom(g: Graph, s: set<Id>, p: seq<Id>, k: nat)
    requires forall x, y :: y in s && Edge(g, x, y) ==> x in s
    requires Walk(g, p) && p[|p| - 1] in s && k < |p|
    ensures p[k] in s
    decreases |p| - k
  {
    if k < |p| - 1 {
      WalkComesFrom(g, s, p, k + 1);
      assert Edge(g, p[k], p[k + 1]);
    }
  }

  /** Cutting a closed graph down to a leaf keeps every walk between the functions that are left. */
  lemma LeafKeepsWalks(g: Graph, h: Graph, leaf: Id, u: Id, v: Id)
    requires Closed(g)
    requires forall x :: x in h <==> x in g && Reach(g, x, leaf)
    requires forall x, y :: Edge(h, x, y) <==> Edge(g, x, y) && x in h && y in h
    requires u in h && v in h
    ensures Reach(h, u, v) <==> Reach(g, u, v)
  {
    if Reach(g, u, v) {
      var p :| WalkFrom(g, p, u, v);
      forall k | 0 <= k < |p|
        ensures p[k] in h
      {
        LeafWalk(g, h, leaf, p, k);
      }
      assert forall i :: 0 <= i < |p| - 1 ==> Edge(g, p[i], p[i + 1]);
      assert WalkFrom(h, p, u, v);
    }
    if Reach(h, u, v) {
      var p :| WalkFrom(h, p, u, v);
      assert forall i :: 0 <= i < |p| - 1 ==> Edge(h, p[i], p[i + 1]);
      assert WalkFrom(g, p, u, v);
    }
  }

  lemma {:induction false} LeafWalk(g: Graph, h: Graph, leaf: Id, p: seq<Id>, k: nat)
    requires Closed(g) && Walk(g, p) && k < |p| && p[|p| - 1] in h
    requires forall x :: x in h <==> x in g && Reach(g, x, leaf)
    ensures p[k] in h
    decreases |p| - k
  {
    if k < |p| - 1 {
      LeafWalk(g, h, leaf, p, k + 1);
      assert Edge(g, p[k], p[k + 1]);
      ReachEdge(g, p[k], p[k + 1]);
      ReachTrans(g, p[k], p[k + 1], leaf);
    }
  }
}
