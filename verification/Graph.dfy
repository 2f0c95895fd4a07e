/** Call graphs, walks in them and reachability. */
module Graph {

  type Id = string

  /** The callees of every function, in the order of its calls. */
  type Graph = map<Id, seq<Id>>

  predicate Closed(g: Graph) {
    forall u, k :: u in g && 0 <= k < |g[u]| ==> g[u][k] in g
  }

  predicate Edge(g: Graph, u: Id, v: Id) {
    u in g && v in g[u]
  }

  ghost predicate Walk(g: Graph, p: seq<Id>) {
    |p| > 0 && forall i :: 0 <= i < |p| - 1 ==> Edge(g, p[i], p[i + 1])
  }

  ghost predicate WalkFrom(g: Graph, p: seq<Id>, u: Id, v: Id) {
    Walk(g, p) && p[0] == u && p[|p| - 1] == v
  }

  ghost predicate Reach(g: Graph, u: Id, v: Id) {
    exists p :: WalkFrom(g, p, u, v)
  }

  ghost predicate Mutual(g: Graph, u: Id, v: Id) {
    Reach(g, u, v) && Reach(g, v, u)
  }

  lemma ReachSelf(g: Graph, u: Id)
    ensures Reach(g, u, u)
  {
    assert WalkFrom(g, [u], u, u);
  }

  lemma ReachEdge(g: Graph, u: Id, v: Id)
    requires Edge(g, u, v)
    ensures Reach(g, u, v)
  {
    assert WalkFrom(g, [u, v], u, v);
  }

  lemma ReachTrans(g: Graph, u: Id, v: Id, w: Id)
    requires Reach(g, u, v) && Reach(g, v, w)
    ensures Reach(g, u, w)
  {
    var p :| WalkFrom(g, p, u, v);
    var q :| WalkFrom(g, q, v, w);
    var r := p + q[1..];
    forall i | 0 <= i < |r| - 1
      ensures Edge(g, r[i], r[i + 1])
    {
      if i < |p| - 1 {
        assert Edge(g, p[i], p[i + 1]);
      } else {
        var k := i - (|p| - 1);
        assert Edge(g, q[k], q[k + 1]);
      }
    }
    assert WalkFrom(g, r, u, w);
  }

  /** A set that no edge leaves contains everything its members reach. */
  lemma ReachStays(g: Graph, s: set<Id>, u: Id, v: Id)
    requires forall x, y :: x in s && Edge(g, x, y) ==> y in s
    requires u in s && Reach(g, u, v)
    ensures v in s
  {
    var p :| WalkFrom(g, p, u, v);
    WalkStays(g, s, p, |p| - 1);
  }

  lemma {:induction false} WalkStays(g: Graph, s: set<Id>, p: seq<Id>, k: nat)
    requires forall x, y :: x in s && Edge(g, x, y) ==> y in s
    requires Walk(g, p) && p[0] in s && k < |p|
    ensures p[k] in s
  {
    if k > 0 {
      WalkStays(g, s, p, k - 1);
      assert Edge(g, p[k - 1], p[k]);
    }
  }
}
