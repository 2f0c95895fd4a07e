/** Call stacks of a profile and the sums over them that folding has to respect. */
module CallTree {

  type Frame = string

  /** The functions on the stack, outermost first. */
  type Stack = seq<Frame>

  type Key = string

  /** The counters of one call: the same keys for every call. */
  type Data = map<Key, int>

  function Parent(s: Stack): Stack {
    if s == [] then [] else s[..|s| - 1]
  }

  function Children(calls: set<Stack>, s: Stack): set<Stack> {
    set c | c in calls && c != [] && Parent(c) == s
  }

  function Roots(calls: set<Stack>): set<Stack> {
    set s | s in calls && Parent(s) !in calls
  }

  /** `t` is `s` or called from it, directly or through other calls. */
  ghost predicate Below(calls: set<Stack>, s: Stack, t: Stack) {
    |s| <= |t| && t[..|s|] == s && forall k :: |s| <= k <= |t| ==> t[..k] in calls
  }

  ghost function Subtree(calls: set<Stack>, s: Stack): set<Stack> {
    set t | t in calls && Below(calls, s, t)
  }

  // ----- sums

  ghost function Sum(s: set<Stack>, f: map<Stack, int>): int
    requires s <= f.Keys
  {
    if s == {} then 0 else var x :| x in s; f[x] + Sum(s - {x}, f)
  }

  lemma {:induction false} SumAdd(s: set<Stack>, f: map<Stack, int>, x: Stack)
    requires s <= f.Keys && x in f && x !in s
    ensures Sum(s + {x}, f) == Sum(s, f) + f[x]
  {
    var all := s + {x};
    var y :| y in all && Sum(all, f) == f[y] + Sum(all - {y}, f);
    if y == x {
      assert all - {y} == s;
    } else {
      assert all - {y} == (s - {y}) + {x};
      SumAdd(s - {y}, f, x);
      assert s == (s - {y}) + {y};
      SumAdd(s - {y}, f, y);
    }
  }

  lemma {:induction false} SumUnion(a: set<Stack>, b: set<Stack>, f: map<Stack, int>)
    requires a <= f.Keys && b <= f.Keys && a !! b
    ensures Sum(a + b, f) == Sum(a, f) + Sum(b, f)
  {
    if b == {} {
      assert a + b == a;
    } else {
      var x :| x in b;
      assert a + b == (a + (b - {x})) + {x};
      assert b == (b - {x}) + {x};
      SumAdd(a + (b - {x}), f, x);
      SumAdd(b - {x}, f, x);
      SumUnion(a, b - {x}, f);
    }
  }

  lemma {:induction false} SumSame(s: set<Stack>, f: map<Stack, int>, g: map<Stack, int>)
    requires s <= f.Keys && s <= g.Keys && forall x :: x in s ==> f[x] == g[x]
    ensures Sum(s, f) == Sum(s, g)
  {
    if s != {} {
      var x :| x in s;
      assert s == (s - {x}) + {x};
      SumAdd(s - {x}, f, x);
      SumAdd(s - {x}, g, x);
      SumSame(s - {x}, f, g);
    }
  }

  /** Summing what is summed over disjoint parts. */
  lemma {:induction false} SumParts(s: set<Stack>, f: map<Stack, int>, parts: map<Stack, set<Stack>>,
                                    d: map<Stack, int>)
    requires s <= f.Keys && s <= parts.Keys
    requires forall x :: x in s ==> parts[x] <= d.Keys && f[x] == Sum(parts[x], d)
    requires forall x, y :: x in s && y in s && x != y ==> parts[x] !! parts[y]
    ensures Union(s, parts) <= d.Keys && Sum(s, f) == Sum(Union(s, parts), d)
  {
    if s == {} {
      assert Union(s, parts) == {};
    } else {
      hide Sum;
      var x :| x in s;
      var r := s - {x};
      SumParts(r, f, parts, d);
      assert s == r + {x};
      SumAdd(r, f, x);
      UnionSplit(s, parts, x);
      hide Union;
      SumUnion(Union(r, parts), parts[x], d);
    }
  }

  lemma UnionSplit(s: set<Stack>, parts: map<Stack, set<Stack>>, x: Stack)
    requires s <= parts.Keys && x in s
    requires forall y, z :: y in s && z in s && y != z ==> parts[y] !! parts[z]
    ensures Union(s, parts) == Union(s - {x}, parts) + parts[x] && Union(s - {x}, parts) !! parts[x]
  {
  }

  ghost function Union(s: set<Stack>, parts: map<Stack, set<Stack>>): set<Stack>
    requires s <= parts.Keys
  {
    set x, t | x in s && t in parts[x] :: t
  }

  // ----- trees

  lemma ChildOf(calls: set<Stack>, s: Stack, c: Stack)
    requires c in Children(calls, s)
    ensures |c| == |s| + 1 && c[..|s|] == s && Below(calls, c, c)
  {
    assert c[..|c|] == c;
  }

  /** A call below `s` and not `s` itself is below exactly one child of `s`. */
  lemma BelowChild(calls: set<Stack>, s: Stack, t: Stack)
    requires s in calls && Below(calls, s, t) && t != s
    ensures |t| > |s| && t[..|s| + 1] in Children(calls, s) && Below(calls, t[..|s| + 1], t)
  {
    assert t[..|t|] == t;
    var c := t[..|s| + 1];
    assert c[..|s|] == s;
    assert Parent(c) == s;
  }

  lemma BelowTrans(calls: set<Stack>, s: Stack, c: Stack, t: Stack)
    requires s in calls && c in Children(calls, s) && Below(calls, c, t)
    ensures Below(calls, s, t) && t != s && t[..|s| + 1] == c
  {
    ChildOf(calls, s, c);
    assert t[..|c|][..|s|] == t[..|s|];
    forall k | |s| <= k <= |t|
      ensures t[..k] in calls
    {
    }
  }

  ghost function Subtrees(calls: set<Stack>): map<Stack, set<Stack>> {
    map s | s in calls :: Subtree(calls, s)
  }

  /** A subtree is its root and the disjoint subtrees of the children. */
  lemma SubtreeParts(calls: set<Stack>, s: Stack)
    requires s in calls
    ensures Children(calls, s) <= Subtrees(calls).Keys
    ensures Subtree(calls, s) == {s} + Union(Children(calls, s), Subtrees(calls))
    ensures s !in Union(Children(calls, s), Subtrees(calls))
    ensures forall c, d :: c in Children(calls, s) && d in Children(calls, s) && c != d ==>
      Subtree(calls, c) !! Subtree(calls, d)
  {
    var kids := Children(calls, s);
    var below := Union(kids, Subtrees(calls));
    assert s[..|s|] == s;
    assert Below(calls, s, s);
    forall t | t in Subtree(calls, s) && t != s
      ensures t in below
    {
      BelowChild(calls, s, t);
      assert t in Subtrees(calls)[t[..|s| + 1]];
    }
    forall c, t | c in kids && t in Subtree(calls, c)
      ensures t in Subtree(calls, s) && t != s && t[..|s| + 1] == c
    {
      ChildOf(calls, s, c);
      BelowTrans(calls, s, c, t);
    }
  }

  lemma SubtreesAt(calls: set<Stack>)
    ensures Subtrees(calls).Keys == calls
    ensures forall s :: s in calls ==> Subtrees(calls)[s] == Subtree(calls, s) && Subtree(calls, s) <= calls
  {
  }

  lemma RootsAreCalls(calls: set<Stack>)
    ensures Roots(calls) <= calls
  {
  }

  /** The sum over a subtree, from the sums over the subtrees of the children. */
  lemma SubtreeSum(calls: set<Stack>, s: Stack, sums: map<Stack, int>, f: map<Stack, int>)
    requires s in calls && calls == f.Keys && Children(calls, s) <= sums.Keys
    requires forall c :: c in Children(calls, s) ==> sums[c] == Sum(Subtree(calls, c), f)
    ensures Sum(Subtree(calls, s), f) == f[s] + Sum(Children(calls, s), sums)
  {
    hide Subtree, Children, Subtrees, Sum, Union;
    var kids, parts := Children(calls, s), Subtrees(calls);
    SubtreesAt(calls);
    SubtreeParts(calls, s);
    SumParts(kids, sums, parts, f);
    SumAdd(Union(kids, parts), f, s);
    assert Union(kids, parts) + {s} == {s} + Union(kids, parts);
  }

  /** Every call is below exactly one root. */
  lemma {:induction false} RootOf(calls: set<Stack>, t: Stack) returns (r: Stack)
    requires [] !in calls && t in calls
    ensures r in Roots(calls) && Below(calls, r, t)
  {
    if Parent(t) !in calls {
      r := t;
      assert t[..|t|] == t;
    } else {
      r := RootOf(calls, Parent(t));
      BelowStep(calls, r, t);
    }
  }

  lemma BelowStep(calls: set<Stack>, r: Stack, t: Stack)
    requires t in calls && t != [] && Below(calls, r, Parent(t))
    ensures Below(calls, r, t)
  {
    var p := Parent(t);
    assert t[..|r|] == p[..|r|];
    forall k | |r| <= k <= |t|
      ensures t[..k] in calls
    {
      if k < |t| {
        assert t[..k] == p[..k];
      } else {
        assert t[..k] == t;
      }
    }
  }

  lemma OneRoot(calls: set<Stack>, q: Stack, r: Stack, t: Stack)
    requires [] !in calls && q in Roots(calls) && r in Roots(calls) && Below(calls, q, t) && Below(calls, r, t)
    ensures q == r
  {
    if |q| < |r| {
      RootDepth(calls, q, r, t);
    } else if |r| < |q| {
      RootDepth(calls, r, q, t);
    }
  }

  lemma RootDepth(calls: set<Stack>, q: Stack, r: Stack, t: Stack)
    requires [] !in calls && r in calls && Below(calls, q, t) && Below(calls, r, t) && |q| < |r|
    ensures Parent(r) in calls
  {
    assert Parent(r) == t[..|r| - 1];
  }

  lemma RootParts(calls: set<Stack>)
    requires [] !in calls
    ensures Roots(calls) <= Subtrees(calls).Keys && Union(Roots(calls), Subtrees(calls)) == calls
    ensures forall q, r :: q in Roots(calls) && r in Roots(calls) && q != r ==> Subtree(calls, q) !! Subtree(calls, r)
  {
    forall t | t in calls
      ensures t in Union(Roots(calls), Subtrees(calls))
    {
      var r := RootOf(calls, t);
      assert t in Subtrees(calls)[r];
    }
    forall q, r, t | q in Roots(calls) && r in Roots(calls) && t in Subtree(calls, q) && t in Subtree(calls, r)
      ensures q == r
    {
      OneRoot(calls, q, r, t);
    }
  }

  /** The sum over all calls, from the sums over the subtrees of the roots. */
  lemma RootSum(calls: set<Stack>, sums: map<Stack, int>, f: map<Stack, int>)
    requires [] !in calls && calls == f.Keys && calls <= sums.Keys
    requires forall s :: s in calls ==> sums[s] == Sum(Subtree(calls, s), f)
    ensures Sum(Roots(calls), sums) == Sum(calls, f)
  {
    hide Subtree, Subtrees, Sum, Roots, Union;
    SubtreesAt(calls);
    RootParts(calls);
    RootsAreCalls(calls);
    SumParts(Roots(calls), sums, Subtrees(calls), f);
  }

  /** `t` is shown under `s`: it is not folded, and every call between them is. */
  ghost predicate Shown(calls: set<Stack>, folds: set<Stack>, s: Stack, t: Stack) {
    Below(calls, s, t) && t != s && t !in folds && forall k :: |s| < k < |t| ==> t[..k] in folds
  }

  ghost function ShownUnder(calls: set<Stack>, folds: set<Stack>, s: Stack): set<Stack> {
    set t | t in calls && Shown(calls, folds, s, t)
  }

  ghost function Showns(calls: set<Stack>, folds: set<Stack>): map<Stack, set<Stack>> {
    map s | s in calls :: ShownUnder(calls, folds, s)
  }

  /** What is shown under a call: its children that are not folded, and what is shown under the folded ones. */
  lemma ShownParts(calls: set<Stack>, folds: set<Stack>, s: Stack)
    requires s in calls
    ensures var kids := Children(calls, s);
            && kids * folds <= Showns(calls, folds).Keys
            && ShownUnder(calls, folds, s) == (kids - folds) + Union(kids * folds, Showns(calls, folds))
  {
    var kids := Children(calls, s);
    var right := (kids - folds) + Union(kids * folds, Showns(calls, folds));
    forall t | t in ShownUnder(calls, folds, s)
      ensures t in right
    {
      BelowChild(calls, s, t);
      var c := t[..|s| + 1];
      if t == c {
        assert t in kids - folds;
      } else {
        ShownFrom(calls, folds, s, t);
        assert t in Showns(calls, folds)[c];
      }
    }
    forall t | t in right
      ensures t in ShownUnder(calls, folds, s)
    {
      if t in kids - folds {
        ChildOf(calls, s, t);
        BelowTrans(calls, s, t, t);
      } else {
        var c :| c in kids * folds && t in Showns(calls, folds)[c];
        ShownThrough(calls, folds, s, c, t);
      }
    }
  }

  lemma ShownFrom(calls: set<Stack>, folds: set<Stack>, s: Stack, t: Stack)
    requires Shown(calls, folds, s, t) && |t| > |s| + 1 && Below(calls, t[..|s| + 1], t)
    ensures t[..|s| + 1] in folds && Shown(calls, folds, t[..|s| + 1], t)
  {
  }

  lemma ShownThrough(calls: set<Stack>, folds: set<Stack>, s: Stack, c: Stack, t: Stack)
    requires s in calls && c in Children(calls, s) && c in folds && Shown(calls, folds, c, t)
    ensures Shown(calls, folds, s, t)
  {
    ChildOf(calls, s, c);
    BelowTrans(calls, s, c, t);
    assert t[..|t|] == t;
    forall k | |s| < k < |t|
      ensures t[..k] in folds
    {
      if k == |c| {
        assert t[..k] == c;
      }
    }
  }

  /** `t` is `s`, or below it with only folded calls on the way and at the end. */
  ghost predicate Absorbs(calls: set<Stack>, folds: set<Stack>, s: Stack, t: Stack) {
    Below(calls, s, t) && forall k :: |s| < k <= |t| ==> t[..k] in folds
  }

  /** The calls whose data ends up in that of `s`. */
  ghost function Absorbed(calls: set<Stack>, folds: set<Stack>, s: Stack): set<Stack> {
    set t | t in calls && Absorbs(calls, folds, s, t)
  }

  ghost function Absorbeds(calls: set<Stack>, folds: set<Stack>): map<Stack, set<Stack>> {
    map s | s in calls :: Absorbed(calls, folds, s)
  }

  lemma AbsorbedsAt(calls: set<Stack>, folds: set<Stack>)
    ensures Absorbeds(calls, folds).Keys == calls
    ensures forall s :: s in calls ==>
      Absorbeds(calls, folds)[s] == Absorbed(calls, folds, s) && Absorbed(calls, folds, s) <= calls
  {
  }

  lemma AbsorbedFrom(calls: set<Stack>, folds: set<Stack>, s: Stack, t: Stack)
    requires s in calls && Absorbs(calls, folds, s, t) && t != s
    ensures |t| > |s| && t[..|s| + 1] in Children(calls, s) * folds && Absorbs(calls, folds, t[..|s| + 1], t)
  {
    BelowChild(calls, s, t);
  }

  lemma AbsorbedThrough(calls: set<Stack>, folds: set<Stack>, s: Stack, c: Stack, t: Stack)
    requires s in calls && c in Children(calls, s) && c in folds && Absorbs(calls, folds, c, t)
    ensures Absorbs(calls, folds, s, t) && |t| > |s| && t[..|s| + 1] == c
  {
    ChildOf(calls, s, c);
    BelowTrans(calls, s, c, t);
    forall k | |s| < k <= |t|
      ensures t[..k] in folds
    {
      if k == |c| {
        assert t[..k] == c;
      }
    }
  }

  /** A call absorbs itself and what its folded children absorb. */
  lemma AbsorbedParts(calls: set<Stack>, folds: set<Stack>, s: Stack)
    requires s in calls
    ensures var kids, parts := Children(calls, s) * folds, Absorbeds(calls, folds);
            && kids <= parts.Keys && Absorbed(calls, folds, s) == {s} + Union(kids, parts) && s !in Union(kids, parts)
            && forall c, d :: c in kids && d in kids && c != d ==>
              Absorbed(calls, folds, c) !! Absorbed(calls, folds, d)
  {
    var kids, parts := Children(calls, s) * folds, Absorbeds(calls, folds);
    AbsorbedsAt(calls, folds);
    hide Absorbs, Absorbed, Absorbeds, Children;
    KidsAreCalls(calls, s);
    forall t
      ensures t in Absorbed(calls, folds, s) <==> t == s || t in Union(kids, parts)
    {
      AbsorbedAt(calls, folds, s, t);
    }
    forall c, d | c in kids && d in kids && c != d
      ensures Absorbed(calls, folds, c) !! Absorbed(calls, folds, d)
    {
      forall t | t in Absorbed(calls, folds, c)
        ensures t !in Absorbed(calls, folds, d)
      {
        AbsorbedUnder(calls, folds, s, c, t);
        if t in Absorbed(calls, folds, d) {
          AbsorbedUnder(calls, folds, s, d, t);
        }
      }
    }
    if s in Union(kids, parts) {
      var c :| c in kids && s in parts[c];
      AbsorbedUnder(calls, folds, s, c, s);
    }
  }

  lemma KidsAreCalls(calls: set<Stack>, s: Stack)
    ensures Children(calls, s) <= calls
  {
  }

  lemma AbsorbedUnder(calls: set<Stack>, folds: set<Stack>, s: Stack, c: Stack, t: Stack)
    requires s in calls && c in Children(calls, s) && c in folds && t in Absorbed(calls, folds, c)
    ensures |t| > |s| && t[..|s| + 1] == c && t in Absorbed(calls, folds, s)
  {
    hide Absorbs, Children;
    AbsorbedThrough(calls, folds, s, c, t);
  }

  lemma AbsorbedAt(calls: set<Stack>, folds: set<Stack>, s: Stack, t: Stack)
    requires s in calls && Children(calls, s) * folds <= Absorbeds(calls, folds).Keys
    ensures t in Absorbed(calls, folds, s) <==>
      t == s || t in Union(Children(calls, s) * folds, Absorbeds(calls, folds))
  {
    hide Absorbs, Children;
    var kids, parts := Children(calls, s) * folds, Absorbeds(calls, folds);
    if t == s {
      AbsorbsItself(calls, folds, s);
    } else if t in Absorbed(calls, folds, s) {
      AbsorbedFrom(calls, folds, s, t);
      assert t in parts[t[..|s| + 1]];
    } else if t in Union(kids, parts) {
      var c :| c in kids && t in parts[c];
      AbsorbedUnder(calls, folds, s, c, t);
      assert false;
    }
  }

  lemma AbsorbsItself(calls: set<Stack>, folds: set<Stack>, s: Stack)
    requires s in calls
    ensures Absorbs(calls, folds, s, s)
  {
    assert s[..|s|] == s;
  }

  /** The sum over what a call absorbs, from the sums of its folded children. */
  lemma AbsorbedSum(calls: set<Stack>, folds: set<Stack>, s: Stack, sums: map<Stack, int>, f: map<Stack, int>)
    requires s in calls && calls == f.Keys && Children(calls, s) * folds <= sums.Keys
    requires forall c :: c in Children(calls, s) * folds ==> sums[c] == Sum(Absorbed(calls, folds, c), f)
    ensures Sum(Absorbed(calls, folds, s), f) == f[s] + Sum(Children(calls, s) * folds, sums)
  {
    hide Absorbed, Children, Absorbeds, Sum, Union;
    var kids, parts := Children(calls, s) * folds, Absorbeds(calls, folds);
    AbsorbedsAt(calls, folds);
    AbsorbedParts(calls, folds, s);
    SumParts(kids, sums, parts, f);
    SumAdd(Union(kids, parts), f, s);
    assert Union(kids, parts) + {s} == {s} + Union(kids, parts);
  }
}
