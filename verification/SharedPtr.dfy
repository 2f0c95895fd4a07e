/** Reference counting of `rombauts::shared_ptr`: handles with a pointer and a shared counter. Allocation does not fail
    here. */
module SharedPtr {
  import opened Basics

  /** An object handed to a handle, by its address. */
  datatype Ptr = Ptr(address: nat)

  /** The counter that `shared_ptr_count` allocates. */
  class Counter {
    var n: int

    constructor ()
      ensures n == 1
    {
      n := 1;
    }
  }

  /** What a handle holds. */
  datatype Link = Link(px: Option<Ptr>, pn: Counter?)

  class Handle {
    var px: Option<Ptr>
    var pn: Counter?

    constructor ()
      ensures View() == Link(None, null)
    {
      px, pn := None, null;
    }

    function View(): Link
      reads this
    {
      Link(px, pn)
    }
  }

  // ----- states

  /** The live handles, the live counters with the object each guards, the deleted objects in order, and all objects
      handed over so far. */
  datatype State = State(links: map<Handle, Link>, counts: map<Counter, int>, owner: map<Counter, Ptr>,
                         deleted: seq<Ptr>, given: set<Ptr>)

  ghost function Sharers(links: map<Handle, Link>, c: Counter): set<Handle> {
    set h | h in links && links[h].pn == c
  }

  /** A handle's pointer is null exactly when its counter is; otherwise the counter is live and guards the pointer. */
  ghost predicate Tied(links: map<Handle, Link>, owner: map<Counter, Ptr>) {
    forall h :: h in links ==>
      && (links[h].px.None? <==> links[h].pn == null)
      && (links[h].pn != null ==> links[h].pn in owner && links[h].px == Some(owner[links[h].pn]))
  }

  /** Every live counter equals the number of handles that share it, and there is one. */
  ghost predicate Counted(links: map<Handle, Link>, counts: map<Counter, int>) {
    forall c :: c in counts ==> counts[c] == |Sharers(links, c)| && counts[c] > 0
  }

  /** Each object is guarded by one counter or has been deleted once, and not both. */
  ghost predicate Accounted(owner: map<Counter, Ptr>, deleted: seq<Ptr>, given: set<Ptr>) {
    && (forall c, d :: c in owner && d in owner && c != d ==> owner[c] != owner[d])
    && (forall i, j :: 0 <= i < j < |deleted| ==> deleted[i] != deleted[j])
    && (forall c :: c in owner ==> owner[c] in given && owner[c] !in deleted)
    && (forall p :: p in deleted ==> p in given)
    && (forall p :: p in given ==> p in deleted || exists c: Counter :: c in owner && owner[c] == p)
  }

  ghost predicate Inv(s: State) {
    s.counts.Keys == s.owner.Keys && Tied(s.links, s.owner) && Counted(s.links, s.counts)
    && Accounted(s.owner, s.deleted, s.given)
  }

  // ----- what the operations do

  /** Giving up a link: the counter falls, and at zero the object and the counter are deleted. */
  ghost function Released(s: State, h: Handle): State
    requires h in s.links
  {
    var c := s.links[h].pn;
    var links := s.links[h := Link(None, null)];
    if c == null || c !in s.counts || s.links[h].px.None? then s.(links := links)
    else if s.counts[c] == 1
    then s.(links := links, counts := Dropped(s.counts, c), owner := s.owner - {c},
           deleted := s.deleted + [s.links[h].px.value])
    else s.(links := links, counts := Dropped(s.counts, c))
  }

  /** A counter falls by one, and is gone at zero. */
  ghost function Dropped(counts: map<Counter, int>, c: Counter): map<Counter, int>
    requires c in counts
  {
    if counts[c] == 1 then counts - {c} else counts[c := counts[c] - 1]
  }

  ghost function Raised(counts: map<Counter, int>, c: Counter): map<Counter, int>
    requires c in counts
  {
    counts[c := counts[c] + 1]
  }

  /** A handle takes over a new object, with a new counter. */
  ghost function Taken(s: State, h: Handle, p: Ptr, c: Counter): State {
    s.(links := s.links[h := Link(Some(p), c)], counts := s.counts[c := 1], owner := s.owner[c := p],
       given := s.given + {p})
  }

  /** A new handle shares the link of another. */
  ghost function Shared(s: State, h: Handle, g: Handle): State
    requires g in s.links
  {
    var link := s.links[g];
    var s1 := s.(links := s.links[h := link]);
    if link.pn == null || link.pn !in s.counts then s1 else s1.(counts := Raised(s.counts, link.pn))
  }

  ghost function Swapped(s: State, h: Handle, g: Handle): State
    requires h in s.links && g in s.links
  {
    s.(links := s.links[h := s.links[g]][g := s.links[h]])
  }

  lemma SwappedIs(s: State, h: Handle, g: Handle)
    requires h in s.links && g in s.links
    ensures Swapped(s, h, g) == s.(links := s.links[h := s.links[g]][g := s.links[h]])
  {
  }

  /** A handle without a link comes into being, or goes away. */
  ghost function WithEmpty(s: State, h: Handle): State {
    s.(links := s.links[h := Link(None, null)])
  }

  ghost function Without(s: State, h: Handle): State {
    s.(links := s.links - {h})
  }

  // ----- they keep the invariant

  lemma RelinkSharers(links: map<Handle, Link>, h: Handle, link: Link, c: Counter)
    ensures Sharers(links[h := link], c) == Sharers(links, c) - {h} + if link.pn == c then {h} else {}
  {
  }

  /** Counters stay right when a handle gives up its link: its counter falls by one, or goes away with it. */
  lemma UnlinkCounted(links: map<Handle, Link>, h: Handle, counts: map<Counter, int>)
    requires h in links && Counted(links, counts)
    ensures var links', c := links[h := Link(None, null)], links[h].pn;
            if c == null || c !in counts then Counted(links', counts)
            else if counts[c] == 1 then Sharers(links', c) == {} && Counted(links', counts - {c})
            else Counted(links', counts[c := counts[c] - 1])
  {
    var links', c := links[h := Link(None, null)], links[h].pn;
    forall d: Counter
      ensures |Sharers(links', d)| == |Sharers(links, d)| - if c == d then 1 else 0
    {
      RelinkSharers(links, h, Link(None, null), d);
      CountOut(Sharers(links, d), h);
    }
    if c != null && c in counts && counts[c] == 1 {
      assert |Sharers(links', c)| == 0;
    }
    hide Sharers;
  }

  lemma ReleaseKeeps(s: State, h: Handle)
    requires Inv(s) && h in s.links
    ensures Inv(Released(s, h))
  {
    hide Counted, Accounted, Sharers;
    UnlinkCounted(s.links, h, s.counts);
    var c := s.links[h].pn;
    if c != null && s.counts[c] == 1 {
      AccountDelete(s.owner, s.deleted, s.given, c);
      Unshared(s.links[h := Link(None, null)], c);
    }
  }

  lemma Unshared(links: map<Handle, Link>, c: Counter)
    requires Sharers(links, c) == {}
    ensures forall g :: g in links ==> links[g].pn != c
  {
    forall g | g in links
      ensures links[g].pn != c
    {
      assert g !in Sharers(links, c);
    }
  }

  lemma OnlyOne<T>(s: set<T>, x: T)
    requires x in s && |s| == 1
    ensures s == {x}
  {
    assert |s - {x}| == 0;
  }

  lemma AccountDelete(owner: map<Counter, Ptr>, deleted: seq<Ptr>, given: set<Ptr>, c: Counter)
    requires Accounted(owner, deleted, given) && c in owner
    ensures Accounted(owner - {c}, deleted + [owner[c]], given)
  {
    var owner', deleted' := owner - {c}, deleted + [owner[c]];
    forall p | p in given
      ensures p in deleted' || exists d: Counter :: d in owner' && owner'[d] == p
    {
      if p !in deleted && p != owner[c] {
        var d: Counter :| d in owner && owner[d] == p;
        assert d in owner' && owner'[d] == p;
      }
    }
  }

  /** Counters stay right when a handle without a counter shares one that is live, or one that is new. */
  lemma LinkCounted(links: map<Handle, Link>, h: Handle, link: Link, counts: map<Counter, int>)
    requires Counted(links, counts) && link.pn != null && (h in links ==> links[h].pn == null)
    requires link.pn !in counts ==> Sharers(links, link.pn) == {}
    ensures var n := if link.pn in counts then counts[link.pn] else 0;
            Counted(links[h := link], counts[link.pn := n + 1])
  {
    var links' := links[h := link];
    forall c: Counter
      ensures Sharers(links', c) == if link.pn == c then Sharers(links, c) + {h} else Sharers(links, c)
      ensures h !in Sharers(links, c)
    {
      RelinkSharers(links, h, link, c);
    }
  }

  lemma TakeKeeps(s: State, h: Handle, p: Ptr, c: Counter)
    requires Inv(s) && (h in s.links ==> s.links[h].pn == null) && p !in s.given && c !in s.owner
    ensures Inv(Taken(s, h, p, c))
  {
    hide Counted;
    forall g | g in s.links
      ensures s.links[g].pn != c
    {
    }
    assert Sharers(s.links, c) == {};
    LinkCounted(s.links, h, Link(Some(p), c), s.counts);
    hide Sharers;
    AccountTake(s.owner, s.deleted, s.given, p, c);
    hide Accounted;
  }

  lemma AccountTake(owner: map<Counter, Ptr>, deleted: seq<Ptr>, given: set<Ptr>, p: Ptr, c: Counter)
    requires Accounted(owner, deleted, given) && p !in given && c !in owner
    ensures Accounted(owner[c := p], deleted, given + {p})
  {
    var owner' := owner[c := p];
    forall q | q in given + {p}
      ensures q in deleted || exists d: Counter :: d in owner' && owner'[d] == q
    {
      if q == p {
        assert c in owner' && owner'[c] == p;
      } else if q !in deleted {
        var d: Counter :| d in owner && owner[d] == q;
        assert d in owner' && owner'[d] == q;
      }
    }
  }

  lemma ShareKeeps(s: State, h: Handle, g: Handle)
    requires Inv(s) && h !in s.links && g in s.links
    ensures Inv(Shared(s, h, g))
  {
    hide Counted, Accounted;
    if s.links[g].pn != null {
      LinkCounted(s.links, h, s.links[g], s.counts);
    } else {
      EmptyCounted(s.links, h, s.counts);
    }
  }

  lemma EmptyCounted(links: map<Handle, Link>, h: Handle, counts: map<Counter, int>)
    requires Counted(links, counts) && (h in links ==> links[h].pn == null)
    ensures Counted(links[h := Link(None, null)], counts) && Counted(links - {h}, counts)
  {
    forall c: Counter
      ensures Sharers(links[h := Link(None, null)], c) == Sharers(links, c) == Sharers(links - {h}, c)
    {
      RelinkSharers(links, h, Link(None, null), c);
    }
  }

  lemma EmptyKeeps(s: State, h: Handle)
    requires Inv(s) && (h in s.links ==> s.links[h].pn == null)
    ensures Inv(WithEmpty(s, h)) && Inv(Without(s, h))
  {
    hide Counted, Accounted;
    EmptyCounted(s.links, h, s.counts);
  }

  /** Swapping two handles swaps them in the sets of sharers. */
  lemma SwapKeeps(s: State, h: Handle, g: Handle)
    requires Inv(s) && h in s.links && g in s.links
    ensures Inv(Swapped(s, h, g))
  {
    hide Accounted, Counted, Tied;
    SwapTied(s.links, s.owner, h, g);
    SwapCounted(s.links, s.counts, h, g);
  }

  lemma SwapTied(links: map<Handle, Link>, owner: map<Counter, Ptr>, h: Handle, g: Handle)
    requires Tied(links, owner) && h in links && g in links
    ensures Tied(links[h := links[g]][g := links[h]], owner)
  {
  }

  lemma SwapCounted(links: map<Handle, Link>, counts: map<Counter, int>, h: Handle, g: Handle)
    requires Counted(links, counts) && h in links && g in links
    ensures Counted(links[h := links[g]][g := links[h]], counts)
  {
    hide Sharers;
    forall c | c in counts
      ensures |Sharers(links[h := links[g]][g := links[h]], c)| == |Sharers(links, c)|
    {
      SwapSharers(links, h, g, c);
    }
  }

  lemma SwapSharers(links: map<Handle, Link>, h: Handle, g: Handle, c: Counter)
    requires h in links && g in links
    ensures |Sharers(links[h := links[g]][g := links[h]], c)| == |Sharers(links, c)|
  {
    var a, b := Sharers(links, c), Sharers(links[h := links[g]][g := links[h]], c);
    assert (h in a <==> links[h].pn == c) && (g in a <==> links[g].pn == c);
    RelinkSharers(links, h, links[g], c);
    RelinkSharers(links[h := links[g]], g, links[h], c);
    hide Sharers;
    assert a - {h} - {g} == b - {h} - {g};
    SwapCount(a, b, h, g);
  }

  lemma SwapCount(a: set<Handle>, b: set<Handle>, h: Handle, g: Handle)
    requires (h in b <==> g in a) && (g in b <==> h in a) && a - {h} - {g} == b - {h} - {g}
    ensures |a| == |b|
  {
    CountOut(a, h);
    CountOut(a - {h}, g);
    CountOut(b, h);
    CountOut(b - {h}, g);
  }

  lemma CountOut<T>(s: set<T>, x: T)
    ensures |s| == |s - {x}| + if x in s then 1 else 0
  {
    if x !in s {
      assert s - {x} == s;
    }
  }

  lemma CountPositive(s: State, c: Counter)
    requires Inv(s) && c in s.counts
    ensures s.counts[c] > 0
  {
  }

  /** What an assignment comes to: the handle shares the other's link, and its own is given up unless it was the
      same. */
  ghost function Assigned(s: State, h: Handle, g: Handle): State
    requires h in s.links && g in s.links
  {
    var links, c, d := s.links[h := s.links[g]], s.links[h].pn, s.links[g].pn;
    if c == d then s.(links := links)
    else
      var s1 := Released(s, h);
      s1.(links := links, counts := if d == null || d !in s1.counts then s1.counts else Raised(s1.counts, d))
  }

  lemma AssignIs(s: State, h: Handle, g: Handle, t: Handle)
    requires Inv(s) && h in s.links && g in s.links && t !in s.links
    ensures Without(Released(Swapped(Shared(s, t, g), h, t), t), t) == Assigned(s, h, g)
  {
    LinkFacts(s, h);
    LinkFacts(s, g);
    hide Inv;
    var c, d, s1 := s.links[h].pn, s.links[g].pn, Swapped(Shared(s, t, g), h, t);
    AssignLinks(s.links, h, g, t);
    if c != null {
      if d != null {
        DropRaised(s.counts, c, d);
      }
      assert c == d ==> s1.counts[c] != 1;
    }
    hide Raised, Dropped;
  }

  lemma AssignLinks(links: map<Handle, Link>, h: Handle, g: Handle, t: Handle)
    requires h in links && g in links && t !in links
    ensures var copied := links[t := links[g]];
            var swapped := copied[h := copied[t]][t := copied[h]];
            swapped[t] == links[h] && swapped[t := Link(None, null)] - {t} == links[h := links[g]]
  {
    var copied := links[t := links[g]];
    var swapped := copied[h := copied[t]][t := copied[h]];
    assert swapped[t := Link(None, null)] - {t} == links[h := links[g]];
  }

  /** Raising one counter and dropping another are independent, and cancel on the same counter. */
  lemma DropRaised(counts: map<Counter, int>, c: Counter, d: Counter)
    requires c in counts && d in counts && counts[c] > 0 && counts[d] > 0
    ensures Dropped(Raised(counts, d), c) == if c == d then counts else Raised(Dropped(counts, c), d)
  {
  }

  lemma LinkFacts(s: State, h: Handle)
    requires Inv(s) && h in s.links
    ensures s.links[h].px.None? <==> s.links[h].pn == null
    ensures s.links[h].pn != null ==> s.links[h].pn in s.counts && s.counts[s.links[h].pn] > 0
  {
  }

  /** Deletion happens exactly when the last handle leaves. */
  lemma ReleaseDeletes(s: State, h: Handle)
    requires Inv(s) && h in s.links
    ensures var c := s.links[h].pn;
            Released(s, h).deleted == s.deleted + if c != null && Sharers(s.links, c) == {h} then [s.owner[c]] else []
  {
    var c := s.links[h].pn;
    if c != null {
      assert h in Sharers(s.links, c);
      if s.counts[c] == 1 {
        OnlyOne(Sharers(s.links, c), h);
      }
    }
  }

  /** When no handle is left, every object that was handed over has been deleted, once. */
  lemma AllDeleted(s: State)
    requires Inv(s) && s.links == map[]
    ensures forall p :: p in s.given <==> p in s.deleted
    ensures forall i, j :: 0 <= i < j < |s.deleted| ==> s.deleted[i] != s.deleted[j]
  {
    forall c: Counter
      ensures c !in s.counts
    {
      assert Sharers(s.links, c) == {};
    }
  }

  // ----- the operations

  class Memory {
    ghost var handles: set<Handle>
    ghost var owner: map<Counter, Ptr>
    ghost var given: set<Ptr>
    /** The objects deleted so far, in order. */
    var deleted: seq<Ptr>

    constructor ()
      ensures handles == {} && owner == map[] && given == {} && deleted == [] && Inv(View())
    {
      handles, owner, given, deleted := {}, map[], {}, [];
      new;
      assert View() == State(map[], map[], map[], [], {});
    }

    ghost function Links(): map<Handle, Link>
      reads this`handles, handles
    {
      map h | h in handles :: h.View()
    }

    ghost function Counts(): map<Counter, int>
      reads this`owner, owner.Keys
    {
      map c | c in owner :: c.n
    }

    ghost function View(): State
      reads this, handles, owner.Keys
    {
      State(Links(), Counts(), owner, deleted, given)
    }

    /** `acquire`, on a handle that holds no counter, or, in the copy constructor, only the counter it copied. */
    method Acquire(h: Handle, p: Option<Ptr>)
      requires h.pn != null && p.Some? ==> h.pn in owner
      modifies h, this`owner, this`given, if h.pn != null then {h.pn} else {}
      ensures h.px == p
      ensures old(h.pn) == null && p.Some? ==>
        && h.pn != null && fresh(h.pn) && Counts() == old(Counts())[h.pn := 1]
        && owner == old(owner)[h.pn := p.value] && given == old(given) + {p.value}
      ensures old(h.pn) != null || p.None? ==> h.pn == old(h.pn) && owner == old(owner) && given == old(given)
      ensures old(h.pn) != null && p.Some? ==> Counts() == old(Counts())[h.pn := old(h.pn.n) + 1]
      ensures p.None? ==> Counts() == old(Counts())
    {
      if p.Some? {
        if h.pn == null {
          h.pn := new Counter();
          owner := owner[h.pn := p.value];
          given := given + {p.value};
        } else {
          h.pn.n := h.pn.n + 1;
        }
      }
      h.px := p;
    }

    /** A counter falls; at zero the object and the counter are deleted. */
    method Drop(c: Counter, p: Ptr)
      requires c in owner
      modifies this`owner, this`deleted, c
      ensures if old(c.n) == 1
              then owner == old(owner) - {c} && Counts() == old(Counts()) - {c} && deleted == old(deleted) + [p]
              else owner == old(owner) && Counts() == old(Counts())[c := old(c.n) - 1] && deleted == old(deleted)
    {
      c.n := c.n - 1;
      if c.n == 0 {
        deleted := deleted + [p];
        owner := owner - {c};
      }
    }

    /** `release`. */
    method Release(h: Handle)
      requires Inv(View()) && h in handles
      modifies this`owner, this`deleted, h, owner.Keys
      ensures h.View() == Link(None, null) && owner.Keys <= old(owner.Keys)
      ensures Inv(View()) && View() == Released(old(View()), h)
    {
      hide Inv, Links, Counts;
      ghost var s := View();
      LinkOf(h);
      ReleaseKeeps(s, h);
      if h.pn != null {
        Drop(h.pn, h.px.value);
      }
      assert Links() == s.links;
      Unlink(h);
    }

    lemma LinkOf(h: Handle)
      requires Inv(View()) && h in handles
      ensures h in Links() && Links()[h] == h.View()
      ensures h.pn != null ==>
        h.pn in owner && h.px == Some(owner[h.pn]) && h.pn in Counts() && Counts()[h.pn] == h.pn.n && h.pn.n > 0
      ensures h.pn == null ==> h.px == None
      ensures h.px.Some? ==> h.px.value in given
    {
      hide Counted;
      assert h in Links();
      if h.pn != null {
        CountPositive(View(), h.pn);
      }
    }

    method Unlink(h: Handle)
      requires h in handles
      modifies h
      ensures Links() == old(Links())[h := Link(None, null)] && h.View() == Link(None, null)
    {
      h.pn := null;
      h.px := None;
    }

    // ----- constructors, assignment, reset and destruction

    /** A handle comes into scope. */
    ghost method Enter(h: Handle)
      requires h !in handles
      modifies this`handles
      ensures handles == old(handles) + {h} && Links() == old(Links())[h := h.View()]
    {
      handles := handles + {h};
    }

    lemma Unknown(h: Handle)
      requires h !in handles
      ensures h !in Links()
    {
    }

    /** `shared_ptr()` */
    method Default() returns (h: Handle)
      requires Inv(View())
      modifies this`handles
      ensures fresh(h) && handles == old(handles) + {h}
      ensures Inv(View()) && View() == WithEmpty(old(View()), h)
    {
      hide Inv, Links, Counts;
      h := new Handle();
      Unknown(h);
      EmptyKeeps(View(), h);
      Enter(h);
    }

    /** `shared_ptr(p)`: takes over an object that was never handed over before. */
    method Construct(p: Option<Ptr>) returns (h: Handle)
      requires Inv(View()) && (p.Some? ==> p.value !in given)
      modifies this`handles, this`owner, this`given
      ensures fresh(h) && handles == old(handles) + {h} && (h.pn != null ==> fresh(h.pn))
      ensures p.None? ==> h.pn == null && View() == WithEmpty(old(View()), h)
      ensures p.Some? ==> h.pn != null && View() == Taken(old(View()), h, p.value, h.pn)
      ensures Inv(View())
    {
      hide Inv, Links, Counts;
      ghost var s := View();
      h := new Handle();
      Unknown(h);
      Acquire(h, p);
      EmptyKeeps(s, h);
      if p.Some? {
        TakeKeeps(s, h, p.value, h.pn);
      }
      Enter(h);
    }

    /** The copy constructor: shares the counter of another handle. */
    method Copy(g: Handle) returns (h: Handle)
      requires Inv(View()) && g in handles
      modifies this`handles, this`owner, this`given, if g.pn != null then {g.pn} else {}
      ensures fresh(h) && handles == old(handles) + {h} && h !in old(Links()) && owner == old(owner)
      ensures Inv(View()) && View() == Shared(old(View()), h, g)
    {
      hide Inv, Links, Counts;
      ghost var s := View();
      LinkOf(g);
      h := new Handle();
      Unknown(h);
      h.pn := g.pn;
      ShareKeeps(s, h, g);
      assert g.px == None || g.pn.n != 0;
      Acquire(h, g.px);
      Enter(h);
    }

    /** `swap` */
    method Swap(h: Handle, g: Handle)
      requires Inv(View()) && h in handles && g in handles
      modifies h, g
      ensures Inv(View()) && View() == Swapped(old(View()), h, g)
    {
      hide Inv, Counts;
      SwapKeeps(View(), h, g);
      ghost var s := View();
      hide Swapped;
      h.px, g.px := g.px, h.px;
      h.pn, g.pn := g.pn, h.pn;
      assert Links() == s.links[h := s.links[g]][g := s.links[h]];
      SwappedIs(s, h, g);
    }

    /** The destructor. */
    method Destroy(h: Handle)
      requires Inv(View()) && h in handles
      modifies this`handles, this`owner, this`deleted, h, owner.Keys
      ensures handles == old(handles) - {h} && owner.Keys <= old(owner.Keys)
      ensures Inv(View()) && View() == Without(Released(old(View()), h), h)
    {
      hide Inv, Counts;
      Release(h);
      LinkOf(h);
      EmptyKeeps(View(), h);
      ghost var links := Links();
      handles := handles - {h};
      assert Links() == links - {h};
    }

    /** Assignment: a copy is made, swapped in, and destroyed with the old link. */
    method Assign(h: Handle, g: Handle)
      requires Inv(View()) && h in handles && g in handles
      modifies this`handles, this`owner, this`deleted, this`given, h, owner.Keys
      ensures handles == old(handles) && owner.Keys <= old(owner.Keys)
      ensures Inv(View()) && View() == Assigned(old(View()), h, g)
    {
      hide Inv, Links, Counts, Shared, Swapped, Released, Without, Assigned;
      ghost var s := View();
      LinkOf(g);
      LinkOf(h);
      var ptr := Copy(g);
      AssignIs(s, h, g, ptr);
      Swap(h, ptr);
      Destroy(ptr);
    }

    /** `reset()` and `reset(p)`, for an object that was never handed over before. */
    method Reset(h: Handle, p: Option<Ptr>)
      requires Inv(View()) && h in handles && (p.Some? ==> h.px != p && p.value !in given)
      modifies this`owner, this`deleted, this`given, h, owner.Keys
      ensures h.pn != null ==> fresh(h.pn)
      ensures p.None? ==> h.pn == null && View() == Released(old(View()), h)
      ensures p.Some? ==> h.pn != null && View() == Taken(Released(old(View()), h), h, p.value, h.pn)
      ensures Inv(View())
    {
      hide Inv, Counts, Released;
      Release(h);
      ghost var s := View();
      LinkOf(h);
      Acquire(h, p);
      if p.Some? {
        TakeKeeps(s, h, p.value, h.pn);
      }
      assert Links() == s.links[h := h.View()];
    }

    /** `use_count()` */
    method UseCount(h: Handle) returns (count: int)
      requires Inv(View()) && h in handles
      ensures count == if h.pn == null then 0 else |Sharers(Links(), h.pn)|
      ensures (count == 0) == h.px.None?
    {
      LinkOf(h);
      count := 0;
      if h.pn != null {
        count := h.pn.n;
      }
    }
  }

  // ----- whole programs

  /** Operations on the handles in scope, by position. */
  datatype Op =
    | Empty
    | New(p: Ptr)
    | CopyOf(i: nat)
    | AssignTo(i: nat, j: nat)
    | SwapOf(i: nat, j: nat)
    | ResetTo(i: nat, q: Option<Ptr>)
    | Leave(i: nat)

  /** With `n` handles in scope, the operation refers to handles in scope and hands over no object twice. */
  predicate Allowed(op: Op, n: nat, given: set<Ptr>) {
    match op
    case Empty => true
    case New(p) => p !in given
    case CopyOf(i) => i < n
    case AssignTo(i, j) => i < n && j < n
    case SwapOf(i, j) => i < n && j < n
    case ResetTo(i, q) => i < n && (q.Some? ==> q.value !in given)
    case Leave(i) => i < n
  }

  function Scope(op: Op, n: nat): nat {
    if op.Empty? || op.New? || op.CopyOf? then n + 1 else if op.Leave? && n > 0 then n - 1 else n
  }

  function Handed(op: Op): set<Ptr> {
    if op.New? then {op.p} else if op.ResetTo? && op.q.Some? then {op.q.value} else {}
  }

  predicate Legal(ops: seq<Op>, n: nat, given: set<Ptr>) {
    ops != [] ==> Allowed(ops[0], n, given) && Legal(ops[1..], Scope(ops[0], n), given + Handed(ops[0]))
  }

  /** All objects that the operations hand over. */
  function AllHanded(ops: seq<Op>): set<Ptr> {
    if ops == [] then {} else Handed(ops[0]) + AllHanded(ops[1..])
  }

  /** The handles in scope are just the live ones, each at one position. */
  ghost predicate InScope(hs: seq<Handle>, handles: set<Handle>) {
    && (forall i :: 0 <= i < |hs| ==> hs[i] in handles) && (forall h :: h in handles ==> h in hs)
    && forall i, j :: 0 <= i < j < |hs| ==> hs[i] != hs[j]
  }

  /** The operations that bring a handle into scope. */
  method Begin(op: Op, hs: seq<Handle>, m: Memory) returns (h: Handle)
    requires Inv(m.View()) && InScope(hs, m.handles)
    requires Allowed(op, |hs|, m.given) && (op.Empty? || op.New? || op.CopyOf?)
    modifies m, m.handles, m.owner.Keys
    ensures Inv(m.View()) && m.handles == old(m.handles) + {h} && fresh(h) && m.given == old(m.given) + Handed(op)
    ensures fresh(m.owner.Keys - old(m.owner.Keys))
  {
    hide Inv;
    if op.Empty? {
      h := m.Default();
    } else if op.New? {
      h := m.Construct(Some(op.p));
    } else {
      m.LinkOf(hs[op.i]);
      h := m.Copy(hs[op.i]);
    }
  }

  method Execute(op: Op, hs: seq<Handle>, m: Memory) returns (hs': seq<Handle>)
    requires Inv(m.View()) && InScope(hs, m.handles) && Allowed(op, |hs|, m.given)
    modifies m, m.handles, m.owner.Keys
    ensures Inv(m.View()) && InScope(hs', m.handles) && |hs'| == Scope(op, |hs|) && m.given == old(m.given) + Handed(op)
    ensures fresh(m.handles - old(m.handles)) && fresh(m.owner.Keys - old(m.owner.Keys))
  {
    hide Inv, InScope;
    if op.Empty? || op.New? || op.CopyOf? {
      var h := Begin(op, hs, m);
      ScopeMore(hs, h, old(m.handles));
      hs' := hs + [h];
    } else if op.Leave? {
      ScopeAt(hs, op.i, m.handles);
      m.Destroy(hs[op.i]);
      hs' := hs[..op.i] + hs[op.i + 1..];
      ScopeLeft(hs, op.i, old(m.handles));
    } else {
      Change(op, hs, m);
      hs' := hs;
    }
  }

  /** The operations that change the links of handles in scope. */
  method Change(op: Op, hs: seq<Handle>, m: Memory)
    requires Inv(m.View()) && InScope(hs, m.handles)
    requires Allowed(op, |hs|, m.given) && (op.AssignTo? || op.SwapOf? || op.ResetTo?)
    modifies m, m.handles, m.owner.Keys
    ensures Inv(m.View()) && m.handles == old(m.handles) && m.given == old(m.given) + Handed(op)
    ensures fresh(m.owner.Keys - old(m.owner.Keys))
  {
    hide Inv, InScope;
    ScopeAt(hs, op.i, m.handles);
    if op.AssignTo? {
      ScopeAt(hs, op.j, m.handles);
      m.Assign(hs[op.i], hs[op.j]);
    } else if op.SwapOf? {
      ScopeAt(hs, op.j, m.handles);
      m.Swap(hs[op.i], hs[op.j]);
    } else {
      m.LinkOf(hs[op.i]);
      m.Reset(hs[op.i], op.q);
    }
  }

  lemma ScopeAt(hs: seq<Handle>, i: nat, handles: set<Handle>)
    requires InScope(hs, handles) && i < |hs|
    ensures hs[i] in handles
  {
  }

  lemma ScopeMore(hs: seq<Handle>, h: Handle, handles: set<Handle>)
    requires InScope(hs, handles) && h !in handles
    ensures InScope(hs + [h], handles + {h})
  {
  }

  lemma ScopeLeft(hs: seq<Handle>, i: nat, handles: set<Handle>)
    requires InScope(hs, handles) && i < |hs|
    ensures InScope(hs[..i] + hs[i + 1..], handles - {hs[i]})
  {
    var rest := hs[..i] + hs[i + 1..];
    forall h | h in handles - {hs[i]}
      ensures h in rest
    {
      var j :| 0 <= j < |hs| && hs[j] == h;
      assert rest[if j < i then j else j - 1] == h;
    }
  }

  /** CONSERVATION. After any sequence of operations every live counter equals the number of handles that share it,
      pointers and counters are null together, and each object is either guarded by one counter or has been deleted
      once; when no handle is left, every object that was handed over has been deleted, once. */
  method Play(ops: seq<Op>) returns (m: Memory, hs: seq<Handle>)
    requires Legal(ops, 0, {})
    ensures Inv(m.View()) && InScope(hs, m.handles) && m.given == AllHanded(ops)
    ensures hs == [] ==>
      && (forall p :: p in AllHanded(ops) <==> p in m.deleted)
      && forall i, j :: 0 <= i < j < |m.deleted| ==> m.deleted[i] != m.deleted[j]
  {
    hide Inv;
    m := new Memory();
    hs := [];
    assert ops[0..] == ops;
    for k := 0 to |ops|
      invariant fresh(m) && fresh(m.handles) && fresh(m.owner.Keys)
      invariant Inv(m.View()) && InScope(hs, m.handles) && Legal(ops[k..], |hs|, m.given)
      invariant m.given + AllHanded(ops[k..]) == AllHanded(ops)
    {
      assert ops[k..][1..] == ops[k + 1..];
      hs := Execute(ops[k], hs, m);
    }
    if hs == [] {
      assert m.View().links == map[];
      AllDeleted(m.View());
    }
  }
}
