/** Which items of a tree a merged stack shows, where, and with what values. */
module StackPlaces {
  import opened Basics
  import opened MapSum
  import opened BuildStack

  /** The values of a core, the number that thresholds are relative to, and whether everything is to be shown. */
  datatype Input = Input(values: map<Key, real>, scale: real, nocollapse: bool)

  // ----- places

  /** A place below an item: which of its items, which of that one's items, and so on. */
  type Place = seq<nat>

  ghost predicate Leads(item: Item, p: Place)
    decreases |p|
  {
    p != [] ==> item.Group? && p[0] < |item.items| && Leads(item.items[p[0]], p[1..])
  }

  ghost function Below(item: Item, p: Place): Item
    requires Leads(item, p)
    decreases |p|
  {
    if p == [] then item else Below(item.items[p[0]], p[1..])
  }

  /** The keys that the item names before it comes to a place. */
  ghost function Earlier(item: Item, p: Place): set<Key>
    requires Leads(item, p)
    decreases |p|
  {
    if p == [] then {} else KeysOf(item.items, p[0]) + Earlier(item.items[p[0]], p[1..])
  }

  ghost function TitleAt(prefix: string, item: Item, p: Place): string
    requires Leads(item, p)
    decreases |p|
  {
    if p == [] then prefix + item.name else TitleAt(prefix + item.name + "-", item.items[p[0]], p[1..])
  }

  /** The order in which the tree is written down. */
  predicate Precedes(p: Place, q: Place)
    decreases |p|
  {
    p != [] && q != [] && (p[0] < q[0] || (p[0] == q[0] && Precedes(p[1..], q[1..])))
  }

  // ----- what is shown

  /** The keys of an item that were not named before, and the sum of their values. */
  ghost function Own(item: Item, before: set<Key>): set<Key> {
    KeysIn(item) - before
  }

  ghost function Amount(c: Input, item: Item, before: set<Key>): real {
    Sum(On(c.values, Own(item, before)))
  }

  ghost predicate Large(c: Input, item: Item, before: set<Key>)
    requires c.scale != 0.0
  {
    Amount(c, item, before) / c.scale > item.threshold || c.nocollapse
  }

  /** Every item on the way to the place, and the one there, is large. */
  ghost predicate Open(c: Input, item: Item, p: Place, before: set<Key>)
    requires c.scale != 0.0 && Leads(item, p)
    decreases |p|
  {
    Large(c, item, before) && (p != [] ==> Open(c, item.items[p[0]], p[1..], before + KeysOf(item.items, p[0])))
  }

  /** The item is a leaf, or a group without a large item, which is shown as one. */
  ghost predicate Ends(c: Input, item: Item, before: set<Key>)
    requires c.scale != 0.0
  {
    item.Leaf? || (!c.nocollapse && !HasLarge(c, item, before))
  }

  ghost predicate HasLarge(c: Input, item: Item, before: set<Key>)
    requires c.scale != 0.0 && item.Group?
  {
    exists j :: 0 <= j < |item.items| && Large(c, item.items[j], before + KeysOf(item.items, j))
  }

  /** There is an entry for the item at this place. */
  ghost predicate Shown(c: Input, item: Item, p: Place, before: set<Key>)
    requires c.scale != 0.0
  {
    Leads(item, p) && Open(c, item, p, before) && Ends(c, Below(item, p), before + Earlier(item, p))
  }

  ghost function EntryAt(c: Input, prefix: string, item: Item, p: Place, before: set<Key>): Entry
    requires Leads(item, p)
  {
    (TitleAt(prefix, item, p), Amount(c, Below(item, p), before + Earlier(item, p)))
  }

  ghost predicate Ordered(ps: seq<Place>) {
    forall k, l :: 0 <= k < l < |ps| ==> Precedes(ps[k], ps[l])
  }

  /** The entry is that of a place that is shown. */
  ghost predicate Pictured(c: Input, prefix: string, item: Item, p: Place, before: set<Key>, e: Entry)
    requires c.scale != 0.0
  {
    Shown(c, item, p, before) && e == EntryAt(c, prefix, item, p, before)
  }

  /** The entries are those of the places shown below the item, in order. */
  ghost predicate Pictures(c: Input, prefix: string, item: Item, before: set<Key>, ps: seq<Place>, res: seq<Entry>)
    requires c.scale != 0.0
  {
    && |ps| == |res| && Ordered(ps)
    && (forall k :: 0 <= k < |ps| ==> Pictured(c, prefix, item, ps[k], before, res[k]))
    && forall p :: Shown(c, item, p, before) ==> p in ps
  }

  /** The same for a place in a list of items: the first number is that of the item. */
  ghost predicate ShownOf(c: Input, items: seq<Item>, p: Place, before: set<Key>)
    requires c.scale != 0.0
  {
    p != [] && p[0] < |items| && Shown(c, items[p[0]], p[1..], before + KeysOf(items, p[0]))
  }

  ghost predicate PicturedOf(c: Input, prefix: string, items: seq<Item>, p: Place, before: set<Key>, e: Entry)
    requires c.scale != 0.0
  {
    p != [] && p[0] < |items| && Pictured(c, prefix, items[p[0]], p[1..], before + KeysOf(items, p[0]), e)
  }

  ghost predicate PicturesOf(c: Input, prefix: string, items: seq<Item>, n: nat, before: set<Key>, ps: seq<Place>,
                             res: seq<Entry>)
    requires c.scale != 0.0
  {
    && |ps| == |res| && Ordered(ps)
    && (forall k :: 0 <= k < |ps| ==>
         PicturedOf(c, prefix, items, ps[k], before, res[k]) && ps[k] != [] && ps[k][0] < n)
    && forall p :: p != [] && ShownOf(c, items, p, before) && p[0] < n ==> p in ps
  }

  // ----- the walk shows just these

  lemma AmountIs(c: Input, item: Item, before: set<Key>)
    ensures Amount(c, item, before) == Sum(c.values - before) - Sum(c.values - before - KeysIn(item))
  {
    hide Sum, KeysIn;
    SumSplit(c.values - before, KeysIn(item));
    assert On(c.values - before, KeysIn(item)) == On(c.values, KeysIn(item) - before);
  }

  /** What an item adds to the entries, when it finds the values that are left. */
  ghost function Added(c: Input, prefix: string, item: Item, before: set<Key>): Merged
    requires c.scale != 0.0
  {
    Join(Merged([], 0.0, 0.0, c.values - before), prefix, item, c.scale, c.nocollapse)
  }

  lemma JoinAdds(c: Input, m: Merged, prefix: string, item: Item, before: set<Key>)
    requires c.scale != 0.0 && m.rest == c.values - before
    ensures Join(m, prefix, item, c.scale, c.nocollapse).res == m.res + Added(c, prefix, item, before).res
  {
    hide Walk, TakeKeys;
  }

  lemma LeafAdds(c: Input, prefix: string, item: Item, before: set<Key>)
    requires c.scale != 0.0 && item.Leaf?
    ensures Added(c, prefix, item, before).res ==
      if Large(c, item, before) then [(prefix + item.name, Amount(c, item, before))] else []
  {
    hide Sum, TakeKeys;
    TakeKeysConserves(item.keys, c.values - before, 0.0);
    AmountIs(c, item, before);
    hide Amount;
  }

  lemma GroupAdds(c: Input, prefix: string, item: Item, before: set<Key>)
    requires c.scale != 0.0 && item.Group?
    ensures var res := Walk(prefix + item.name + "-", item.items, |item.items|, c.values - before, c.scale,
                            c.nocollapse).res;
            Added(c, prefix, item, before).res ==
              if !Large(c, item, before) then []
              else if res == [] && !c.nocollapse then [(prefix + item.name, Amount(c, item, before))]
              else res
  {
    hide Sum, Walk, KeysOf;
    WalkConserves(prefix + item.name + "-", item.items, |item.items|, c.values - before, c.scale, c.nocollapse);
    AmountIs(c, item, before);
    hide Amount;
  }

  lemma LeafPictures(c: Input, prefix: string, item: Item, before: set<Key>) returns (ps: seq<Place>)
    requires c.scale != 0.0 && item.Leaf?
    ensures Pictures(c, prefix, item, before, ps, Added(c, prefix, item, before).res)
  {
    hide Added, Amount;
    LeafAdds(c, prefix, item, before);
    ps := if Large(c, item, before) then [[]] else [];
    assert forall p: Place :: Leads(item, p) ==> p == [];
    assert before + {} == before;
  }

  /** A large item shows something. */
  lemma {:induction false} LargeShows(c: Input, item: Item, before: set<Key>) returns (p: Place)
    requires c.scale != 0.0 && Large(c, item, before) && !c.nocollapse
    ensures Shown(c, item, p, before)
    decreases item
  {
    hide Large, KeysOf;
    if item.Group? && HasLarge(c, item, before) {
      var j :| 0 <= j < |item.items| && Large(c, item.items[j], before + KeysOf(item.items, j));
      var q := LargeShows(c, item.items[j], before + KeysOf(item.items, j));
      p := [j] + q;
      ShownBelow(c, item, p, before);
    } else {
      p := [];
      assert before + {} == before;
    }
  }

  lemma ShownBelow(c: Input, item: Item, p: Place, before: set<Key>)
    requires c.scale != 0.0 && item.Group? && p != []
    ensures Shown(c, item, p, before) <==> Large(c, item, before) && ShownOf(c, item.items, p, before)
  {
    hide Large, KeysOf, Ends;
    if p[0] < |item.items| && Leads(item.items[p[0]], p[1..]) {
      var named, rest := KeysOf(item.items, p[0]), Earlier(item.items[p[0]], p[1..]);
      assert before + named + rest == before + (named + rest);
    }
  }

  lemma EntryBelow(c: Input, prefix: string, item: Item, p: Place, before: set<Key>)
    requires item.Group? && p != [] && Leads(item, p)
    ensures EntryAt(c, prefix, item, p, before) ==
      EntryAt(c, prefix + item.name + "-", item.items[p[0]], p[1..], before + KeysOf(item.items, p[0]))
  {
    hide KeysOf, Amount;
    var named, rest := KeysOf(item.items, p[0]), Earlier(item.items[p[0]], p[1..]);
    assert before + named + rest == before + (named + rest);
  }

  /** A group that is open shows what its items show. */
  lemma OpenGroup(c: Input, prefix: string, item: Item, before: set<Key>, ps: seq<Place>, res: seq<Entry>)
    requires c.scale != 0.0 && item.Group? && Large(c, item, before) && (res != [] || c.nocollapse)
    requires PicturesOf(c, prefix + item.name + "-", item.items, |item.items|, before, ps, res)
    ensures Pictures(c, prefix, item, before, ps, res)
  {
    hide Large, KeysOf, ShownOf, Shown, EntryAt, Ordered, Pictured, PicturedOf;
    forall k | 0 <= k < |ps|
      ensures Pictured(c, prefix, item, ps[k], before, res[k])
    {
      PicturedBelow(c, prefix, item, ps[k], before, res[k]);
    }
    forall p | Shown(c, item, p, before)
      ensures p in ps
    {
      if p == [] {
        if res != [] {
          FirstLarge(c, prefix + item.name + "-", item.items, ps[0], before, res[0]);
        }
        NotEnd(c, item, before);
        assert false;
      } else {
        ShownBelow(c, item, p, before);
        PlaceOf(c, item.items, p, before);
      }
    }
  }

  lemma PlaceOf(c: Input, items: seq<Item>, p: Place, before: set<Key>)
    requires c.scale != 0.0 && ShownOf(c, items, p, before)
    ensures p != [] && p[0] < |items|
  {
  }

  lemma PicturedBelow(c: Input, prefix: string, item: Item, p: Place, before: set<Key>, e: Entry)
    requires c.scale != 0.0 && item.Group? && Large(c, item, before)
    requires PicturedOf(c, prefix + item.name + "-", item.items, p, before, e)
    ensures Pictured(c, prefix, item, p, before, e)
  {
    hide Large, KeysOf, Ends, Amount;
    ShownBelow(c, item, p, before);
    EntryBelow(c, prefix, item, p, before);
  }

  lemma FirstLarge(c: Input, prefix: string, items: seq<Item>, p: Place, before: set<Key>, e: Entry)
    requires c.scale != 0.0 && PicturedOf(c, prefix, items, p, before, e)
    ensures p != [] && p[0] < |items| && Large(c, items[p[0]], before + KeysOf(items, p[0]))
  {
    hide Large, KeysOf, EntryAt;
  }

  lemma NotEnd(c: Input, item: Item, before: set<Key>)
    requires c.scale != 0.0 && item.Group? && (c.nocollapse || HasLarge(c, item, before))
    ensures !Shown(c, item, [], before)
  {
    hide Large, KeysOf, HasLarge;
    assert before + {} == before;
  }

  /** A group of which nothing else is shown is shown as one. */
  lemma CollapsedGroup(c: Input, prefix: string, item: Item, before: set<Key>, ps: seq<Place>)
    requires c.scale != 0.0 && item.Group? && Large(c, item, before) && !c.nocollapse
    requires PicturesOf(c, prefix + item.name + "-", item.items, |item.items|, before, ps, [])
    ensures Pictures(c, prefix, item, before, [[]], [(prefix + item.name, Amount(c, item, before))])
  {
    hide Large, KeysOf, ShownOf, Amount;
    assert before + {} == before;
    forall j | 0 <= j < |item.items|
      ensures !Large(c, item.items[j], before + KeysOf(item.items, j))
    {
      if Large(c, item.items[j], before + KeysOf(item.items, j)) {
        var q := LargeShows(c, item.items[j], before + KeysOf(item.items, j));
        IsShownOf(c, item.items, j, q, before);
      }
    }
    forall p | Shown(c, item, p, before)
      ensures p == []
    {
      if p != [] {
        ShownBelow(c, item, p, before);
        PlaceOf(c, item.items, p, before);
      }
    }
  }

  lemma IsShownOf(c: Input, items: seq<Item>, j: nat, q: Place, before: set<Key>)
    requires c.scale != 0.0 && j < |items| && Shown(c, items[j], q, before + KeysOf(items, j))
    ensures ShownOf(c, items, [j] + q, before)
  {
    assert ([j] + q)[1..] == q;
  }

  lemma {:induction false} ItemPictures(c: Input, prefix: string, item: Item, before: set<Key>) returns (ps: seq<Place>)
    requires c.scale != 0.0
    ensures Pictures(c, prefix, item, before, ps, Added(c, prefix, item, before).res)
    decreases item, 1
  {
    hide Added, Large, Amount, PicturesOf, Pictures;
    if item.Leaf? {
      ps := LeafPictures(c, prefix, item, before);
    } else {
      GroupAdds(c, prefix, item, before);
      var inner := WalkPictures(c, prefix + item.name + "-", item.items, |item.items|, before);
      var res := Walk(prefix + item.name + "-", item.items, |item.items|, c.values - before, c.scale, c.nocollapse).res;
      if !Large(c, item, before) {
        ps := [];
        NothingShown(c, prefix, item, before);
      } else if res == [] && !c.nocollapse {
        ps := [[]];
        CollapsedGroup(c, prefix, item, before, inner);
      } else {
        ps := inner;
        OpenGroup(c, prefix, item, before, inner, res);
      }
    }
  }

  lemma NothingShown(c: Input, prefix: string, item: Item, before: set<Key>)
    requires c.scale != 0.0 && !Large(c, item, before)
    ensures Pictures(c, prefix, item, before, [], [])
  {
    hide Large;
  }

  /** The entries of the walk over the first `n` items. */
  lemma {:induction false} WalkPictures(c: Input, prefix: string, items: seq<Item>, n: nat, before: set<Key>)
    returns (ps: seq<Place>)
    requires c.scale != 0.0 && n <= |items|
    ensures PicturesOf(c, prefix, items, n, before, ps,
                       Walk(prefix, items, n, c.values - before, c.scale, c.nocollapse).res)
    decreases items, 0, n
  {
    hide Added, Join, PicturesOf, Pictures;
    if n == 0 {
      ps := [];
      NoPictures(c, prefix, items, before);
    } else {
      var i := n - 1;
      var m := Walk(prefix, items, i, c.values - before, c.scale, c.nocollapse);
      var first := WalkPictures(c, prefix, items, i, before);
      var named := before + KeysOf(items, i);
      WalkConserves(prefix, items, i, c.values - before, c.scale, c.nocollapse);
      assert c.values - before - KeysOf(items, i) == c.values - named;
      JoinAdds(c, m, prefix, items[i], named);
      var more := ItemPictures(c, prefix, items[i], named);
      ps := first + Under(i, more);
      MorePictures(c, prefix, items, i, before, first, m.res, more, Added(c, prefix, items[i], named).res);
    }
  }

  lemma NoPictures(c: Input, prefix: string, items: seq<Item>, before: set<Key>)
    requires c.scale != 0.0
    ensures PicturesOf(c, prefix, items, 0, before, [], [])
  {
  }

  ghost function Under(i: nat, ps: seq<Place>): (r: seq<Place>)
    ensures |r| == |ps| && forall k :: 0 <= k < |ps| ==> r[k] == [i] + ps[k] && r[k][0] == i && r[k][1..] == ps[k]
  {
    seq(|ps|, k requires 0 <= k < |ps| => [i] + ps[k])
  }

  lemma MorePictures(c: Input, prefix: string, items: seq<Item>, i: nat, before: set<Key>, ps: seq<Place>,
                     res: seq<Entry>, qs: seq<Place>, more: seq<Entry>)
    requires c.scale != 0.0 && i < |items| && PicturesOf(c, prefix, items, i, before, ps, res)
    requires Pictures(c, prefix, items[i], before + KeysOf(items, i), qs, more)
    ensures PicturesOf(c, prefix, items, i + 1, before, ps + Under(i, qs), res + more)
  {
    hide Shown, ShownOf, KeysOf, Pictured, PicturedOf, Under, Ordered;
    var all := ps + Under(i, qs);
    UnderOrdered(ps, i, qs);
    forall p | p != [] && ShownOf(c, items, p, before) && p[0] < i + 1
      ensures p in all
    {
      if p[0] == i {
        IsUnder(c, items, p, before, qs);
      }
    }
    forall k | 0 <= k < |all|
      ensures PicturedOf(c, prefix, items, all[k], before, (res + more)[k])
    {
      if k >= |ps| {
        var q := qs[k - |ps|];
        assert Pictured(c, prefix, items[i], q, before + KeysOf(items, i), more[k - |ps|]);
        PicturedUnder(c, prefix, items, i, q, before, more[k - |ps|]);
      }
    }
  }

  lemma IsUnder(c: Input, items: seq<Item>, p: Place, before: set<Key>, qs: seq<Place>)
    requires c.scale != 0.0 && ShownOf(c, items, p, before)
    requires forall q :: Shown(c, items[p[0]], q, before + KeysOf(items, p[0])) ==> q in qs
    ensures p in Under(p[0], qs)
  {
    hide Shown, KeysOf, Under;
    var k :| 0 <= k < |qs| && qs[k] == p[1..];
    assert p == [p[0]] + qs[k] == Under(p[0], qs)[k];
  }

  lemma PicturedUnder(c: Input, prefix: string, items: seq<Item>, i: nat, q: Place, before: set<Key>, e: Entry)
    requires c.scale != 0.0 && i < |items| && Pictured(c, prefix, items[i], q, before + KeysOf(items, i), e)
    ensures PicturedOf(c, prefix, items, [i] + q, before, e)
  {
    hide Pictured, KeysOf;
    assert ([i] + q)[1..] == q;
  }

  lemma UnderOrdered(ps: seq<Place>, i: nat, qs: seq<Place>)
    requires Ordered(ps) && Ordered(qs) && forall k :: 0 <= k < |ps| ==> ps[k] != [] && ps[k][0] < i
    ensures Ordered(ps + Under(i, qs))
  {
    hide Under;
    var all := ps + Under(i, qs);
    forall k, l | 0 <= k < l < |all|
      ensures Precedes(all[k], all[l])
    {
      if l < |ps| {
        assert all[k] == ps[k] && all[l] == ps[l];
      } else if k >= |ps| {
        assert Precedes(qs[k - |ps|], qs[l - |ps|]);
      }
    }
  }

  // ----- everything else

  /** The keys that some entry of an item accounts for. */
  ghost predicate Counted(c: Input, item: Item, before: set<Key>, k: Key)
    requires c.scale != 0.0
  {
    exists p :: Shown(c, item, p, before) && k in Own(Below(item, p), before + Earlier(item, p))
  }

  ghost predicate CountedOf(c: Input, items: seq<Item>, n: nat, before: set<Key>, k: Key)
    requires c.scale != 0.0 && n <= |items|
  {
    exists i :: 0 <= i < n && Counted(c, items[i], before + KeysOf(items, i), k)
  }

  ghost function CountedKeys(c: Input, item: Item, before: set<Key>): set<Key>
    requires c.scale != 0.0
  {
    set k | k in c.values && Counted(c, item, before, k)
  }

  ghost function CountedKeysOf(c: Input, items: seq<Item>, n: nat, before: set<Key>): set<Key>
    requires c.scale != 0.0 && n <= |items|
  {
    set k | k in c.values && CountedOf(c, items, n, before, k)
  }

  lemma {:induction false} OwnBelow(item: Item, p: Place, before: set<Key>, k: Key)
    requires Leads(item, p) && k in Own(Below(item, p), before + Earlier(item, p))
    ensures k in Own(item, before)
    decreases |p|
  {
    if p != [] {
      var named := KeysOf(item.items, p[0]);
      assert before + (named + Earlier(item.items[p[0]], p[1..])) ==
        (before + named) + Earlier(item.items[p[0]], p[1..]);
      OwnBelow(item.items[p[0]], p[1..], before + named, k);
      KeysOfItem(item.items, p[0], |item.items|);
    }
  }

  lemma {:induction false} KeysOfItem(items: seq<Item>, i: nat, n: nat)
    requires i < n <= |items|
    ensures KeysIn(items[i]) <= KeysOf(items, n) && KeysOf(items, i) <= KeysOf(items, n)
  {
    if i + 1 < n {
      KeysOfItem(items, i, n - 1);
    }
  }

  lemma CountedAreOwn(c: Input, item: Item, before: set<Key>)
    requires c.scale != 0.0
    ensures CountedKeys(c, item, before) <= Own(item, before)
  {
    forall k | k in CountedKeys(c, item, before)
      ensures k in Own(item, before)
    {
      var p :| Shown(c, item, p, before) && k in Own(Below(item, p), before + Earlier(item, p));
      OwnBelow(item, p, before, k);
    }
  }

  lemma CountedMore(c: Input, items: seq<Item>, n: nat, before: set<Key>)
    requires c.scale != 0.0 && n < |items|
    ensures CountedKeysOf(c, items, n + 1, before) ==
      CountedKeysOf(c, items, n, before) + CountedKeys(c, items[n], before + KeysOf(items, n))
    ensures CountedKeysOf(c, items, n, before) !! CountedKeys(c, items[n], before + KeysOf(items, n))
  {
    hide Counted, KeysOf, KeysIn;
    CountedAreOwn(c, items[n], before + KeysOf(items, n));
    forall k | k in CountedKeysOf(c, items, n, before)
      ensures k in KeysOf(items, n)
    {
      var i :| 0 <= i < n && Counted(c, items[i], before + KeysOf(items, i), k);
      CountedAreOwn(c, items[i], before + KeysOf(items, i));
      assert k in CountedKeys(c, items[i], before + KeysOf(items, i));
      KeysOfItem(items, i, n);
    }
  }

  /** The entries of an item sum to the values of the keys they account for. */
  lemma {:induction false} ItemSum(c: Input, prefix: string, item: Item, before: set<Key>)
    requires c.scale != 0.0
    ensures SumEntries(Added(c, prefix, item, before).res) == Sum(On(c.values, CountedKeys(c, item, before)))
    decreases item, 1
  {
    hide Added, SumEntries, Sum, Large;
    var ps := ItemPictures(c, prefix, item, before);
    hide Pictures;
    SumEntriesOne((prefix + item.name, Amount(c, item, before)));
    NoEntries();
    NoValues();
    if item.Leaf? {
      LeafAdds(c, prefix, item, before);
      WholeOrNothing(c, prefix, item, before);
    } else {
      GroupAdds(c, prefix, item, before);
      var below := prefix + item.name + "-";
      var res := Walk(below, item.items, |item.items|, c.values - before, c.scale, c.nocollapse).res;
      if Large(c, item, before) && (res != [] || c.nocollapse) {
        var qs := WalkPictures(c, below, item.items, |item.items|, before);
        WalkSum(c, below, item.items, |item.items|, before);
        CountedBelow(c, below, item, before, qs, res);
      } else {
        var qs := WalkPictures(c, below, item.items, |item.items|, before);
        if Large(c, item, before) {
          CollapsedGroup(c, prefix, item, before, qs);
        }
        WholeOrNothing(c, prefix, item, before);
      }
    }
  }

  lemma NoEntries()
    ensures SumEntries([]) == 0.0
  {
  }

  /** An item without large items below accounts for all its keys or for none. */
  lemma WholeOrNothing(c: Input, prefix: string, item: Item, before: set<Key>)
    requires c.scale != 0.0
    requires Large(c, item, before) && item.Group? ==>
      Pictures(c, prefix, item, before, [[]], [(prefix + item.name, Amount(c, item, before))])
    ensures On(c.values, CountedKeys(c, item, before)) ==
      if Large(c, item, before) then On(c.values, Own(item, before)) else map[]
  {
    hide Large, Own;
    assert before + {} == before;
    if Large(c, item, before) {
      assert forall p: Place :: Shown(c, item, p, before) ==> p == [];
      assert item.Leaf? ==> Shown(c, item, [], before);
      assert item.Group? ==> Pictured(c, prefix, item, [[]][0], before, (prefix + item.name, Amount(c, item, before)));
      assert Shown(c, item, [], before);
    }
  }

  lemma CountedBelow(c: Input, prefix: string, item: Item, before: set<Key>, ps: seq<Place>, res: seq<Entry>)
    requires c.scale != 0.0 && item.Group? && Large(c, item, before) && (res != [] || c.nocollapse)
    requires PicturesOf(c, prefix, item.items, |item.items|, before, ps, res)
    ensures CountedKeys(c, item, before) == CountedKeysOf(c, item.items, |item.items|, before)
  {
    hide Large, KeysOf, Own, Pictured, Ordered;
    if res != [] {
      FirstLarge(c, prefix, item.items, ps[0], before, res[0]);
    }
    NotEnd(c, item, before);
    forall k | k in c.values
      ensures Counted(c, item, before, k) <==> CountedOf(c, item.items, |item.items|, before, k)
    {
      CountedKeyBelow(c, item, before, k);
    }
  }

  lemma CountedKeyBelow(c: Input, item: Item, before: set<Key>, k: Key)
    requires c.scale != 0.0 && item.Group? && Large(c, item, before) && !Shown(c, item, [], before)
    ensures Counted(c, item, before, k) <==> CountedOf(c, item.items, |item.items|, before, k)
  {
    hide Large, KeysOf, Own, Open, Ends;
    if Counted(c, item, before, k) {
      var p :| Shown(c, item, p, before) && k in Own(Below(item, p), before + Earlier(item, p));
      ShownBelow(c, item, p, before);
      OwnPlace(c, item, p, before);
      assert Counted(c, item.items[p[0]], before + KeysOf(item.items, p[0]), k);
    }
    if CountedOf(c, item.items, |item.items|, before, k) {
      var i :| 0 <= i < |item.items| && Counted(c, item.items[i], before + KeysOf(item.items, i), k);
      var named := before + KeysOf(item.items, i);
      var x := item.items[i];
      var q :| Shown(c, x, q, named) && k in Own(Below(x, q), named + Earlier(x, q));
      var p := [i] + q;
      IsShownOf(c, item.items, i, q, before);
      ShownBelow(c, item, p, before);
      OwnPlace(c, item, p, before);
      assert p[1..] == q;
    }
  }

  lemma OwnPlace(c: Input, item: Item, p: Place, before: set<Key>)
    requires c.scale != 0.0 && item.Group? && p != [] && Shown(c, item, p, before)
    ensures p[0] < |item.items| && Leads(item.items[p[0]], p[1..])
    ensures Shown(c, item.items[p[0]], p[1..], before + KeysOf(item.items, p[0]))
    ensures Own(Below(item, p), before + Earlier(item, p)) ==
      Own(Below(item.items[p[0]], p[1..]), before + KeysOf(item.items, p[0]) + Earlier(item.items[p[0]], p[1..]))
  {
    hide Large, KeysOf, Own;
    ShownBelow(c, item, p, before);
    var named, rest := KeysOf(item.items, p[0]), Earlier(item.items[p[0]], p[1..]);
    assert before + named + rest == before + (named + rest);
  }

  lemma {:induction false} WalkSum(c: Input, prefix: string, items: seq<Item>, n: nat, before: set<Key>)
    requires c.scale != 0.0 && n <= |items|
    ensures SumEntries(Walk(prefix, items, n, c.values - before, c.scale, c.nocollapse).res) ==
      Sum(On(c.values, CountedKeysOf(c, items, n, before)))
    decreases items, 0, n
  {
    hide Sum, Join, Added, KeysOf;
    if n == 0 {
      NoEntries();
      NoValues();
      assert On(c.values, CountedKeysOf(c, items, n, before)) == map[];
    } else {
      hide SumEntries, CountedKeys, CountedKeysOf;
      var i := n - 1;
      var m := Walk(prefix, items, i, c.values - before, c.scale, c.nocollapse);
      var named := before + KeysOf(items, i);
      WalkSum(c, prefix, items, i, before);
      WalkConserves(prefix, items, i, c.values - before, c.scale, c.nocollapse);
      assert c.values - before - KeysOf(items, i) == c.values - named;
      JoinAdds(c, m, prefix, items[i], named);
      ItemSum(c, prefix, items[i], named);
      SumEntriesConcat(m.res, Added(c, prefix, items[i], named).res);
      CountedMore(c, items, i, before);
      SumApart(c.values, CountedKeysOf(c, items, i, before), CountedKeys(c, items[i], named));
    }
  }

  // ----- a whole stack

  /** THE STACK. For every tree, all values and thresholds, the entries of a stack are exactly those of the items that
      are shown, in the order of the tree: of each leaf that is large, and of each group that is large but has no large
      item, if every group above it is large too. An entry has the sum of the values of its item's keys that no item
      before it named, and `other` the sum of all values that no entry has. */
  lemma StackShows(items: seq<Item>, values: map<Key, real>, nocollapse: bool) returns (ps: seq<Place>)
    ensures var c := Input(values, if Sum(values) == 0.0 then 1.0 else Sum(values), nocollapse);
            var other := Sum(values - CountedKeysOf(c, items, |items|, {}));
            var res := Stack(items, values, nocollapse);
            if other == 0.0 then PicturesOf(c, "", items, |items|, {}, ps, res)
            else
              && |res| > 0 && res[|res| - 1] == ("other", other)
              && PicturesOf(c, "", items, |items|, {}, ps, res[..|res| - 1])
  {
    hide Walk, Sum, PicturesOf, CountedKeysOf, SumEntries, KeysOf;
    var c := Input(values, Scale(values), nocollapse);
    assert values - {} == values;
    ps := WalkPictures(c, "", items, |items|, {});
    WalkSum(c, "", items, |items|, {});
    WalkConserves("", items, |items|, values, c.scale, nocollapse);
    SumSplit(values, CountedKeysOf(c, items, |items|, {}));
  }

  /** `merge_items` for one core. */
  method MergeValues(values: map<Key, real>, items: seq<Item>, nocollapse: bool)
    returns (res: seq<Entry>, total: real, other: real, scale: real)
    ensures res == Stack(items, values, nocollapse) && SumEntries(res) == Sum(values)
    ensures scale == (if Sum(values) == 0.0 then 1.0 else Sum(values))
    ensures other == Sum(values - CountedKeysOf(Input(values, scale, nocollapse), items, |items|, {}))
    ensures total == Sum(values) - Sum(values - KeysOf(items, |items|))
  {
    hide Walk, KeysOf, CountedKeysOf, SumEntries, Sum;
    var sum := SumValues(values);
    scale := if sum == 0.0 then 1.0 else sum;
    var left := new Values(values);
    res, total, other := left.GetItems("", items, scale, nocollapse);
    WalkConserves("", items, |items|, values, scale, nocollapse);
    StackConserves(items, values, nocollapse);
    ghost var c := Input(values, scale, nocollapse);
    assert values - {} == values;
    WalkSum(c, "", items, |items|, {});
    SumSplit(values, CountedKeysOf(c, items, |items|, {}));
    var unknown := SumValues(left.values);
    other := other + unknown;
    if other != 0.0 {
      res := res + [("other", other)];
    }
  }
}
