/** `merge_items`: values are summed into the items of a tree, small ones into `other`, and none is lost. */
module BuildStack {
  import opened Basics
  import opened MapSum

  /** A named contributor: some keys, or a list of contributors. */
  datatype Item =
    | Leaf(name: string, threshold: real, keys: seq<Key>)
    | Group(name: string, threshold: real, items: seq<Item>)

  type Entry = (string, real)

  /** What walking a list of items gives: the entries, the total, what was too small to show, and the values left. */
  datatype Merged = Merged(res: seq<Entry>, total: real, other: real, rest: map<Key, real>)

  function SumEntries(res: seq<Entry>): real {
    if res == [] then 0.0 else res[0].1 + SumEntries(res[1..])
  }

  /** Takes the values of some keys, each once. */
  function TakeKeys(keys: seq<Key>, values: map<Key, real>, sum: real): (real, map<Key, real>) {
    if keys == [] then (sum, values)
    else if keys[0] in values then TakeKeys(keys[1..], values - {keys[0]}, sum + values[keys[0]])
    else TakeKeys(keys[1..], values, sum)
  }

  /** How a sub-stack joins the stack: below the threshold as other, as one entry, or entry by entry. */
  function JoinGroup(m: Merged, title: string, threshold: real, sub: Merged, scale: real, nocollapse: bool): Merged
    requires scale != 0.0
  {
    var total := m.total + sub.total;
    if sub.total / scale <= threshold && !nocollapse then Merged(m.res, total, m.other + sub.total, sub.rest)
    else if sub.res == [] && !nocollapse then Merged(m.res + [(title, sub.total)], total, m.other, sub.rest)
    else Merged(m.res + sub.res, total, m.other + sub.other, sub.rest)
  }

  function JoinLeaf(m: Merged, title: string, threshold: real, value: real, rest: map<Key, real>, scale: real,
                    nocollapse: bool): Merged
    requires scale != 0.0
  {
    var total := m.total + value;
    if value / scale <= threshold && !nocollapse then Merged(m.res, total, m.other + value, rest)
    else Merged(m.res + [(title, value)], total, m.other, rest)
  }

  function Join(m: Merged, prefix: string, item: Item, scale: real, nocollapse: bool): Merged
    requires scale != 0.0
    decreases item, 1
  {
    match item
    case Leaf(name, threshold, keys) =>
      var (value, rest) := TakeKeys(keys, m.rest, 0.0);
      JoinLeaf(m, prefix + name, threshold, value, rest, scale, nocollapse)
    case Group(name, threshold, items) =>
      var sub := Walk(prefix + name + "-", items, |items|, m.rest, scale, nocollapse);
      JoinGroup(m, prefix + name, threshold, sub, scale, nocollapse)
  }

  /** `get_items` on the first `n` items. */
  function Walk(prefix: string, items: seq<Item>, n: nat, values: map<Key, real>, scale: real, nocollapse: bool): Merged
    requires scale != 0.0 && n <= |items|
    decreases items, 0, n
  {
    if n == 0 then Merged([], 0.0, 0.0, values)
    else Join(Walk(prefix, items, n - 1, values, scale, nocollapse), prefix, items[n - 1], scale, nocollapse)
  }

  // ----- nothing is lost

  function KeysIn(item: Item): set<Key>
    decreases item, 1
  {
    match item
    case Leaf(_, _, keys) => set k | k in keys
    case Group(_, _, items) => KeysOf(items, |items|)
  }

  /** The keys that the first `n` items name. */
  function KeysOf(items: seq<Item>, n: nat): set<Key>
    requires n <= |items|
    decreases items, 0, n
  {
    if n == 0 then {} else KeysOf(items, n - 1) + KeysIn(items[n - 1])
  }

  lemma {:induction false} SumEntriesConcat(a: seq<Entry>, b: seq<Entry>)
    ensures SumEntries(a + b) == SumEntries(a) + SumEntries(b)
  {
    if a == [] {
      assert a + b == b;
    } else {
      assert (a + b)[1..] == a[1..] + b;
      SumEntriesConcat(a[1..], b);
    }
  }

  lemma SumEntriesOne(e: Entry)
    ensures SumEntries([e]) == e.1
  {
    assert [e][1..] == [];
  }

  lemma {:induction false} TakeKeysConserves(keys: seq<Key>, values: map<Key, real>, sum: real)
    ensures var (value, rest) := TakeKeys(keys, values, sum);
            rest == values - (set k | k in keys) && value - sum == Sum(values) - Sum(rest)
  {
    if keys != [] {
      var k := keys[0];
      var left := values - {k};
      SumWithout(values, k);
      if k in values {
        TakeKeysConserves(keys[1..], left, sum + values[k]);
      } else {
        assert left == values;
        TakeKeysConserves(keys[1..], values, sum);
      }
      assert left - (set j | j in keys[1..]) == values - (set j | j in keys);
    }
  }

  /** Entries and other sum to the total, the total is what the values lost, and they lost the keys named. */
  ghost predicate Conserves(m: Merged, values: map<Key, real>, keys: set<Key>) {
    SumEntries(m.res) + m.other == m.total && m.total == Sum(values) - Sum(m.rest) && m.rest == values - keys
  }

  lemma {:induction false} JoinConserves(m: Merged, values: map<Key, real>, keys: set<Key>, prefix: string, item: Item,
                                         scale: real, nocollapse: bool)
    requires scale != 0.0 && Conserves(m, values, keys)
    ensures Conserves(Join(m, prefix, item, scale, nocollapse), values, keys + KeysIn(item))
    decreases item, 1
  {
    hide Sum, SumEntries, Walk;
    match item
    case Leaf(name, threshold, ks) =>
      var (value, rest) := TakeKeys(ks, m.rest, 0.0);
      TakeKeysConserves(ks, m.rest, 0.0);
      SumEntriesConcat(m.res, [(prefix + name, value)]);
      SumEntriesOne((prefix + name, value));
      assert rest == values - (keys + KeysIn(item));
    case Group(name, threshold, items) =>
      var sub := Walk(prefix + name + "-", items, |items|, m.rest, scale, nocollapse);
      WalkConserves(prefix + name + "-", items, |items|, m.rest, scale, nocollapse);
      SumEntriesConcat(m.res, [(prefix + name, sub.total)]);
      SumEntriesOne((prefix + name, sub.total));
      SumEntriesConcat(m.res, sub.res);
      assert sub.rest == values - (keys + KeysIn(item));
  }

  /** Whatever the thresholds, the walk counts the values of the keys it names, each once. */
  lemma {:induction false} WalkConserves(prefix: string, items: seq<Item>, n: nat, values: map<Key, real>, scale: real,
                                         nocollapse: bool)
    requires scale != 0.0 && n <= |items|
    ensures Conserves(Walk(prefix, items, n, values, scale, nocollapse), values, KeysOf(items, n))
    decreases items, 0, n
  {
    if n == 0 {
      assert values - {} == values;
    } else {
      WalkConserves(prefix, items, n - 1, values, scale, nocollapse);
      JoinConserves(Walk(prefix, items, n - 1, values, scale, nocollapse), values, KeysOf(items, n - 1), prefix,
                    items[n - 1], scale, nocollapse);
    }
  }

  // ----- a whole stack

  ghost function Scale(values: map<Key, real>): real {
    if Sum(values) == 0.0 then 1.0 else Sum(values)
  }

  /** The entries of a stack: those of the walk, and what was too small or unknown as `other`. */
  ghost function Stack(items: seq<Item>, values: map<Key, real>, nocollapse: bool): seq<Entry> {
    WithOther(Walk("", items, |items|, values, Scale(values), nocollapse), "other")
  }

  ghost function WithOther(m: Merged, title: string): seq<Entry> {
    var other := m.other + Sum(m.rest);
    if other == 0.0 then m.res else m.res + [(title, other)]
  }

  /** CONSERVATION. For every tree of items and all thresholds, the entries of a stack sum to the input total. */
  lemma StackConserves(items: seq<Item>, values: map<Key, real>, nocollapse: bool)
    ensures SumEntries(Stack(items, values, nocollapse)) == Sum(values)
  {
    var m := Walk("", items, |items|, values, Scale(values), nocollapse);
    WalkConserves("", items, |items|, values, Scale(values), nocollapse);
    var other := m.other + Sum(m.rest);
    SumEntriesConcat(m.res, [("other", other)]);
    SumEntriesOne(("other", other));
  }

  // ----- titles

  function Titles(prefix: string, item: Item): seq<string>
    decreases item, 1
  {
    match item
    case Leaf(name, _, _) => [prefix + name]
    case Group(name, _, items) => [prefix + name] + TitlesOf(prefix + name + "-", items, |items|)
  }

  /** The titles of the first `n` items and of all items in them. */
  function TitlesOf(prefix: string, items: seq<Item>, n: nat): seq<string>
    requires n <= |items|
    decreases items, 0, n
  {
    if n == 0 then [] else TitlesOf(prefix, items, n - 1) + Titles(prefix, items[n - 1])
  }

  /** The entries have titles from the list, and no two the same. */
  ghost predicate Titled(res: seq<Entry>, ts: seq<string>) {
    && (forall i :: 0 <= i < |res| ==> res[i].0 in ts)
    && forall i, j :: 0 <= i < j < |res| ==> res[i].0 != res[j].0
  }

  lemma TitledConcat(a: seq<Entry>, b: seq<Entry>, ts: seq<string>, us: seq<string>)
    requires Distinct(ts + us) && Titled(a, ts) && Titled(b, us)
    ensures Titled(a + b, ts + us) && Titled(a, ts + us)
  {
    var r := a + b;
    forall i, j | 0 <= i < j < |r|
      ensures r[i].0 != r[j].0
    {
      if i < |a| <= j {
        assert r[i] == a[i] && r[j] == b[j - |a|];
        Apart(ts, us, a[i].0, b[j - |a|].0);
      }
    }
  }

  lemma Apart(ts: seq<string>, us: seq<string>, x: string, y: string)
    requires Distinct(ts + us) && x in ts && y in us
    ensures x != y
  {
    var p :| 0 <= p < |ts| && ts[p] == x;
    var q :| 0 <= q < |us| && us[q] == y;
    assert (ts + us)[p] == x && (ts + us)[|ts| + q] == y;
  }

  lemma UniqueParts(a: seq<string>, b: seq<string>)
    requires Distinct(a + b)
    ensures Distinct(a) && Distinct(b)
  {
    forall i, j | 0 <= i < j < |a|
      ensures a[i] != a[j]
    {
      assert (a + b)[i] == a[i] && (a + b)[j] == a[j];
    }
    forall i, j | 0 <= i < j < |b|
      ensures b[i] != b[j]
    {
      assert (a + b)[|a| + i] == b[i] && (a + b)[|a| + j] == b[j];
    }
  }

  lemma {:induction false} JoinTitled(m: Merged, ts: seq<string>, prefix: string, item: Item, scale: real,
                                      nocollapse: bool)
    requires scale != 0.0 && Titled(m.res, ts) && Distinct(ts + Titles(prefix, item))
    ensures Titled(Join(m, prefix, item, scale, nocollapse).res, ts + Titles(prefix, item))
    decreases item, 1
  {
    var us := Titles(prefix, item);
    UniqueParts(ts, us);
    match item
    case Leaf(name, threshold, ks) =>
      var (value, rest) := TakeKeys(ks, m.rest, 0.0);
      TitledConcat(m.res, [(prefix + name, value)], ts, us);
    case Group(name, threshold, items) =>
      var below := TitlesOf(prefix + name + "-", items, |items|);
      var sub := Walk(prefix + name + "-", items, |items|, m.rest, scale, nocollapse);
      UniqueParts([prefix + name], below);
      WalkTitled(prefix + name + "-", items, |items|, m.rest, scale, nocollapse);
      TitledConcat(m.res, [(prefix + name, sub.total)], ts, us);
      assert Titled(sub.res, us);
      TitledConcat(m.res, sub.res, ts, us);
  }

  /** With unique titles in the tree, the entries of the walk have unique titles. */
  lemma {:induction false} WalkTitled(prefix: string, items: seq<Item>, n: nat, values: map<Key, real>, scale: real,
                                      nocollapse: bool)
    requires scale != 0.0 && n <= |items| && Distinct(TitlesOf(prefix, items, n))
    ensures Titled(Walk(prefix, items, n, values, scale, nocollapse).res, TitlesOf(prefix, items, n))
    decreases items, 0, n
  {
    if n > 0 {
      UniqueParts(TitlesOf(prefix, items, n - 1), Titles(prefix, items[n - 1]));
      WalkTitled(prefix, items, n - 1, values, scale, nocollapse);
      JoinTitled(Walk(prefix, items, n - 1, values, scale, nocollapse), TitlesOf(prefix, items, n - 1), prefix,
                 items[n - 1], scale, nocollapse);
    }
  }

  lemma OneTitled(title: string, value: real)
    ensures Titled([(title, value)], [title])
  {
  }

  lemma EndTitled(res: seq<Entry>, ts: seq<string>, title: string, value: real)
    requires Titled(res, ts) && Distinct(ts + [title])
    ensures Titled(res + [(title, value)], ts + [title]) && Titled(res, ts + [title])
  {
    OneTitled(title, value);
    hide Titled, Distinct;
    TitledConcat(res, [(title, value)], ts, [title]);
  }

  lemma StackTitled(items: seq<Item>, values: map<Key, real>, nocollapse: bool)
    requires Distinct(TitlesOf("", items, |items|) + ["other"])
    ensures Titled(Stack(items, values, nocollapse), TitlesOf("", items, |items|) + ["other"])
  {
    hide Walk, TitlesOf, Titled, Distinct, WithOther;
    UniqueParts(TitlesOf("", items, |items|), ["other"]);
    WalkTitled("", items, |items|, values, Scale(values), nocollapse);
    OtherTitled(Walk("", items, |items|, values, Scale(values), nocollapse), TitlesOf("", items, |items|), "other");
  }

  lemma OtherTitled(m: Merged, ts: seq<string>, title: string)
    requires Titled(m.res, ts) && Distinct(ts + [title])
    ensures Titled(WithOther(m, title), ts + [title])
  {
    hide Titled, Sum, Distinct;
    EndTitled(m.res, ts, title, m.other + Sum(m.rest));
  }

  // ----- the methods

  /** The sum over a dictionary's values. */
  method SumValues(m: map<Key, real>) returns (sum: real)
    ensures sum == Sum(m)
  {
    sum := 0.0;
    var todo := m;
    while todo != map[]
      invariant sum + Sum(todo) == Sum(m)
      decreases |todo|
    {
      var k :| k in todo;
      SumRemove(todo, k);
      sum := sum + todo[k];
      todo := todo - {k};
    }
  }

  /** The values of one core, from which the walk deletes what it has counted. */
  class Values {
    var values: map<Key, real>

    constructor (values: map<Key, real>)
      ensures this.values == values
    {
      this.values := values;
    }

    method CountKeys(keys: seq<Key>) returns (value: real)
      modifies this
      ensures (value, values) == TakeKeys(keys, old(values), 0.0)
    {
      value := 0.0;
      for i := 0 to |keys|
        invariant TakeKeys(keys, old(values), 0.0) == TakeKeys(keys[i..], values, value)
      {
        assert keys[i..][1..] == keys[i + 1..];
        if keys[i] in values {
          value := value + values[keys[i]];
          values := values - {keys[i]};
        }
      }
    }

    /** `get_items` */
    method GetItems(prefix: string, items: seq<Item>, scale: real, nocollapse: bool)
      returns (res: seq<Entry>, total: real, other: real)
      requires scale != 0.0
      modifies this
      ensures Merged(res, total, other, values) == Walk(prefix, items, |items|, old(values), scale, nocollapse)
      decreases items
    {
      res, total, other := [], 0.0, 0.0;
      for i := 0 to |items|
        invariant Merged(res, total, other, values) == Walk(prefix, items, i, old(values), scale, nocollapse)
      {
        match items[i]
        case Group(name, threshold, below) =>
          var res1, total1, other1 := GetItems(prefix + name + "-", below, scale, nocollapse);
          total := total + total1;
          if total1 / scale <= threshold && !nocollapse {
            other := other + total1;
          } else if res1 == [] && !nocollapse {
            res := res + [(prefix + name, total1)];
          } else {
            res := res + res1;
            other := other + other1;
          }
        case Leaf(name, threshold, keys) =>
          var value := CountKeys(keys);
          total := total + value;
          if value / scale <= threshold && !nocollapse {
            other := other + value;
          } else {
            res := res + [(prefix + name, value)];
          }
      }
    }
  }
}
