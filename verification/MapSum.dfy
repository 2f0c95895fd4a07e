/** Sums over the values of a dictionary. */
module MapSum {
  type Key = string

  ghost function Sum(m: map<Key, real>): real {
    if m == map[] then 0.0 else var k :| k in m; m[k] + Sum(m - {k})
  }

  function Get(m: map<Key, real>, k: Key): real {
    if k in m then m[k] else 0.0
  }

  /** The part of a dictionary with some keys. */
  function On(data: map<Key, real>, keys: set<Key>): map<Key, real> {
    map k | k in data && k in keys :: data[k]
  }

  lemma NoValues()
    ensures Sum(map[]) == 0.0
  {
  }

  lemma {:induction false} SumRemove(m: map<Key, real>, k: Key)
    requires k in m
    ensures Sum(m) == m[k] + Sum(m - {k})
    decreases |m|
  {
    var j :| j in m && Sum(m) == m[j] + Sum(m - {j});
    if j != k {
      SumRemove(m - {j}, k);
      SumRemove(m - {k}, j);
      assert m - {j} - {k} == m - {k} - {j};
    }
  }

  lemma SumUpdate(m: map<Key, real>, k: Key, v: real)
    ensures Sum(m[k := v]) == Sum(m) - Get(m, k) + v
  {
    SumRemove(m[k := v], k);
    if k in m {
      SumRemove(m, k);
      assert m[k := v] - {k} == m - {k};
    } else {
      assert m[k := v] - {k} == m;
    }
  }

  lemma SumWithout(m: map<Key, real>, k: Key)
    ensures Sum(m - {k}) == Sum(m) - Get(m, k)
  {
    if k in m {
      SumRemove(m, k);
    } else {
      assert m - {k} == m;
    }
  }

  /** A sum over keys, split at some of them. */
  lemma {:induction false} SumSplit(m: map<Key, real>, keys: set<Key>)
    ensures Sum(m) == Sum(On(m, keys)) + Sum(m - keys)
    decreases |keys|
  {
    hide Sum;
    if keys == {} {
      NoValues();
      assert On(m, keys) == map[] && m - keys == m;
    } else {
      var k :| k in keys;
      var rest := keys - {k};
      SumSplit(m, rest);
      SumWithout(m - rest, k);
      assert m - rest - {k} == m - keys;
      SumWithout(On(m, keys), k);
      assert On(m, keys) - {k} == On(m, rest);
    }
  }

  lemma SumApart(m: map<Key, real>, a: set<Key>, b: set<Key>)
    requires a !! b
    ensures Sum(On(m, a + b)) == Sum(On(m, a)) + Sum(On(m, b))
  {
    SumSplit(On(m, a + b), a);
    assert On(On(m, a + b), a) == On(m, a);
    assert On(m, a + b) - a == On(m, b);
  }
}
