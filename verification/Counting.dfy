/** Counting and summing the entries of a map, one update at a time. */
module Counting {

  function One(b: bool): nat {
    if b then 1 else 0
  }

  function Having<K, V>(m: map<K, V>, f: V -> bool): set<K> {
    set k | k in m && f(m[k])
  }

  function Count<K, V>(m: map<K, V>, f: V -> bool): nat {
    |Having(m, f)|
  }

  // Splitting off one key.
  lemma CountWithout<K, V>(m: map<K, V>, k: K, f: V -> bool)
    ensures Count(m, f) == |Having(m, f) - {k}| + One(k in m && f(m[k]))
  {
    if k in m && f(m[k]) {
      assert Having(m, f) == (Having(m, f) - {k}) + {k};
    } else {
      assert Having(m, f) == Having(m, f) - {k};
    }
  }

  lemma CountPut<K, V>(m: map<K, V>, k: K, v: V, f: V -> bool)
    ensures Count(m[k := v], f) == Count(m, f) - One(k in m && f(m[k])) + One(f(v))
  {
    CountWithout(m, k, f);
    CountWithout(m[k := v], k, f);
    assert Having(m[k := v], f) - {k} == Having(m, f) - {k};
  }

  lemma CountDrop<K, V>(m: map<K, V>, k: K, f: V -> bool)
    ensures Count(m - {k}, f) == Count(m, f) - One(k in m && f(m[k]))
  {
    assert Having(m - {k}, f) == Having(m, f) - {k};
  }

  lemma CountSubset<K, V(!new)>(m: map<K, V>, f: V -> bool, g: V -> bool)
    requires forall v :: f(v) ==> g(v)
    ensures Count(m, f) <= Count(m, g)
  {
    assert Having(m, g) == Having(m, f) + (Having(m, g) - Having(m, f));
  }

  lemma CountSplit<K, V(!new)>(m: map<K, V>, h: V -> bool, f: V -> bool, g: V -> bool)
    requires forall v :: (h(v) <==> f(v) || g(v)) && !(f(v) && g(v))
    ensures Count(m, h) == Count(m, f) + Count(m, g)
  {
    assert Having(m, h) == Having(m, f) + Having(m, g);
    assert Having(m, f) !! Having(m, g);
  }

  lemma CountAll<K, V>(m: map<K, V>)
    ensures Count(m, v => true) == |m|
  {
    assert Having(m, v => true) == m.Keys;
  }

  lemma CountNone<K, V>(f: V -> bool)
    ensures Count<K, V>(map[], f) == 0
  {
    assert Having<K, V>(map[], f) == {};
  }

  ghost function Sum<K, V>(m: map<K, V>, f: V -> int): int {
    if m == map[] then 0
    else
      var k :| k in m;
      f(m[k]) + Sum(m - {k}, f)
  }

  /** Any entry may be the one taken out first. */
  lemma {:induction false} SumWithout<K, V>(m: map<K, V>, k: K, f: V -> int)
    requires k in m
    ensures Sum(m, f) == f(m[k]) + Sum(m - {k}, f)
    decreases |m|
  {
    var j :| j in m && Sum(m, f) == f(m[j]) + Sum(m - {j}, f);
    if j != k {
      SumWithout(m - {j}, k, f);
      SumWithout(m - {k}, j, f);
      assert m - {j} - {k} == m - {k} - {j};
    }
  }

  lemma SumPut<K, V>(m: map<K, V>, k: K, v: V, f: V -> int)
    ensures Sum(m[k := v], f) == Sum(m, f) - (if k in m then f(m[k]) else 0) + f(v)
  {
    SumWithout(m[k := v], k, f);
    assert m[k := v] - {k} == m - {k};
    if k in m {
      SumWithout(m, k, f);
    } else {
      assert m - {k} == m;
    }
  }

  lemma {:induction false} SumAtLeastSize<K, V(!new)>(m: map<K, V>, f: V -> int)
    requires forall v :: f(v) >= 1
    ensures Sum(m, f) >= |m|
    decreases |m|
  {
    if m != map[] {
      var k :| k in m;
      SumWithout(m, k, f);
      assert m == (m - {k})[k := m[k]];
      SumAtLeastSize(m - {k}, f);
    }
  }
}
