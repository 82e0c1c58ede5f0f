/** Adding up a measure over the values of a map. */
module MapSums {

  ghost function Sum<K, V>(m: map<K, V>, f: V -> int): int
    decreases |m|
  {
    if m == map[] then 0
    else
      var k :| k in m;
      f(m[k]) + Sum(m - {k}, f)
  }

  lemma {:induction false} SumRemove<K, V>(m: map<K, V>, f: V -> int, k: K)
    requires k in m
    ensures Sum(m, f) == f(m[k]) + Sum(m - {k}, f)
    decreases |m|
  {
    var j :| j in m && Sum(m, f) == f(m[j]) + Sum(m - {j}, f);
    if j != k {
      SumRemove(m - {j}, f, k);
      SumRemove(m - {k}, f, j);
      assert m - {j} - {k} == m - {k} - {j};
    }
  }

  lemma {:induction false} SumPut<K, V>(m: map<K, V>, f: V -> int, k: K, v: V)
    ensures Sum(m[k := v], f) == f(v) + Sum(m, f) - if k in m then f(m[k]) else 0
  {
    SumRemove(m[k := v], f, k);
    assert m[k := v] - {k} == m - {k};
    if k in m { SumRemove(m, f, k); } else { assert m - {k} == m; }
  }
}
