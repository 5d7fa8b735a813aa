/** Sums over maps, independent of the order in which a hash map happens to be walked. */
module MapSums {

  /** The sum of `f` over the values of `m`. */
  ghost function SumBy<K, V>(m: map<K, V>, f: V -> nat): nat
    decreases |m|
  {
    if m == map[] then 0
    else
      var k :| k in m;
      f(m[k]) + SumBy(m - {k}, f)
  }

  /** Any key may be taken out first. */
  lemma {:induction false} SumRemove<K, V>(m: map<K, V>, f: V -> nat, k: K)
    requires k in m
    ensures SumBy(m, f) == f(m[k]) + SumBy(m - {k}, f)
    decreases |m|
  {
    var j :| j in m && SumBy(m, f) == f(m[j]) + SumBy(m - {j}, f);
    if j != k {
      SumRemove(m - {j}, f, k);
      SumRemove(m - {k}, f, j);
      assert m - {j} - {k} == m - {k} - {j};
    }
  }

  lemma {:induction false} SumUpdate<K, V>(m: map<K, V>, f: V -> nat, k: K, v: V)
    ensures SumBy(m[k := v], f) == SumBy(m - {k}, f) + f(v)
    ensures k !in m ==> SumBy(m[k := v], f) == SumBy(m, f) + f(v)
    ensures k in m ==> SumBy(m[k := v], f) + f(m[k]) == SumBy(m, f) + f(v)
  {
    SumRemove(m[k := v], f, k);
    assert m[k := v] - {k} == m - {k};
    if k in m {
      SumRemove(m, f, k);
    } else {
      assert m - {k} == m;
    }
  }

  lemma {:induction false} SumAtLeast<K, V>(m: map<K, V>, f: V -> nat, k: K)
    requires k in m
    ensures f(m[k]) <= SumBy(m, f)
  {
    SumRemove(m, f, k);
  }

  lemma {:induction false} SumAtLeastTwo<K, V>(m: map<K, V>, f: V -> nat, j: K, k: K)
    requires j in m && k in m && j != k
    ensures f(m[j]) + f(m[k]) <= SumBy(m, f)
  {
    SumRemove(m, f, j);
    SumAtLeast(m - {j}, f, k);
  }
}
