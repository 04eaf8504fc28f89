/** Sums over the values of a finite map, in no particular order: the meaning
    of every "range over the table and accumulate" loop in the core. */
module MapSum {

  /** The sum of `f(v)` over every value `v` stored in `m`. */
  ghost function SumBy<K, V>(m: map<K, V>, f: V -> int): int
    decreases |m|
  {
    if m == map[] then 0
    else
      var k :| k in m;
      assert |m - {k}| < |m| by { RemoveShrinks(m, k); }
      f(m[k]) + SumBy(m - {k}, f)
  }

  lemma RemoveShrinks<K, V>(m: map<K, V>, k: K)
    requires k in m
    ensures (m - {k}).Keys == m.Keys - {k}
    ensures |m - {k}| == |m| - 1
  {
    assert (m - {k}).Keys == m.Keys - {k};
    assert |m.Keys - {k}| == |m.Keys| - 1;
  }

  /** Any key may be taken out first: the sum does not depend on the order
      in which a loop visits the entries. */
  lemma {:induction false} SumByRemove<K, V>(m: map<K, V>, f: V -> int, k: K)
    requires k in m
    ensures SumBy(m, f) == f(m[k]) + SumBy(m - {k}, f)
    decreases |m|
  {
    var j :| j in m && SumBy(m, f) == f(m[j]) + SumBy(m - {j}, f);
    if j != k {
      RemoveShrinks(m, j);
      RemoveShrinks(m, k);
      SumByRemove(m - {j}, f, k);
      SumByRemove(m - {k}, f, j);
      assert m - {j} - {k} == m - {k} - {j};
    }
  }

  /** Writing `v` under `k` changes the sum by the difference between the new
      value and the one it replaces (nothing, for a fresh key). */
  lemma SumByUpdate<K, V>(m: map<K, V>, f: V -> int, k: K, v: V)
    ensures SumBy(m[k := v], f) == SumBy(m, f) - (if k in m then f(m[k]) else 0) + f(v)
  {
    SumByRemove(m[k := v], f, k);
    assert m[k := v] - {k} == m - {k};
    if k in m {
      SumByRemove(m, f, k);
    } else {
      assert m - {k} == m;
    }
  }

  /** Writing `v` under `k`: the sum is `f(v)` plus the sum over the other keys. */
  lemma SumByPut<K, V>(m: map<K, V>, f: V -> int, k: K, v: V)
    ensures SumBy(m[k := v], f) == f(v) + SumBy(m - {k}, f)
  {
    SumByRemove(m[k := v], f, k);
    assert m[k := v] - {k} == m - {k};
  }

  /** A sum of non-negative terms is non-negative. */
  lemma {:induction false} SumByNonNegative<K, V>(m: map<K, V>, f: V -> int)
    requires forall k :: k in m ==> f(m[k]) >= 0
    ensures SumBy(m, f) >= 0
    decreases |m|
  {
    if m != map[] {
      var k :| k in m;
      SumByRemove(m, f, k);
      RemoveShrinks(m, k);
      SumByNonNegative(m - {k}, f);
    }
  }
}
