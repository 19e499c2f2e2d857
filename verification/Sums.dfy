/** Sums over the entries of a finite map. */
module Sums {

  ghost function SumOver<K(!new), V(!new)>(m: map<K, V>, w: (K, V) -> int): int
    decreases |m|
  {
    if m == map[] then 0
    else
      var k :| k in m;
      assert |m - {k}| < |m| by { RemoveShrinks(m, k); }
      w(k, m[k]) + SumOver(m - {k}, w)
  }

  lemma RemoveShrinks<K, V>(m: map<K, V>, k: K)
    requires k in m
    ensures |m - {k}| == |m| - 1
  {
    assert (m - {k}).Keys == m.Keys - {k};
    assert |m.Keys| == |m| && |(m - {k}).Keys| == |m - {k}|;
  }

  /** The sum does not depend on the order in which entries are taken. */
  lemma {:induction false} SumRemove<K(!new), V(!new)>(m: map<K, V>, k: K, w: (K, V) -> int)
    requires k in m
    ensures SumOver(m, w) == w(k, m[k]) + SumOver(m - {k}, w)
    decreases |m|
  {
    var j :| j in m && SumOver(m, w) == w(j, m[j]) + SumOver(m - {j}, w);
    if j != k {
      RemoveShrinks(m, j);
      RemoveShrinks(m, k);
      SumRemove(m - {j}, k, w);
      SumRemove(m - {k}, j, w);
      assert m - {j} - {k} == m - {k} - {j};
    }
  }

  ghost function Entry<K, V>(m: map<K, V>, k: K, w: (K, V) -> int): int {
    if k in m then w(k, m[k]) else 0
  }

  lemma SumUpdate<K(!new), V(!new)>(m: map<K, V>, k: K, v: V, w: (K, V) -> int)
    ensures SumOver(m[k := v], w) == SumOver(m, w) - Entry(m, k, w) + w(k, v)
  {
    SumRemove(m[k := v], k, w);
    if k in m {
      SumRemove(m, k, w);
      assert m[k := v] - {k} == m - {k};
    } else {
      assert m[k := v] - {k} == m;
    }
  }

  lemma SumDrop<K(!new), V(!new)>(m: map<K, V>, k: K, w: (K, V) -> int)
    ensures SumOver(m - {k}, w) == SumOver(m, w) - Entry(m, k, w)
  {
    if k in m {
      SumRemove(m, k, w);
    } else {
      assert m - {k} == m;
    }
  }
}
