/** Adding up a weight over the entries of a finite map, in whatever order. */
module Sums {

  ghost function Pick<K, V>(m: map<K, V>): (k: K)
    requires m != map[]
    ensures k in m
  {
    var k :| k in m; k
  }

  ghost function SumBy<K, V>(m: map<K, V>, weight: V -> int): int {
    if m == map[] then 0
    else var k := Pick(m); weight(m[k]) + SumBy(m - {k}, weight)
  }

  /** The order does not matter: any entry can be taken out first. */
  lemma {:induction false} SumWithout<K, V>(m: map<K, V>, weight: V -> int, k: K)
    requires k in m
    ensures SumBy(m, weight) == weight(m[k]) + SumBy(m - {k}, weight)
    decreases |m|
  {
    var p := Pick(m);
    if p != k {
      SumWithout(m - {p}, weight, k);
      SumWithout(m - {k}, weight, p);
      assert m - {p} - {k} == m - {k} - {p};
    }
  }

  lemma {:induction false} SumUpdate<K, V>(m: map<K, V>, weight: V -> int, k: K, v: V)
    ensures SumBy(m[k := v], weight) == SumBy(m, weight) + weight(v) - if k in m then weight(m[k]) else 0
  {
    var u := m[k := v];
    SumWithout(u, weight, k);
    assert u - {k} == m - {k};
    if k in m {
      SumWithout(m, weight, k);
    } else {
      assert m - {k} == m;
    }
  }

  lemma {:induction false} SumNonNegative<K, V>(m: map<K, V>, weight: V -> int)
    requires forall k :: k in m ==> weight(m[k]) >= 0
    ensures SumBy(m, weight) >= 0
    decreases |m|
  {
    if m != map[] { SumNonNegative(m - {Pick(m)}, weight); }
  }
}
