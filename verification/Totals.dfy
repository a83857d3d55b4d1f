/** Sums of natural-number weights over the values of a finite map.  The concurrent
    models keep one map from threads (or mappings, or segments) to their state, and
    their invariants compare such sums with the counters the C code keeps by hand. */
module Totals {

  ghost function Total<K, V>(m: map<K, V>, weight: V -> nat): nat
    decreases |m|
  {
    if m == map[] then
      0
    else
      var k :| k in m;
      weight(m[k]) + Total(m - {k}, weight)
  }

  /** The choice of the first key does not matter. */
  lemma {:induction false} TotalTake<K, V>(m: map<K, V>, weight: V -> nat, k: K)
    requires k in m
    ensures Total(m, weight) == weight(m[k]) + Total(m - {k}, weight)
    decreases |m|
  {
    var first :| first in m && Total(m, weight) == weight(m[first]) + Total(m - {first}, weight);
    if first != k {
      TotalTake(m - {first}, weight, k);
      TotalTake(m - {k}, weight, first);
      assert m - {first} - {k} == m - {k} - {first};
    }
  }

  /** Writing one entry changes the sum by that entry alone. */
  lemma TotalPut<K, V>(m: map<K, V>, weight: V -> nat, k: K, v: V)
    ensures k in m ==> Total(m[k := v], weight) == Total(m, weight) - weight(m[k]) + weight(v)
    ensures k !in m ==> Total(m[k := v], weight) == Total(m, weight) + weight(v)
    ensures k in m ==> weight(m[k]) <= Total(m, weight)
  {
    TotalTake(m[k := v], weight, k);
    if k in m {
      TotalTake(m, weight, k);
      assert m[k := v] - {k} == m - {k};
    } else {
      assert m[k := v] - {k} == m;
    }
  }

  lemma {:induction false} TotalNone<K, V>(m: map<K, V>, weight: V -> nat)
    requires forall k :: k in m ==> weight(m[k]) == 0
    ensures Total(m, weight) == 0
    decreases |m|
  {
    if m != map[] {
      var k :| k in m;
      TotalTake(m, weight, k);
      TotalNone(m - {k}, weight);
    }
  }

  /** A positive weight makes a positive sum. */
  lemma TotalSome<K, V>(m: map<K, V>, weight: V -> nat, k: K)
    requires k in m && weight(m[k]) > 0
    ensures Total(m, weight) > 0
  {
    TotalTake(m, weight, k);
  }
}
