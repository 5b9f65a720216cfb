/** Sums over finite maps, independent of the order the keys are visited in, and set sizes. */
module Sums {

  ghost function SumMap<K>(m: map<K, nat>): nat
    decreases |m|
  {
    if m == map[] then 0
    else
      var k :| k in m;
      m[k] + SumMap(m - {k})
  }

  lemma SumNone<K>()
    ensures SumMap<K>(map[]) == 0
  {
  }

  lemma {:induction false} SumRemove<K>(m: map<K, nat>, k: K)
    requires k in m
    ensures SumMap(m) == m[k] + SumMap(m - {k})
    decreases |m|
  {
    var c :| c in m && SumMap(m) == m[c] + SumMap(m - {c});
    if c != k {
      SumRemove(m - {c}, k);
      SumRemove(m - {k}, c);
      assert m - {c} - {k} == m - {k} - {c};
    }
  }

  /** A map with fewer keys and no larger values has no larger sum. */
  lemma {:induction false} SumMono<K>(m: map<K, nat>, n: map<K, nat>)
    requires forall k :: k in m ==> k in n && m[k] <= n[k]
    ensures SumMap(m) <= SumMap(n)
    decreases |m|
  {
    if m != map[] {
      var k :| k in m;
      SumRemove(m, k);
      SumRemove(n, k);
      SumMono(m - {k}, n - {k});
    }
  }

  lemma SubsetSize<T>(a: set<T>, b: set<T>)
    requires a <= b
    ensures |a| <= |b|
  {
    assert b == a + (b - a);
  }
}
