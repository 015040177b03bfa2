/** Sums over finite maps. */
module MapSums {

  ghost function Sum<K, V>(m: map<K, V>, f: (K, V) -> int): int
    decreases |m|
  {
    if m == map[] then 0
    else
      var k :| k in m;
      f(k, m[k]) + Sum(m - {k}, f)
  }

  /** Any key may be split off first. */
  lemma {:induction false} SumRemove<K, V>(m: map<K, V>, k: K, f: (K, V) -> int)
    requires k in m
    ensures Sum(m, f) == f(k, m[k]) + Sum(m - {k}, f)
    decreases |m|
  {
    var c :| c in m && Sum(m, f) == f(c, m[c]) + Sum(m - {c}, f);
    if c != k {
      SumRemove(m - {c}, k, f);
      SumRemove(m - {k}, c, f);
      assert m - {c} - {k} == m - {k} - {c};
    }
  }

  lemma SumPut<K, V>(m: map<K, V>, k: K, v: V, f: (K, V) -> int)
    ensures Sum(m[k := v], f) == Sum(m, f) + f(k, v) - (if k in m then f(k, m[k]) else 0)
  {
    SumRemove(m[k := v], k, f);
    assert m[k := v] - {k} == m - {k};
    if k in m {
      SumRemove(m, k, f);
    } else {
      assert m - {k} == m;
    }
  }

  /** A sum that splits key by key splits as a whole. */
  lemma {:induction false} SumSplits<K, V>(a: map<K, V>, b: map<K, V>, f: (K, V) -> int, g: (K, V) -> int,
                                           h: (K, V) -> int)
    requires a.Keys == b.Keys
    requires forall k :: k in a ==> f(k, a[k]) == g(k, b[k]) + h(k, a[k])
    ensures Sum(a, f) == Sum(b, g) + Sum(a, h)
    decreases |a|
  {
    if a != map[] {
      var k :| k in a;
      SumRemove(a, k, f);
      SumRemove(b, k, g);
      SumRemove(a, k, h);
      SumSplits(a - {k}, b - {k}, f, g, h);
    } else {
      assert b == map[];
    }
  }
}
