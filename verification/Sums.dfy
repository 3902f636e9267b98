/** Sums of a measure over the values of a dictionary, independent of the order of the keys. */
module Sums {

  ghost function SumOver<K, V>(m: map<K, V>, f: V -> int): int
    decreases m.Keys
  {
    if m == map[] then 0
    else
      var k :| k in m;
      assert (m - {k}).Keys == m.Keys - {k};
      f(m[k]) + SumOver(m - {k}, f)
  }

  /** Any key may be taken out first. */
  lemma {:induction false} SumTake<K, V>(m: map<K, V>, f: V -> int, k: K)
    requires k in m
    ensures SumOver(m, f) == f(m[k]) + SumOver(m - {k}, f)
    decreases m.Keys
  {
    var first :| first in m && SumOver(m, f) == f(m[first]) + SumOver(m - {first}, f);
    if first != k {
      assert (m - {first}).Keys == m.Keys - {first};
      assert (m - {k}).Keys == m.Keys - {k};
      SumTake(m - {first}, f, k);
      SumTake(m - {k}, f, first);
      assert (m - {first}) - {k} == (m - {k}) - {first};
    }
  }

  /** What storing one value does to the sum. */
  lemma SumPut<K, V>(m: map<K, V>, f: V -> int, k: K, v: V)
    ensures SumOver(m[k := v], f) == SumOver(m, f) + f(v) - (if k in m then f(m[k]) else 0)
  {
    SumTake(m[k := v], f, k);
    assert m[k := v] - {k} == m - {k};
    if k in m {
      SumTake(m, f, k);
    } else {
      assert m - {k} == m;
    }
  }

  /** A pointwise comparison of two dictionaries with the same keys carries over to the sums. */
  lemma {:induction false} SumCompare<K, V>(m: map<K, V>, m': map<K, V>, f: V -> int)
    requires m.Keys == m'.Keys
    requires forall k :: k in m ==> f(m[k]) <= f(m'[k])
    ensures SumOver(m, f) <= SumOver(m', f)
    decreases m.Keys
  {
    if m.Keys == {} {
      assert m == map[] && m' == map[];
    } else {
      var k :| k in m;
      assert (m - {k}).Keys == m.Keys - {k} == (m' - {k}).Keys;
      SumCompare(m - {k}, m' - {k}, f);
      SumTake(m, f, k);
      SumTake(m', f, k);
    }
  }

  lemma {:induction false} SumNonNegative<K, V>(m: map<K, V>, f: V -> int)
    requires forall k :: k in m ==> 0 <= f(m[k])
    ensures 0 <= SumOver(m, f)
    decreases m.Keys
  {
    if k :| k in m {
      assert (m - {k}).Keys == m.Keys - {k};
      SumNonNegative(m - {k}, f);
      SumTake(m, f, k);
    } else {
      assert m == map[];
    }
  }

  lemma {:induction false} SumZero<K, V>(m: map<K, V>, f: V -> int)
    requires forall k :: k in m ==> f(m[k]) == 0
    ensures SumOver(m, f) == 0
    decreases m.Keys
  {
    if k :| k in m {
      assert (m - {k}).Keys == m.Keys - {k};
      SumZero(m - {k}, f);
      SumTake(m, f, k);
    } else {
      assert m == map[];
    }
  }

  // ---- Amounts of money ----

  ghost function Total<K, V>(m: map<K, V>, f: V -> real): real
    decreases m.Keys
  {
    if m == map[] then 0.0
    else
      var k :| k in m;
      assert (m - {k}).Keys == m.Keys - {k};
      f(m[k]) + Total(m - {k}, f)
  }

  lemma {:induction false} TotalTake<K, V>(m: map<K, V>, f: V -> real, k: K)
    requires k in m
    ensures Total(m, f) == f(m[k]) + Total(m - {k}, f)
    decreases m.Keys
  {
    var first :| first in m && Total(m, f) == f(m[first]) + Total(m - {first}, f);
    if first != k {
      assert (m - {first}).Keys == m.Keys - {first};
      assert (m - {k}).Keys == m.Keys - {k};
      TotalTake(m - {first}, f, k);
      TotalTake(m - {k}, f, first);
      assert (m - {first}) - {k} == (m - {k}) - {first};
    }
  }

  lemma TotalPut<K, V>(m: map<K, V>, f: V -> real, k: K, v: V)
    ensures Total(m[k := v], f) == Total(m, f) + f(v) - (if k in m then f(m[k]) else 0.0)
  {
    TotalTake(m[k := v], f, k);
    assert m[k := v] - {k} == m - {k};
    if k in m {
      TotalTake(m, f, k);
    } else {
      assert m - {k} == m;
    }
  }
}
