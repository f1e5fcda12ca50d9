/**
  * Sums over the values of a map, whatever order the entries are visited in. A
  * JavaScript `reduce` over `Object.values(record)` and a database aggregate over
  * the rows of a table are both such sums.
  */
module MapSums {

  /** Some key of a non-empty set; the sum below does not depend on which. */
  ghost function Pick<K>(s: set<K>): K
    requires s != {}
  {
    var k :| k in s; k
  }

  ghost function Sum<K>(m: map<K, int>): int
    decreases |m|
  {
    if m == map[] then 0
    else
      var k := Pick(m.Keys);
      assert |m - {k}| < |m| by { assert (m - {k}).Keys == m.Keys - {k}; }
      m[k] + Sum(m - {k})
  }

  /** Any entry can be taken out first. */
  lemma {:induction false} SumRemove<K>(m: map<K, int>, x: K)
    requires x in m
    ensures Sum(m) == m[x] + Sum(m - {x})
    decreases |m|
  {
    var k := Pick(m.Keys);
    assert (m - {k}).Keys == m.Keys - {k};
    assert (m - {x}).Keys == m.Keys - {x};
    if k != x {
      SumRemove(m - {k}, x);
      SumRemove(m - {x}, k);
      assert m - {k} - {x} == m - {x} - {k};
    }
  }

  /** Setting one entry changes the sum by the difference at that entry. */
  lemma SumUpdate<K>(m: map<K, int>, k: K, v: int)
    ensures Sum(m[k := v]) == Sum(m) - (if k in m then m[k] else 0) + v
  {
    SumRemove(m[k := v], k);
    assert m[k := v] - {k} == m - {k};
    if k in m {
      SumRemove(m, k);
    } else {
      assert m - {k} == m;
    }
  }

  /** Removing one entry changes the sum by that entry. */
  lemma SumDelete<K>(m: map<K, int>, k: K)
    ensures Sum(m - {k}) == Sum(m) - (if k in m then m[k] else 0)
  {
    if k in m {
      SumRemove(m, k);
    } else {
      assert m - {k} == m;
    }
  }

  /** A sum of non-negative values is non-negative and at least each of them. */
  lemma {:induction false} SumNonNegative<K>(m: map<K, int>, x: K)
    requires forall k :: k in m ==> m[k] >= 0
    ensures Sum(m) >= 0
    ensures x in m ==> Sum(m) >= m[x]
    decreases |m|
  {
    if m != map[] {
      var k := Pick(m.Keys);
      assert (m - {k}).Keys == m.Keys - {k};
      SumNonNegative(m - {k}, x);
      if x in m {
        SumRemove(m, x);
        SumNonNegative(m - {x}, x);
        assert (m - {x}).Keys == m.Keys - {x};
      }
    }
  }

  /** Computes the sum, visiting the entries in an arbitrary order. */
  method Total<K>(m: map<K, int>) returns (s: int)
    ensures s == Sum(m)
  {
    s := 0;
    var rest := m;
    while rest != map[]
      invariant s + Sum(rest) == Sum(m)
      decreases |rest|
    {
      var k :| k in rest;
      SumRemove(rest, k);
      s := s + rest[k];
      assert (rest - {k}).Keys == rest.Keys - {k};
      rest := rest - {k};
    }
  }
}
