/** Sums over the values of a finite map, whatever order the entries are visited in. */
module Sums {

  ghost function SumOf<K(!new)>(m: map<K, int>): int
  {
    if m == map[] then 0 else var k :| k in m; m[k] + SumOf(m - {k})
  }

  // Any entry can be taken out first.
  lemma {:induction false} SumWithout<K(!new)>(m: map<K, int>, k: K)
    requires k in m
    ensures SumOf(m) == m[k] + SumOf(m - {k})
    decreases |m|
  {
    var j :| j in m && SumOf(m) == m[j] + SumOf(m - {j});
    if j != k {
      SumWithout(m - {j}, k);
      SumWithout(m - {k}, j);
      assert m - {j} - {k} == m - {k} - {j};
    }
  }

  lemma SumUpdate<K(!new)>(m: map<K, int>, k: K, v: int)
    ensures SumOf(m[k := v]) == SumOf(m) - (if k in m then m[k] else 0) + v
  {
    SumWithout(m[k := v], k);
    assert m[k := v] - {k} == m - {k};
    if k in m {
      SumWithout(m, k);
    } else {
      assert m - {k} == m;
    }
  }

  // Pointwise smaller maps of non-negative numbers, missing entries counting as 0, have smaller sums.
  lemma {:induction false} SumMonotone<K(!new)>(a: map<K, int>, b: map<K, int>)
    requires a.Keys <= b.Keys
    requires forall k :: k in b ==> 0 <= b[k] && (k in a ==> a[k] <= b[k])
    ensures SumOf(a) <= SumOf(b)
    decreases |b|
  {
    if b == map[] {
      assert a == map[];
    } else {
      var k :| k in b;
      SumWithout(b, k);
      if k in a {
        SumWithout(a, k);
      } else {
        assert a - {k} == a;
      }
      SumMonotone(a - {k}, b - {k});
    }
  }

  // Entries that are 0 may be left out of the sum.
  lemma {:induction false} SumSame<K(!new)>(a: map<K, int>, b: map<K, int>)
    requires a.Keys <= b.Keys
    requires forall k :: k in b ==> b[k] == if k in a then a[k] else 0
    ensures SumOf(a) == SumOf(b)
    decreases |b|
  {
    if b == map[] {
      assert a == map[];
    } else {
      var k :| k in b;
      SumWithout(b, k);
      if k in a {
        SumWithout(a, k);
      } else {
        assert a - {k} == a;
      }
      SumSame(a - {k}, b - {k});
    }
  }

  /** The sum over the part of the map whose keys are in s. */
  ghost function SumOver<K(!new)>(m: map<K, int>, s: set<K>): int
  {
    if s == {} then 0 else var k :| k in s; (if k in m then m[k] else 0) + SumOver(m, s - {k})
  }

  lemma {:induction false} SumOverIsSum<K(!new)>(m: map<K, int>, s: set<K>)
    ensures SumOver(m, s) == SumOf(map k | k in m && k in s :: m[k])
  {
    var r := map k | k in m && k in s :: m[k];
    if s == {} {
      assert r == map[];
    } else {
      var k :| k in s && SumOver(m, s) == (if k in m then m[k] else 0) + SumOver(m, s - {k});
      SumOverIsSum(m, s - {k});
      assert (map j | j in m && j in s - {k} :: m[j]) == r - {k};
      if k in m {
        SumWithout(r, k);
      } else {
        assert r - {k} == r;
      }
    }
  }

  lemma SumOverAdd<K(!new)>(m: map<K, int>, s: set<K>, k: K)
    requires k !in s
    ensures SumOver(m, s + {k}) == SumOver(m, s) + if k in m then m[k] else 0
  {
    var r := map j | j in m && j in s :: m[j];
    SumOverIsSum(m, s);
    SumOverIsSum(m, s + {k});
    if k in m {
      assert (map j | j in m && j in s + {k} :: m[j]) == r[k := m[k]];
      SumUpdate(r, k, m[k]);
    } else {
      assert (map j | j in m && j in s + {k} :: m[j]) == r;
    }
  }

  lemma SumOverAll<K(!new)>(m: map<K, int>, s: set<K>)
    requires m.Keys <= s
    ensures SumOver(m, s) == SumOf(m)
  {
    SumOverIsSum(m, s);
    assert (map k | k in m && k in s :: m[k]) == m;
  }
}
