/**
 The ordered map behind a rolling window: buckets sorted by their start time, each with the number
 of events in it. The simple form it stands for is the plain list of the events' bucket keys.
 */
module Buckets {

  /** One entry of the tree map: the start of a time slice and the events counted in it. */
  datatype Bucket = Bucket(key: int, count: int)

  /** The width of a time slice. */
  type Width = w: int | w > 0 witness 1

  /** The remainder of Go's % operator, which takes the sign of the dividend. */
  function Rem(a: int, b: int): int
    requires b > 0
  {
    if a >= 0 then a % b else -((-a) % b)
  }

  /** The start of the slice of width w that holds time t. */
  function KeyFor(t: int, w: int): int
    requires w > 0
  {
    t - Rem(t, w)
  }

  lemma KeyForSlice(t: int, w: int)
    requires w > 0
    ensures KeyFor(t, w) % w == 0
    ensures t - w < KeyFor(t, w) < t + w
    ensures t >= 0 ==> 0 <= KeyFor(t, w) <= t
    ensures t <= 0 ==> t <= KeyFor(t, w) <= 0
  {
    RoundDown(if t >= 0 then t else -t, w);
  }

  lemma RoundDown(a: nat, w: int)
    requires w > 0
    ensures 0 <= a - a % w <= a < a - a % w + w
    ensures (a - a % w) % w == 0 && (-(a - a % w)) % w == 0
  {
    var q := a / w;
    assert a - a % w == w * q;
    MultipleOf(q, w);
    assert w * (-q) == -(w * q);
    MultipleOf(-q, w);
  }

  lemma MultipleOf(q: int, w: int)
    requires w > 0
    ensures (w * q) % w == 0
  {
    QuotientUnique(w * q, q, 0, w);
  }

  lemma QuotientUnique(a: int, q: int, r: int, w: int)
    requires w > 0 && 0 <= r < w && a == w * q + r
    ensures a % w == r
  {
    var d := q - a / w;
    assert w * d == w * q - w * (a / w);
    if d >= 1 {
      Grows(w, d);
    } else if d <= -1 {
      Grows(w, -d);
    }
  }

  lemma Grows(w: int, d: int)
    requires w > 0 && d >= 1
    ensures w <= w * d
  {
    assert w * d == w + w * (d - 1);
  }

  predicate Sorted(b: seq<Bucket>)
  {
    forall i, j :: 0 <= i < j < |b| ==> b[i].key < b[j].key
  }

  predicate Positive(b: seq<Bucket>)
  {
    forall i :: 0 <= i < |b| ==> b[i].count > 0
  }

  /** What every bucket map of the program is: sorted, without empty buckets. */
  predicate Ok(b: seq<Bucket>)
  {
    Sorted(b) && Positive(b)
  }

  predicate HasKey(b: seq<Bucket>, k: int)
  {
    exists i :: 0 <= i < |b| && b[i].key == k
  }

  /** The count stored under k, 0 when there is none. */
  function Get(b: seq<Bucket>, k: int): int
  {
    if b == [] then 0 else if b[0].key == k then b[0].count else Get(b[1..], k)
  }

  /** Stores v under k, keeping the keys in order. */
  function Put(b: seq<Bucket>, k: int, v: int): seq<Bucket>
  {
    if b == [] || k < b[0].key then [Bucket(k, v)] + b
    else if k == b[0].key then [Bucket(k, v)] + b[1..]
    else [b[0]] + Put(b[1..], k, v)
  }

  function Increment(b: seq<Bucket>, k: int): seq<Bucket>
  {
    Put(b, k, Get(b, k) + 1)
  }

  /** Drops leading buckets up to the first one that is not below the threshold. */
  function DropBelow(b: seq<Bucket>, th: int): seq<Bucket>
  {
    if b == [] || b[0].key >= th then b else DropBelow(b[1..], th)
  }

  function Sum(b: seq<Bucket>): int
  {
    if b == [] then 0 else b[0].count + Sum(b[1..])
  }

  // ---------------------------------------------------------------- the simple form

  /** The keys not below the threshold, in order of arrival. */
  function Above(keys: seq<int>, th: int): seq<int>
  {
    if keys == [] then [] else
      var rest := Above(keys[..|keys| - 1], th);
      if keys[|keys| - 1] >= th then rest + [keys[|keys| - 1]] else rest
  }

  /** The buckets that counting the keys one after the other builds. */
  function BucketsOf(keys: seq<int>): seq<Bucket>
  {
    if keys == [] then [] else Increment(BucketsOf(keys[..|keys| - 1]), keys[|keys| - 1])
  }

  // ---------------------------------------------------------------- the ordered map

  lemma {:induction false} GetAt(b: seq<Bucket>, i: nat)
    requires Sorted(b) && i < |b|
    ensures Get(b, b[i].key) == b[i].count
  {
    if i > 0 {
      assert b[0].key < b[i].key;
      GetAt(b[1..], i - 1);
      assert b[i] == b[1..][i - 1];
    }
  }

  lemma {:induction false} GetMissing(b: seq<Bucket>, k: int)
    requires !HasKey(b, k)
    ensures Get(b, k) == 0
  {
    if b != [] {
      assert b[0].key != k;
      forall i | 0 <= i < |b[1..]| ensures b[1..][i].key != k {
        assert b[1..][i] == b[i + 1];
      }
      GetMissing(b[1..], k);
    }
  }

  lemma {:induction false} PutGet(b: seq<Bucket>, k: int, v: int, j: int)
    ensures Get(Put(b, k, v), j) == if j == k then v else Get(b, j)
  {
    if b != [] {
      var p := Put(b, k, v);
      if k < b[0].key {
        assert p[1..] == b;
      } else if k == b[0].key {
        assert p[1..] == b[1..];
      } else {
        PutGet(b[1..], k, v, j);
        assert p[1..] == Put(b[1..], k, v);
      }
    }
  }

  lemma {:induction false} PutKeys(b: seq<Bucket>, k: int, v: int, j: int)
    ensures HasKey(Put(b, k, v), j) <==> j == k || HasKey(b, j)
  {
    var p := Put(b, k, v);
    HasKeyTail(p, j);
    if b != [] {
      HasKeyTail(b, j);
      if k < b[0].key {
        assert p[1..] == b;
      } else if k == b[0].key {
        assert p[1..] == b[1..];
      } else {
        PutKeys(b[1..], k, v, j);
        assert p[1..] == Put(b[1..], k, v);
      }
    }
  }

  lemma {:induction false} PutOk(b: seq<Bucket>, k: int, v: int)
    requires Sorted(b)
    ensures Sorted(Put(b, k, v))
    ensures Positive(b) && v > 0 ==> Positive(Put(b, k, v))
  {
    if b != [] && k > b[0].key {
      var q := Put(b[1..], k, v);
      PutOk(b[1..], k, v);
      forall i | 0 <= i < |q| ensures b[0].key < q[i].key {
        assert HasKey(q, q[i].key);
        PutKeys(b[1..], k, v, q[i].key);
      }
    }
  }

  // Put changes one bucket, and keeps the keys in order.
  lemma PutSorted(b: seq<Bucket>, k: int, v: int)
    requires Sorted(b)
    ensures Sorted(Put(b, k, v))
    ensures forall j :: Get(Put(b, k, v), j) == if j == k then v else Get(b, j)
    ensures forall j :: HasKey(Put(b, k, v), j) <==> j == k || HasKey(b, j)
    ensures Positive(b) && v > 0 ==> Positive(Put(b, k, v))
  {
    PutOk(b, k, v);
    forall j ensures Get(Put(b, k, v), j) == if j == k then v else Get(b, j) {
      PutGet(b, k, v, j);
    }
    forall j ensures HasKey(Put(b, k, v), j) <==> j == k || HasKey(b, j) {
      PutKeys(b, k, v, j);
    }
  }

  // Counting one more changes one bucket by one.
  lemma IncrementCounts(b: seq<Bucket>, k: int)
    requires Ok(b)
    ensures Ok(Increment(b, k))
    ensures forall j :: Get(Increment(b, k), j) == Get(b, j) + if j == k then 1 else 0
    ensures forall j :: HasKey(Increment(b, k), j) <==> j == k || HasKey(b, j)
  {
    GetNonNegative(b, k);
    PutSorted(b, k, Get(b, k) + 1);
  }

  lemma HasKeyTail(b: seq<Bucket>, k: int)
    requires b != []
    ensures HasKey(b, k) <==> b[0].key == k || HasKey(b[1..], k)
  {
    if HasKey(b, k) && b[0].key != k {
      var i :| 0 <= i < |b| && b[i].key == k;
      assert b[1..][i - 1].key == k;
    }
    if HasKey(b[1..], k) {
      var i :| 0 <= i < |b[1..]| && b[1..][i].key == k;
      assert b[i + 1].key == k;
    }
  }

  // On sorted buckets stopping at the first key that is not too old loses nothing: what is left
  // is every bucket not below the threshold.
  lemma {:induction false} DropBelowKeeps(b: seq<Bucket>, th: int)
    requires Sorted(b)
    ensures Sorted(DropBelow(b, th))
    ensures forall k :: Get(DropBelow(b, th), k) == if k >= th then Get(b, k) else 0
    ensures forall k :: HasKey(DropBelow(b, th), k) <==> k >= th && HasKey(b, k)
    ensures Positive(b) ==> Positive(DropBelow(b, th))
  {
    if b != [] {
      if b[0].key >= th {
        forall k | k < th ensures !HasKey(b, k) && Get(b, k) == 0 {
          GetMissing(b, k);
        }
      } else {
        DropBelowKeeps(b[1..], th);
        forall k ensures HasKey(DropBelow(b, th), k) <==> k >= th && HasKey(b, k) {
          HasKeyTail(b, k);
        }
        if Positive(b) {
          assert Positive(b[1..]);
        }
      }
    }
  }

  // Sorted buckets with positive counts are determined by what Get says.
  lemma {:induction false} SameGetSame(b: seq<Bucket>, c: seq<Bucket>)
    requires Sorted(b) && Sorted(c) && Positive(b) && Positive(c)
    requires forall k :: Get(b, k) == Get(c, k)
    ensures b == c
  {
    if b == [] {
      if c != [] {
        GetAt(c, 0);
      }
    } else {
      GetAt(b, 0);
      if c != [] {
        GetAt(c, 0);
        HeadIsLeast(b, c[0].key);
        HeadIsLeast(c, b[0].key);
        forall k ensures Get(b[1..], k) == Get(c[1..], k) {
          if k == b[0].key {
            GetMissing(b[1..], k);
            GetMissing(c[1..], k);
          } else {
            assert Get(b, k) == Get(c, k);
          }
        }
        SameGetSame(b[1..], c[1..]);
        assert b == [b[0]] + b[1..] && c == [c[0]] + c[1..];
      }
    }
  }

  lemma HeadIsLeast(b: seq<Bucket>, k: int)
    requires Sorted(b) && b != [] && Get(b, k) != 0
    ensures b[0].key <= k
  {
    if k < b[0].key {
      GetMissing(b, k);
    }
  }

  lemma AllZeroEmpty(b: seq<Bucket>)
    requires Ok(b) && forall k :: Get(b, k) == 0
    ensures b == []
  {
    if b != [] {
      GetAt(b, 0);
    }
  }

  // If b has at least the counts of c and d together, it has at least their total.
  lemma {:induction false} SumDominates(b: seq<Bucket>, c: seq<Bucket>, d: seq<Bucket>)
    requires Sorted(b) && Sorted(c) && Sorted(d) && Positive(b) && Positive(c) && Positive(d)
    requires forall k :: Get(c, k) + Get(d, k) <= Get(b, k)
    ensures Sum(c) + Sum(d) <= Sum(b)
  {
    if b == [] {
      if c != [] {
        GetAt(c, 0);
        GetNonNegative(d, c[0].key);
      } else if d != [] {
        GetAt(d, 0);
      }
    } else {
      var k0 := b[0].key;
      var c' := if c != [] && c[0].key == k0 then c[1..] else c;
      var d' := if d != [] && d[0].key == k0 then d[1..] else d;
      forall k ensures Get(c', k) + Get(d', k) <= Get(b[1..], k) {
        GetNonNegative(c, k);
        GetNonNegative(d, k);
        if k == k0 {
          GetMissing(b[1..], k);
          TailMissing(c, d, b);
          TailMissing(d, c, b);
        } else {
          assert Get(b, k) == Get(b[1..], k);
        }
      }
      SumDominates(b[1..], c', d');
      assert Get(c, k0) + Get(d, k0) <= Get(b, k0);
      GetNonNegative(c, k0);
      GetNonNegative(d, k0);
    }
  }

  lemma {:induction false} SumNonNegative(b: seq<Bucket>)
    requires Positive(b)
    ensures 0 <= Sum(b) && (b != [] ==> 0 < Sum(b))
  {
    if b != [] {
      SumNonNegative(b[1..]);
    }
  }

  lemma {:induction false} GetNonNegative(b: seq<Bucket>, k: int)
    requires Positive(b)
    ensures Get(b, k) >= 0
  {
    if b != [] {
      GetNonNegative(b[1..], k);
    }
  }

  // c's keys are among b's, so once b's least key is taken off c it is gone from c.
  lemma TailMissing(c: seq<Bucket>, d: seq<Bucket>, b: seq<Bucket>)
    requires Sorted(b) && Sorted(c) && b != [] && Positive(c) && Positive(d)
    requires forall k :: Get(c, k) + Get(d, k) <= Get(b, k)
    ensures Get(if c != [] && c[0].key == b[0].key then c[1..] else c, b[0].key) == 0
  {
    var k0 := b[0].key;
    if c != [] {
      if c[0].key == k0 {
        GetMissing(c[1..], k0);
      } else {
        GetAt(c, 0);
        GetNonNegative(d, c[0].key);
        assert Get(c, c[0].key) + Get(d, c[0].key) <= Get(b, c[0].key);
        HeadIsLeast(b, c[0].key);
        GetMissing(c, k0);
      }
    }
  }

  // ---------------------------------------------------------------- buckets stand for lists

  lemma {:induction false} BucketsOfCounts(keys: seq<int>)
    ensures Sorted(BucketsOf(keys)) && Positive(BucketsOf(keys))
    ensures forall k :: Get(BucketsOf(keys), k) == multiset(keys)[k]
    ensures Sum(BucketsOf(keys)) == |keys|
  {
    if keys != [] {
      var init, last := keys[..|keys| - 1], keys[|keys| - 1];
      BucketsOfCounts(init);
      assert keys == init + [last];
      IncrementCounts(BucketsOf(init), last);
      SumPut(BucketsOf(init), last, Get(BucketsOf(init), last) + 1);
    }
  }

  lemma {:induction false} SumPut(b: seq<Bucket>, k: int, v: int)
    requires Sorted(b)
    ensures Sum(Put(b, k, v)) == Sum(b) - Get(b, k) + v
  {
    if b == [] {
    } else if k < b[0].key {
      GetMissing(b, k);
      assert Put(b, k, v)[1..] == b;
    } else if k == b[0].key {
      assert Put(b, k, v)[1..] == b[1..];
    } else {
      SumPut(b[1..], k, v);
      assert Put(b, k, v)[1..] == Put(b[1..], k, v);
    }
  }

  lemma {:induction false} AboveCounts(keys: seq<int>, th: int)
    ensures forall k :: multiset(Above(keys, th))[k] == if k >= th then multiset(keys)[k] else 0
  {
    if keys != [] {
      var init, last := keys[..|keys| - 1], keys[|keys| - 1];
      assert keys == init + [last];
      AboveCounts(init, th);
    }
  }

  lemma AboveAppend(keys: seq<int>, k: int, th: int)
    ensures Above(keys + [k], th) == if k >= th then Above(keys, th) + [k] else Above(keys, th)
  {
    assert (keys + [k])[..|keys|] == keys;
  }

  lemma {:induction false} AboveTwice(keys: seq<int>, lo: int, hi: int)
    requires lo <= hi
    ensures Above(Above(keys, lo), hi) == Above(keys, hi)
  {
    if keys != [] {
      var init, last := keys[..|keys| - 1], keys[|keys| - 1];
      AboveTwice(init, lo, hi);
      if last >= lo {
        AboveAppend(Above(init, lo), last, hi);
      }
    }
  }

  // Early-exit expiry of the buckets is filtering of the list.
  lemma ExpireRefines(keys: seq<int>, th: int)
    ensures DropBelow(BucketsOf(keys), th) == BucketsOf(Above(keys, th))
  {
    BucketsOfCounts(keys);
    BucketsOfCounts(Above(keys, th));
    AboveCounts(keys, th);
    DropBelowKeeps(BucketsOf(keys), th);
    SameGetSame(DropBelow(BucketsOf(keys), th), BucketsOf(Above(keys, th)));
  }

  // ---------------------------------------------------------------- what expiry may have forgotten

  /** From the floor on the buckets hold every key of the list, whatever they hold below it. */
  ghost predicate Tracks(b: seq<Bucket>, keys: seq<int>, floor: int)
  {
    && Ok(b)
    && DropBelow(b, floor) == BucketsOf(Above(keys, floor))
  }

  lemma TracksAdd(b: seq<Bucket>, keys: seq<int>, floor: int, k: int)
    requires Tracks(b, keys, floor)
    ensures Tracks(Increment(b, k), keys + [k], floor)
  {
    IncrementCounts(b, k);
    var c := DropBelow(b, floor);
    DropBelowKeeps(b, floor);
    DropBelowKeeps(Increment(b, k), floor);
    AboveAppend(keys, k, floor);
    if k >= floor {
      assert (Above(keys, floor) + [k])[..|Above(keys, floor)|] == Above(keys, floor);
      IncrementCounts(c, k);
      SameGetSame(DropBelow(Increment(b, k), floor), Increment(c, k));
    } else {
      SameGetSame(DropBelow(Increment(b, k), floor), c);
    }
  }

  lemma TracksExpire(b: seq<Bucket>, keys: seq<int>, floor: int, th: int)
    requires Tracks(b, keys, floor) && floor <= th
    ensures Tracks(DropBelow(b, th), keys, th)
    ensures DropBelow(b, th) == BucketsOf(Above(keys, th))
  {
    var c := DropBelow(b, floor);
    DropBelowKeeps(b, floor);
    DropBelowKeeps(b, th);
    DropBelowKeeps(c, th);
    SameGetSame(DropBelow(b, th), DropBelow(c, th));
    ExpireRefines(Above(keys, floor), th);
    AboveTwice(keys, floor, th);
    ExpireRefines(Above(keys, th), th);
    AboveTwice(keys, th, th);
    DropBelowKeeps(DropBelow(b, th), th);
    SameGetSame(DropBelow(DropBelow(b, th), th), DropBelow(b, th));
  }

  // Buckets start at multiples of w, so there are at most n + 1 of them in a span of n * w.
  lemma {:induction false} BucketsInSpan(b: seq<Bucket>, lo: int, n: int, w: int)
    requires Sorted(b) && w > 0
    requires forall i :: 0 <= i < |b| ==> b[i].key % w == 0 && lo <= b[i].key <= lo + n * w
    ensures |b| <= if n < 0 then 0 else n + 1
  {
    if b != [] {
      assert 0 <= b[0].key - lo <= n * w;
      if |b| > 1 {
        var c := b[1..];
        forall i | 0 <= i < |c| ensures c[i].key % w == 0 && lo + w <= c[i].key <= (lo + w) + (n - 1) * w {
          assert c[i] == b[i + 1];
          MultiplesApart(b[0].key, c[i].key, w);
          assert (n - 1) * w == n * w - w;
        }
        BucketsInSpan(c, lo + w, n - 1, w);
      }
    }
  }

  lemma MultiplesApart(a: int, b: int, w: int)
    requires w > 0 && a % w == 0 && b % w == 0 && a < b
    ensures a + w <= b
  {
    assert a == w * (a / w) && b == w * (b / w);
    var d := b / w - a / w;
    assert w * d == b - a;
    if d >= 1 {
      Grows(w, d);
    }
  }
}
