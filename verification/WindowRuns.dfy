/**
 A window after any run of its operations, against the plain list of all event times ever added.
 */
module WindowRuns {
  import opened Buckets

  datatype Op = Add(t: int) | Expire(now: int)

  /** The buckets after a run on an empty window, computed as Window's methods do. */
  function Run(ops: seq<Op>, w: Width, n: int): seq<Bucket>
  {
    if ops == [] then [] else
      var b := Run(ops[..|ops| - 1], w, n);
      match ops[|ops| - 1]
      case Add(t) => Increment(b, KeyFor(t, w))
      case Expire(now) => DropBelow(b, now - w * n)
  }

  /** The times of all events of a run. */
  function Times(ops: seq<Op>): seq<int>
  {
    if ops == [] then [] else
      var ts := Times(ops[..|ops| - 1]);
      match ops[|ops| - 1]
      case Add(t) => ts + [t]
      case Expire(_) => ts
  }

  function Keys(ts: seq<int>, w: Width): (ks: seq<int>)
    ensures |ks| == |ts|
  {
    seq(|ts|, i requires 0 <= i < |ts| => KeyFor(ts[i], w))
  }

  /** How many of the times are not before x. */
  function CountSince(ts: seq<int>, x: int): nat
  {
    |Above(ts, x)|
  }

  ghost predicate ClockAtMost(ops: seq<Op>, now: int)
  {
    forall i :: 0 <= i < |ops| && ops[i].Expire? ==> ops[i].now <= now
  }

  lemma KeysAppend(ts: seq<int>, t: int, w: Width)
    ensures Keys(ts + [t], w) == Keys(ts, w) + [KeyFor(t, w)]
  {
  }

  lemma {:induction false} RunTracks(ops: seq<Op>, w: Width, n: int, now: int)
    requires ClockAtMost(ops, now)
    ensures Tracks(Run(ops, w, n), Keys(Times(ops), w), now - w * n)
  {
    if ops != [] {
      var init, last := ops[..|ops| - 1], ops[|ops| - 1];
      assert ops == init + [last];
      match last
      case Add(t) =>
        RunTracks(init, w, n, now);
        KeysAppend(Times(init), t, w);
        TracksAdd(Run(init, w, n), Keys(Times(init), w), now - w * n, KeyFor(t, w));
      case Expire(at) =>
        assert ops[|ops| - 1].now <= now;
        assert forall i :: 0 <= i < |init| ==> init[i] == ops[i];
        RunTracks(init, w, n, now);
        TracksFromEarlier(Run(init, w, n), Keys(Times(init), w), at - w * n, now - w * n);
    }
  }

  // An expiry at an earlier threshold forgets nothing that counts from the later one on.
  lemma TracksFromEarlier(b: seq<Bucket>, keys: seq<int>, th: int, floor: int)
    requires Tracks(b, keys, floor) && th <= floor
    ensures Tracks(DropBelow(b, th), keys, floor)
  {
    var c := DropBelow(b, th);
    DropBelowKeeps(b, th);
    DropBelowKeeps(b, floor);
    DropBelowKeeps(c, floor);
    SameGetSame(DropBelow(c, floor), DropBelow(b, floor));
  }

  // What one step of a run does to a window: an expiry below the floor, and maybe one more event.
  lemma TracksStep(b: seq<Bucket>, b': seq<Bucket>, ts: seq<int>, ts': seq<int>, w: Width, floor: int,
                   expires: bool, th: int, adds: bool, t: int)
    requires Tracks(b, Keys(ts, w), floor) && (expires ==> th <= floor)
    requires ts' == if adds then ts + [t] else ts
    requires var left := if expires then DropBelow(b, th) else b; b' == if adds then Increment(left, KeyFor(t, w)) else left
    ensures Tracks(b', Keys(ts', w), floor)
  {
    TracksFromEarlier(b, Keys(ts, w), if expires then th else floor, floor);
    KeysAppend(ts, t, w);
    TracksAdd(if expires then DropBelow(b, th) else b, Keys(ts, w), floor, KeyFor(t, w));
  }

  // Right after an expiry the buckets are those of all events ever added whose key is young enough,
  // whatever earlier expiries removed, and the total is their number.
  lemma ExactAfterExpire(ops: seq<Op>, w: Width, n: int, now: int)
    requires ClockAtMost(ops, now)
    ensures var young := Above(Keys(Times(ops), w), now - w * n);
            var b := Run(ops + [Expire(now)], w, n);
            b == BucketsOf(young) && Sum(b) == |young| && forall k :: Get(b, k) == multiset(young)[k]
  {
    assert (ops + [Expire(now)])[..|ops|] == ops;
    RunTracks(ops, w, n, now);
    TracksExpire(Run(ops, w, n), Keys(Times(ops), w), now - w * n, now - w * n);
    BucketsOfCounts(Above(Keys(Times(ops), w), now - w * n));
  }

  // Keys round down by less than w, so the total after an expiry lies between two exact counts.
  lemma CountBetween(ops: seq<Op>, w: Width, n: int, now: int)
    requires ClockAtMost(ops, now)
    requires forall i :: 0 <= i < |Times(ops)| ==> Times(ops)[i] >= 0
    ensures var total := Sum(Run(ops + [Expire(now)], w, n));
            CountSince(Times(ops), now - w * (n - 1)) <= total <= CountSince(Times(ops), now - w * n)
  {
    ExactAfterExpire(ops, w, n, now);
    assert w * (n - 1) == w * n - w;
    KeysBetween(Times(ops), w, now - w * n);
  }

  lemma {:induction false} KeysBetween(ts: seq<int>, w: Width, x: int)
    requires forall i :: 0 <= i < |ts| ==> ts[i] >= 0
    ensures |Above(ts, x + w)| <= |Above(Keys(ts, w), x)| <= |Above(ts, x)|
  {
    if ts != [] {
      var init, last := ts[..|ts| - 1], ts[|ts| - 1];
      assert Keys(ts, w)[..|ts| - 1] == Keys(init, w);
      KeysBetween(init, w, x);
      KeyForSlice(last, w);
    }
  }

  // If no event lies in the future, an expiry leaves at most n + 1 buckets.
  lemma BucketBound(ops: seq<Op>, w: Width, n: int, now: int)
    requires ClockAtMost(ops, now) && now >= 0
    requires forall i :: 0 <= i < |Times(ops)| ==> Times(ops)[i] <= now
    ensures |Run(ops + [Expire(now)], w, n)| <= if n < 0 then 0 else n + 1
  {
    ExactAfterExpire(ops, w, n, now);
    var b := Run(ops + [Expire(now)], w, n);
    var keys := Keys(Times(ops), w);
    BucketsOfCounts(Above(keys, now - w * n));
    AboveCounts(keys, now - w * n);
    forall i | 0 <= i < |b| ensures b[i].key % w == 0 && now - n * w <= b[i].key <= now - n * w + n * w {
      GetAt(b, i);
      assert b[i].key in multiset(keys);
      var j :| 0 <= j < |keys| && keys[j] == b[i].key;
      KeyForSlice(Times(ops)[j], w);
      assert w * n == n * w;
    }
    BucketsInSpan(b, now - n * w, n, w);
  }
}
