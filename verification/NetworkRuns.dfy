/** One network over whole runs of requests and expiries. */
module NetworkRuns {
  import opened Data
  import opened Buckets
  import opened Network
  import WindowRuns

  datatype Op = Handle(req: Request, asset: bool) | Expire(r: Readings)

  function Step(n: Net, op: Op, w: Width, span: int): Net
  {
    match op
    case Handle(req, asset) => Handled(n, req, asset, w)
    case Expire(r) => Expired(n, r, span)
  }

  function Run(ops: seq<Op>, w: Width, span: int): Net
  {
    if ops == [] then EMPTY else Step(Run(ops[..|ops| - 1], w, span), ops[|ops| - 1], w, span)
  }

  lemma RunAppend(ops: seq<Op>, op: Op, w: Width, span: int)
    ensures Run(ops + [op], w, span) == Step(Run(ops, w, span), op, w, span)
  {
    assert (ops + [op])[..|ops|] == ops;
  }

  /** The totals are the sums of their maps, the parts do not exceed the whole, the ratio is one. */
  ghost predicate Books(n: Net)
  {
    && Ok(n.totalMap) && Ok(n.appMap) && Ok(n.otherMap)
    && n.total == Sum(n.totalMap) && n.app == Sum(n.appMap) && n.other == Sum(n.otherMap)
    && (forall k :: Get(n.appMap, k) + Get(n.otherMap, k) <= Get(n.totalMap, k))
    && 0 <= n.app && 0 <= n.other && n.app + n.other <= n.total
    && 0.0 <= n.ratio <= 1.0
    && (n.total > 0 ==> n.ratio == n.app as real / n.total as real)
  }

  lemma RefreshedBooks(n: Net)
    requires Ok(n.totalMap) && Ok(n.appMap) && Ok(n.otherMap) && 0.0 <= n.ratio <= 1.0
    requires forall k :: Get(n.appMap, k) + Get(n.otherMap, k) <= Get(n.totalMap, k)
    ensures Books(Refreshed(n))
  {
    SumDominates(n.totalMap, n.appMap, n.otherMap);
    SumNonNegative(n.appMap);
    SumNonNegative(n.otherMap);
    RatioInUnit(Sum(n.appMap), Sum(n.totalMap));
  }

  lemma HandledBooks(n: Net, req: Request, asset: bool, w: Width)
    requires Books(n)
    ensures Books(Handled(n, req, asset, w))
  {
    var key := KeyFor(req.time, w);
    IncrementCounts(n.totalMap, key);
    IncrementCounts(if asset then n.otherMap else n.appMap, key);
    RefreshedBooks(n.(appMap := if asset then n.appMap else Increment(n.appMap, key),
                      otherMap := if asset then Increment(n.otherMap, key) else n.otherMap,
                      totalMap := Increment(n.totalMap, key)));
  }

  lemma {:induction false} DropNone(b: seq<Bucket>, th: int)
    ensures |DropBelow(b, th)| <= |b|
    ensures |DropBelow(b, th)| == |b| ==> DropBelow(b, th) == b
  {
    if b != [] && b[0].key < th {
      DropNone(b[1..], th);
    }
  }

  // Parts that are expired no earlier than the whole still do not exceed it.
  lemma DropDominates(total: seq<Bucket>, app: seq<Bucket>, other: seq<Bucket>, atTotal: int, atApp: int, atOther: int)
    requires Ok(total) && Ok(app) && Ok(other) && atTotal <= atApp <= atOther
    requires forall k :: Get(app, k) + Get(other, k) <= Get(total, k)
    ensures Ok(DropBelow(total, atTotal)) && Ok(DropBelow(app, atApp)) && Ok(DropBelow(other, atOther))
    ensures forall k :: Get(DropBelow(app, atApp), k) + Get(DropBelow(other, atOther), k) <= Get(DropBelow(total, atTotal), k)
  {
    DropBelowKeeps(total, atTotal);
    DropBelowKeeps(app, atApp);
    DropBelowKeeps(other, atOther);
    forall k ensures Get(DropBelow(app, atApp), k) + Get(DropBelow(other, atOther), k) <= Get(DropBelow(total, atTotal), k) {
      GetNonNegative(app, k);
      GetNonNegative(other, k);
    }
  }

  // Also when nothing was removed and the totals are therefore not recomputed.
  lemma ExpiredBooks(n: Net, r: Readings, span: int)
    requires Books(n) && r.total <= r.app <= r.other
    ensures Books(Expired(n, r, span))
  {
    DropDominates(n.totalMap, n.appMap, n.otherMap, r.total - span, r.app - span, r.other - span);
    DropNone(n.totalMap, r.total - span);
    DropNone(n.appMap, r.app - span);
    DropNone(n.otherMap, r.other - span);
    RefreshedBooks(n.(totalMap := DropBelow(n.totalMap, r.total - span), appMap := DropBelow(n.appMap, r.app - span),
                      otherMap := DropBelow(n.otherMap, r.other - span), ips := DropOld(n.ips, r.ips - span)));
  }

  // After every request and every expiry the books are in order.
  lemma {:induction false} BooksInOrder(ops: seq<Op>, w: Width, span: int)
    requires forall i :: 0 <= i < |ops| && ops[i].Expire? ==> ops[i].r.total <= ops[i].r.app <= ops[i].r.other
    ensures Books(Run(ops, w, span))
  {
    if ops != [] {
      var init, op := ops[..|ops| - 1], ops[|ops| - 1];
      assert forall i :: 0 <= i < |init| ==> init[i] == ops[i];
      BooksInOrder(init, w, span);
      if op.Handle? {
        HandledBooks(Run(init, w, span), op.req, op.asset, w);
      } else {
        assert ops[|ops| - 1].r.total <= op.r.app <= op.r.other;
        ExpiredBooks(Run(init, w, span), op.r, span);
      }
    }
  }

  /** What holds of the data of every network that is in use. */
  ghost predicate Sound(n: Net)
  {
    n.asn.Some? && Books(n) && Bijection(n.ips)
  }

  lemma HandledSound(n: Net, req: Request, asset: bool, w: Width)
    requires n == EMPTY || Sound(n)
    ensures Sound(Handled(n, req, asset, w))
    ensures Handled(n, req, asset, w).asn == if n.asn.Some? then n.asn else Some(req.asn)
  {
    HandledBooks(n, req, asset, w);
    SeenIs(n.ips, req.time, req.source);
  }

  lemma ExpiredSound(n: Net, r: Readings, span: int)
    requires Sound(n) && r.total <= r.app <= r.other
    ensures Sound(Expired(n, r, span)) && Expired(n, r, span).asn == n.asn
  {
    ExpiredBooks(n, r, span);
    DropOldIs(n.ips, r.ips - span);
  }

  /** The autonomous system of the first request of a run. */
  function FirstSystem(ops: seq<Op>): Option<ASN>
  {
    if ops == [] then None else
      var first, op := FirstSystem(ops[..|ops| - 1]), ops[|ops| - 1];
      if first.None? && op.Handle? then Some(op.req.asn) else first
  }

  // In every run a network keeps the system it had in its first request.
  lemma {:induction false} KeepsFirstSystem(ops: seq<Op>, w: Width, span: int)
    ensures Run(ops, w, span).asn == FirstSystem(ops)
  {
    if ops != [] {
      KeepsFirstSystem(ops[..|ops| - 1], w, span);
    }
  }

  // ---------------------------------------------------------------- what the counters count

  datatype Which = All | App | Other

  function MapOf(n: Net, x: Which): seq<Bucket>
  {
    match x
    case All => n.totalMap
    case App => n.appMap
    case Other => n.otherMap
  }

  function CounterOf(n: Net, x: Which): int
  {
    match x
    case All => n.total
    case App => n.app
    case Other => n.other
  }

  function ReadingOf(r: Readings, x: Which): int
  {
    match x
    case All => r.total
    case App => r.app
    case Other => r.other
  }

  /** The times of all requests of a run that concern the counter. */
  function TimesOf(ops: seq<Op>, x: Which): seq<int>
  {
    if ops == [] then [] else
      var ts, op := TimesOf(ops[..|ops| - 1], x), ops[|ops| - 1];
      if op.Handle? && (x == All || op.asset == (x == Other)) then ts + [op.req.time] else ts
  }

  lemma ExpiredMap(n: Net, r: Readings, span: int, x: Which, th: int)
    requires th == ReadingOf(r, x) - span
    ensures MapOf(Expired(n, r, span), x) == DropBelow(MapOf(n, x), th)
  {
  }

  lemma HandledMap(n: Net, req: Request, asset: bool, w: Width, x: Which)
    ensures MapOf(Handled(n, req, asset, w), x)
         == if x == All || asset == (x == Other) then Increment(MapOf(n, x), KeyFor(req.time, w)) else MapOf(n, x)
  {
  }

  lemma {:induction false} MapTracks(ops: seq<Op>, w: Width, span: int, x: Which, floor: int)
    requires forall i :: 0 <= i < |ops| && ops[i].Expire? ==> ReadingOf(ops[i].r, x) - span <= floor
    ensures Tracks(MapOf(Run(ops, w, span), x), WindowRuns.Keys(TimesOf(ops, x), w), floor)
  {
    if ops != [] {
      var init, op := ops[..|ops| - 1], ops[|ops| - 1];
      assert forall i :: 0 <= i < |init| ==> init[i] == ops[i];
      MapTracks(init, w, span, x, floor);
      assert op.Expire? ==> ReadingOf(ops[|ops| - 1].r, x) - span <= floor;
      var n, n' := Run(init, w, span), Run(ops, w, span);
      match op
      case Handle(req, asset) =>
        HandledMap(n, req, asset, w, x);
        WindowRuns.TracksStep(MapOf(n, x), MapOf(n', x), TimesOf(init, x), TimesOf(ops, x), w, floor,
                              false, 0, x == All || asset == (x == Other), req.time);
      case Expire(r) =>
        var th := ReadingOf(r, x) - span;
        ExpiredMap(n, r, span, x, th);
        WindowRuns.TracksStep(MapOf(n, x), MapOf(n', x), TimesOf(init, x), TimesOf(ops, x), w, floor, true, th, false, 0);
    }
  }

  lemma BooksCounter(n: Net, x: Which)
    requires Books(n)
    ensures CounterOf(n, x) == Sum(MapOf(n, x)) && (n.total > 0 ==> n.ratio == n.app as real / n.total as real)
  {
  }

  // Right after an expiry each counter is the number of all requests ever handled that concern it and
  // whose slice is young enough, whatever earlier expiries removed, and the ratio is that of the counters.
  lemma CountersAfterExpire(ops: seq<Op>, w: Width, span: int, r: Readings, x: Which, th: int)
    requires r.total <= r.app <= r.other && th == ReadingOf(r, x) - span
    requires forall i :: 0 <= i < |ops| && ops[i].Expire? ==>
               ops[i].r.total <= ops[i].r.app <= ops[i].r.other && ReadingOf(ops[i].r, x) <= ReadingOf(r, x)
    ensures var young := Above(WindowRuns.Keys(TimesOf(ops, x), w), th);
            var n := Expired(Run(ops, w, span), r, span);
            && MapOf(n, x) == BucketsOf(young) && CounterOf(n, x) == |young|
            && (n.total > 0 ==> n.ratio == n.app as real / n.total as real)
  {
    var n, keys := Run(ops, w, span), WindowRuns.Keys(TimesOf(ops, x), w);
    MapTracks(ops, w, span, x, th);
    TracksExpire(MapOf(n, x), keys, th, th);
    BucketsOfCounts(Above(keys, th));
    ExpiredMap(n, r, span, x, th);
    BooksInOrder(ops, w, span);
    ExpiredBooks(n, r, span);
    BooksCounter(Expired(n, r, span), x);
  }

  // ---------------------------------------------------------------- when each address was seen last

  /** Is this pair the last request of its address, with no later request at its time by another? */
  predicate Current(ops: seq<Op>, x: Stamp)
  {
    ops != [] &&
    var init, op := ops[..|ops| - 1], ops[|ops| - 1];
    if op.Expire? then Current(init, x)
    else if Stamp(op.req.time, op.req.source) == x then true
    else op.req.time != x.time && op.req.source != x.ip && Current(init, x)
  }

  /** The map of times and addresses after a run: nothing else of the data matters to it. */
  function IpsOf(ops: seq<Op>, span: int): IPMap
  {
    if ops == [] then IPMap([], map[]) else
      var m := IpsOf(ops[..|ops| - 1], span);
      match ops[|ops| - 1]
      case Handle(req, _) => Seen(m, req.time, req.source)
      case Expire(r) => DropOld(m, r.ips - span)
  }

  lemma {:induction false} IpsOfRun(ops: seq<Op>, w: Width, span: int)
    ensures Run(ops, w, span).ips == IpsOf(ops, span)
  {
    if ops != [] {
      IpsOfRun(ops[..|ops| - 1], w, span);
    }
  }

  lemma {:induction false} IpsBijection(ops: seq<Op>, span: int)
    ensures Bijection(IpsOf(ops, span))
  {
    if ops != [] {
      var m := IpsOf(ops[..|ops| - 1], span);
      IpsBijection(ops[..|ops| - 1], span);
      match ops[|ops| - 1]
      case Handle(req, _) => SeenIs(m, req.time, req.source);
      case Expire(r) => DropOldIs(m, r.ips - span);
    }
  }

  lemma AlwaysBijection(ops: seq<Op>, w: Width, span: int)
    ensures Bijection(Run(ops, w, span).ips)
  {
    IpsOfRun(ops, w, span);
    IpsBijection(ops, span);
  }

  ghost predicate ClockAtMost(ops: seq<Op>, now: int)
  {
    forall i :: 0 <= i < |ops| && ops[i].Expire? ==> ops[i].r.ips <= now
  }

  // From the threshold on the map holds exactly the current pairs, whatever earlier expiries removed.
  lemma {:induction false} HoldsCurrent(ops: seq<Op>, span: int, now: int, x: Stamp)
    requires ClockAtMost(ops, now) && x.time >= now - span
    ensures x in IpsOf(ops, span).forward <==> Current(ops, x)
  {
    if ops != [] {
      var init, op := ops[..|ops| - 1], ops[|ops| - 1];
      var m := IpsOf(init, span);
      assert forall i :: 0 <= i < |init| ==> init[i] == ops[i];
      HoldsCurrent(init, span, now, x);
      IpsBijection(init, span);
      if op.Handle? {
        SeenIs(m, op.req.time, op.req.source);
      } else {
        assert ops[|ops| - 1].r.ips <= now;
        DropOldIs(m, op.r.ips - span);
      }
    }
  }

  // Right after an expiry of the addresses the map holds exactly the current pairs that are young enough.
  lemma ExactAfterExpire(ops: seq<Op>, w: Width, span: int, now: int, x: Stamp)
    requires ClockAtMost(ops, now)
    ensures Bijection(DropOld(Run(ops, w, span).ips, now - span))
    ensures x in DropOld(Run(ops, w, span).ips, now - span).forward <==> x.time >= now - span && Current(ops, x)
  {
    IpsOfRun(ops, w, span);
    IpsBijection(ops, span);
    DropOldIs(IpsOf(ops, span), now - span);
    if x.time >= now - span {
      HoldsCurrent(ops, span, now, x);
    }
  }

  /** The time of the last request of an address. */
  function LastSeen(ops: seq<Op>, ip: Bytes): Option<int>
  {
    if ops == [] then None else
      var op := ops[|ops| - 1];
      if op.Handle? && op.req.source == ip then Some(op.req.time) else LastSeen(ops[..|ops| - 1], ip)
  }

  ghost predicate DistinctTimes(ops: seq<Op>)
  {
    forall i, j :: 0 <= i < j < |ops| && ops[i].Handle? && ops[j].Handle? ==> ops[i].req.time != ops[j].req.time
  }

  lemma {:induction false} LastSeenAt(ops: seq<Op>, ip: Bytes) returns (i: nat)
    requires LastSeen(ops, ip).Some?
    ensures i < |ops| && ops[i].Handle? && ops[i].req.time == LastSeen(ops, ip).value && ops[i].req.source == ip
  {
    i := |ops| - 1;
    if !(ops[i].Handle? && ops[i].req.source == ip) {
      i := LastSeenAt(ops[..i], ip);
    }
  }

  lemma {:induction false} CurrentIsLast(ops: seq<Op>, x: Stamp)
    requires DistinctTimes(ops)
    ensures Current(ops, x) <==> LastSeen(ops, x.ip) == Some(x.time)
  {
    if ops != [] {
      var init, op := ops[..|ops| - 1], ops[|ops| - 1];
      assert forall i :: 0 <= i < |init| ==> init[i] == ops[i];
      CurrentIsLast(init, x);
      if op.Handle? && op.req.source != x.ip && LastSeen(init, x.ip).Some? {
        var i := LastSeenAt(init, x.ip);
        assert ops[i].req.time != ops[|ops| - 1].req.time;
      }
    }
  }

  // With pairwise distinct request times these are exactly the addresses whose last request is not
  // older than the threshold, each at the time of that request.
  lemma LastRequestsKept(ops: seq<Op>, w: Width, span: int, now: int, ip: Bytes, t: int)
    requires ClockAtMost(ops, now) && DistinctTimes(ops)
    ensures Stamp(t, ip) in DropOld(Run(ops, w, span).ips, now - span).forward <==>
              LastSeen(ops, ip) == Some(t) && t >= now - span
  {
    ExactAfterExpire(ops, w, span, now, Stamp(t, ip));
    CurrentIsLast(ops, Stamp(t, ip));
  }
}
