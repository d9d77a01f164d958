/** The requests of one network: counters per slice, their totals, and when each address was seen last. */
module Network {
  import opened Data
  import opened Buckets

  // ---------------------------------------------------------------- time <-> address

  datatype Stamp = Stamp(time: int, ip: Bytes)

  /** A map in both directions: the times in order with their addresses, and the time of each address. */
  datatype IPMap = IPMap(forward: seq<Stamp>, inverse: map<Bytes, int>)

  predicate InOrder(f: seq<Stamp>)
  {
    forall i, j :: 0 <= i < j < |f| ==> f[i].time < f[j].time
  }

  function WithoutTime(f: seq<Stamp>, t: int): seq<Stamp>
  {
    if f == [] then [] else if f[0].time == t then f[1..] else [f[0]] + WithoutTime(f[1..], t)
  }

  function Insert(f: seq<Stamp>, x: Stamp): seq<Stamp>
  {
    if f == [] || x.time < f[0].time then [x] + f else [f[0]] + Insert(f[1..], x)
  }

  function Find(f: seq<Stamp>, t: int): Option<Bytes>
  {
    if f == [] then None else if f[0].time == t then Some(f[0].ip) else Find(f[1..], t)
  }

  /** Removes a time with its address from both directions. */
  function Removed(m: IPMap, t: int): IPMap
  {
    match Find(m.forward, t)
    case None => m
    case Some(ip) => IPMap(WithoutTime(m.forward, t), m.inverse - {ip})
  }

  /** Stores a pair; whatever else had the time or the address goes. */
  function PutBoth(m: IPMap, t: int, ip: Bytes): IPMap
  {
    var m1 := Removed(m, t);
    var m2 := if ip in m1.inverse then Removed(m1, m1.inverse[ip]) else m1;
    IPMap(Insert(m2.forward, Stamp(t, ip)), m2.inverse[ip := t])
  }

  /** The map after a request: an address that is there already is taken out first. */
  function Seen(m: IPMap, t: int, ip: Bytes): IPMap
  {
    var m1 := if ip in m.inverse then Removed(m, m.inverse[ip]) else m;
    PutBoth(m1, t, ip)
  }

  function DropOld(m: IPMap, th: int): IPMap
    decreases |m.forward|
  {
    if m.forward == [] || m.forward[0].time >= th then m
    else DropOld(IPMap(m.forward[1..], m.inverse - {m.forward[0].ip}), th)
  }

  // ---------------------------------------------------------------- counters

  datatype Net = Net(asn: Option<ASN>, total: int, app: int, other: int, ratio: real,
                     totalMap: seq<Bucket>, appMap: seq<Bucket>, otherMap: seq<Bucket>, ips: IPMap)

  const EMPTY := Net(None, 0, 0, 0, 0.0, [], [], [], IPMap([], map[]))

  /** Totals and ratio recomputed from the maps; without requests the ratio stays. */
  function Refreshed(n: Net): Net
  {
    var total, app := Sum(n.totalMap), Sum(n.appMap);
    n.(total := total, app := app, other := Sum(n.otherMap),
       ratio := if total > 0 then app as real / total as real else n.ratio)
  }

  function Handled(n: Net, req: Request, asset: bool, w: Width): Net
  {
    var key := KeyFor(req.time, w);
    var n1 := n.(asn := if n.asn.None? then Some(req.asn) else n.asn,
                 appMap := if asset then n.appMap else Increment(n.appMap, key),
                 otherMap := if asset then Increment(n.otherMap, key) else n.otherMap,
                 totalMap := Increment(n.totalMap, key));
    Refreshed(n1).(ips := Seen(n.ips, req.time, req.source))
  }

  /** The clock readings of one expiry, in the order in which the code takes them. */
  datatype Readings = Readings(total: int, app: int, other: int, ips: int)
  {
    ghost predicate InOrder() { total <= app <= other <= ips }
  }

  function Expired(n: Net, r: Readings, span: int): Net
  {
    var n1 := n.(totalMap := DropBelow(n.totalMap, r.total - span), appMap := DropBelow(n.appMap, r.app - span),
                 otherMap := DropBelow(n.otherMap, r.other - span), ips := DropOld(n.ips, r.ips - span));
    if |n1.totalMap| + |n1.appMap| + |n1.otherMap| < |n.totalMap| + |n.appMap| + |n.otherMap| then Refreshed(n1) else n1
  }

  class NetworkData {
    var asn: Option<ASN>
    var total: int
    var app: int
    var other: int
    var ratio: real
    var totalMap: seq<Bucket>
    var appMap: seq<Bucket>
    var otherMap: seq<Bucket>
    var ipMap: IPMap
    const windowSize: Width
    const numWindows: int
    const isAsset: string -> bool

    function Value(): Net
      reads this
    {
      Net(asn, total, app, other, ratio, totalMap, appMap, otherMap, ipMap)
    }

    constructor (start: Net, windowSize: Width, numWindows: int, isAsset: string -> bool)
      ensures Value() == start
      ensures this.windowSize == windowSize && this.numWindows == numWindows && this.isAsset == isAsset
    {
      asn, total, app, other, ratio := start.asn, start.total, start.app, start.other, start.ratio;
      totalMap, appMap, otherMap, ipMap := start.totalMap, start.appMap, start.otherMap, start.ips;
      this.windowSize, this.numWindows, this.isAsset := windowSize, numWindows, isAsset;
    }

    method HandleRequest(r: Request)
      modifies this
      ensures Value() == Handled(old(Value()), r, isAsset(r.url), windowSize)
    {
      if asn.None? {
        asn := Some(r.asn);
      }
      var key := KeyFor(r.time, windowSize);
      if isAsset(r.url) {
        otherMap := Increment(otherMap, key);
      } else {
        appMap := Increment(appMap, key);
      }
      totalMap := Increment(totalMap, key);
      UpdateStats();
      if r.source in ipMap.inverse {
        ipMap := Removed(ipMap, ipMap.inverse[r.source]);
      }
      ipMap := PutBoth(ipMap, r.time, r.source);
    }

    method UpdateStats()
      modifies this
      ensures Value() == Refreshed(old(Value()))
      ensures total == Sum(totalMap) && app == Sum(appMap) && other == Sum(otherMap)
      ensures if total > 0 then ratio * total as real == app as real else ratio == old(ratio)
    {
      total := UpdateCount(totalMap);
      app := UpdateCount(appMap);
      other := UpdateCount(otherMap);
      if total > 0 {
        ratio := app as real / total as real;
        RatioIs(app, total);
      }
    }

    method ExpireIPs(now: int) returns (numRemoved: int)
      modifies this
      ensures Value() == old(Value()).(ips := DropOld(old(ipMap), now - windowSize * numWindows))
    {
      var threshold := now - windowSize * numWindows;
      numRemoved := 0;
      while ipMap.forward != []
        invariant DropOld(ipMap, threshold) == DropOld(old(ipMap), threshold)
        invariant Value() == old(Value()).(ips := ipMap)
        decreases |ipMap.forward|
      {
        if ipMap.forward[0].time >= threshold {
          break;
        }
        ipMap := IPMap(ipMap.forward[1..], ipMap.inverse - {ipMap.forward[0].ip});
        numRemoved := numRemoved + 1;
      }
    }

    method Expire(r: Readings)
      modifies this
      ensures Value() == Expired(old(Value()), r, windowSize * numWindows)
    {
      var numRemoved := 0;
      var n;
      totalMap, n := ExpireStats(totalMap, r.total - windowSize * numWindows);
      numRemoved := numRemoved + n;
      appMap, n := ExpireStats(appMap, r.app - windowSize * numWindows);
      numRemoved := numRemoved + n;
      otherMap, n := ExpireStats(otherMap, r.other - windowSize * numWindows);
      numRemoved := numRemoved + n;
      var _ := ExpireIPs(r.ips);
      if numRemoved > 0 {
        UpdateStats();
      }
    }
  }

  method UpdateCount(stats: seq<Bucket>) returns (total: int)
    ensures total == Sum(stats)
  {
    total := 0;
    for i := 0 to |stats|
      invariant total + Sum(stats[i..]) == Sum(stats)
    {
      assert stats[i..][1..] == stats[i + 1..];
      total := total + stats[i].count;
    }
  }

  method ExpireStats(stats: seq<Bucket>, threshold: int) returns (left: seq<Bucket>, numRemoved: nat)
    ensures left == DropBelow(stats, threshold) && numRemoved == |stats| - |left|
  {
    left, numRemoved := stats, 0;
    while left != []
      invariant DropBelow(left, threshold) == DropBelow(stats, threshold) && numRemoved == |stats| - |left|
      decreases |left|
    {
      if left[0].key >= threshold {
        break;
      }
      left := left[1..];
      numRemoved := numRemoved + 1;
    }
  }

  // ---------------------------------------------------------------- the map in both directions

  /** The two directions are inverse to each other; so each time and each address occur at most once. */
  ghost predicate Bijection(m: IPMap)
  {
    && InOrder(m.forward)
    && (forall x :: x in m.forward <==> x.ip in m.inverse && m.inverse[x.ip] == x.time)
  }

  lemma InTail(f: seq<Stamp>, x: Stamp)
    requires f != []
    ensures x in f <==> x == f[0] || x in f[1..]
  {
  }

  lemma HeadEarlier(f: seq<Stamp>, x: Stamp)
    requires InOrder(f) && f != [] && x in f[1..]
    ensures f[0].time < x.time
  {
    var i :| 0 <= i < |f[1..]| && f[1..][i] == x;
    assert x == f[i + 1];
  }

  lemma Paired(m: IPMap, ip: Bytes)
    requires Bijection(m) && ip in m.inverse
    ensures Stamp(m.inverse[ip], ip) in m.forward
  {
  }

  lemma {:induction false} FindIs(f: seq<Stamp>, t: int)
    requires InOrder(f)
    ensures forall x :: x in f && x.time == t ==> Find(f, t) == Some(x.ip)
    ensures Find(f, t).Some? ==> Stamp(t, Find(f, t).value) in f
  {
    if f != [] {
      FindIs(f[1..], t);
      forall x | x in f && x.time == t ensures Find(f, t) == Some(x.ip) {
        InTail(f, x);
        if x in f[1..] {
          HeadEarlier(f, x);
        }
      }
    }
  }

  lemma {:induction false} WithoutTimeIs(f: seq<Stamp>, t: int)
    requires InOrder(f)
    ensures InOrder(WithoutTime(f, t))
    ensures forall x :: x in WithoutTime(f, t) <==> x in f && x.time != t
  {
    if f != [] {
      WithoutTimeIs(f[1..], t);
      forall x ensures x in WithoutTime(f, t) <==> x in f && x.time != t {
        InTail(f, x);
        if x in f[1..] {
          HeadEarlier(f, x);
        }
        if f[0].time != t {
          InTail([f[0]] + WithoutTime(f[1..], t), x);
        }
      }
      WithoutTimeOrder(f, t);
    }
  }

  lemma WithoutTimeOrder(f: seq<Stamp>, t: int)
    requires InOrder(f) && f != [] && InOrder(WithoutTime(f[1..], t))
    requires forall x :: x in WithoutTime(f[1..], t) ==> x in f[1..]
    ensures InOrder(WithoutTime(f, t))
  {
    var w := WithoutTime(f[1..], t);
    forall i | 0 <= i < |w| ensures f[0].time < w[i].time {
      assert w[i] in w;
      HeadEarlier(f, w[i]);
    }
  }

  lemma {:induction false} InsertIs(f: seq<Stamp>, x: Stamp)
    requires InOrder(f) && forall y :: y in f ==> y.time != x.time
    ensures InOrder(Insert(f, x))
    ensures forall y :: y in Insert(f, x) <==> y in f || y == x
  {
    if f != [] && x.time >= f[0].time {
      assert f[0] in f;
      assert forall y :: y in f[1..] ==> y in f;
      InsertIs(f[1..], x);
      var r := Insert(f[1..], x);
      forall y ensures y in Insert(f, x) <==> y in f || y == x {
        InTail(f, y);
        InTail([f[0]] + r, y);
      }
      forall i | 0 <= i < |r| ensures f[0].time < r[i].time {
        assert r[i] in f[1..] || r[i] == x;
        if r[i] in f[1..] {
          HeadEarlier(f, r[i]);
        }
      }
    }
  }

  lemma RemovedIs(m: IPMap, t: int)
    requires Bijection(m)
    ensures Bijection(Removed(m, t))
    ensures forall x :: x in Removed(m, t).forward <==> x in m.forward && x.time != t
  {
    FindIs(m.forward, t);
    WithoutTimeIs(m.forward, t);
  }

  // After a request the map has its pair, and of the others those with another time and another address.
  lemma SeenIs(m: IPMap, t: int, ip: Bytes)
    requires Bijection(m)
    ensures Bijection(Seen(m, t, ip))
    ensures forall x :: x in Seen(m, t, ip).forward <==> x == Stamp(t, ip) || (x in m.forward && x.time != t && x.ip != ip)
  {
    if ip in m.inverse {
      RemovedIs(m, m.inverse[ip]);
      assert Stamp(m.inverse[ip], ip) in m.forward;
    }
    var m1 := if ip in m.inverse then Removed(m, m.inverse[ip]) else m;
    assert forall x :: x in m1.forward <==> x in m.forward && x.ip != ip;
    PutBothIs(m1, t, ip);
  }

  lemma PutBothIs(m: IPMap, t: int, ip: Bytes)
    requires Bijection(m)
    requires forall x :: x in m.forward ==> x.ip != ip
    ensures Bijection(PutBoth(m, t, ip))
    ensures forall x :: x in PutBoth(m, t, ip).forward <==> x == Stamp(t, ip) || (x in m.forward && x.time != t)
  {
    var m1 := Removed(m, t);
    RemovedIs(m, t);
    if ip in m1.inverse {
      Paired(m1, ip);
    }
    InsertIs(m1.forward, Stamp(t, ip));
  }

  lemma {:induction false} DropOldIs(m: IPMap, th: int)
    requires Bijection(m)
    ensures Bijection(DropOld(m, th))
    ensures forall x :: x in DropOld(m, th).forward <==> x in m.forward && x.time >= th
    decreases |m.forward|
  {
    var f := m.forward;
    if f != [] {
      forall x | x in f ensures f[0].time <= x.time && (x.time == f[0].time ==> x == f[0]) {
        if x != f[0] {
          HeadEarlier(f, x);
        }
      }
      if f[0].time < th {
        assert f[0] in f;
        assert forall x :: x in f <==> x == f[0] || x in f[1..];
        forall x | x in f[1..] ensures x != f[0] && x.ip != f[0].ip {
          HeadEarlier(f, x);
        }
        DropOldIs(IPMap(f[1..], m.inverse - {f[0].ip}), th);
      }
    }
  }
}
