/** All networks: the periodic grouping by autonomous system and by network, and the blocks that follow. */
module Networks {
  import opened Data
  import opened Sums
  import opened Store
  import opened Block
  import Buckets
  import opened Network
  import NetworkRuns

  type Width = Buckets.Width

  // ---------------------------------------------------------------- grouping

  /** What is added up for one group; the ratio is the sum of the ratios of its members. */
  datatype Group = Group(asn: ASN, total: int, app: int, other: int, ratio: real, count: nat)
  {
    function Mean(): real
      requires count > 0
    {
      ratio / count as real
    }
  }

  /** The groups with one more network; a new group takes its system from its first member. */
  function Joined<K(==)>(groups: map<K, Group>, k: K, asn: ASN, n: Net): map<K, Group>
  {
    var g := if k in groups then groups[k] else Group(asn, 0, 0, 0, 0.0, 0);
    groups[k := Group(g.asn, g.total + n.total, g.app + n.app, g.other + n.other, g.ratio + n.ratio, g.count + 1)]
  }

  /** A network with its autonomous system, as it is visited. */
  datatype Visit = Visit(asn: ASN, net: Net)

  function Grouped<K(==)>(visits: seq<Visit>, keyOf: ASN -> K): map<K, Group>
  {
    if visits == [] then map[] else
      var v := visits[|visits| - 1];
      Joined(Grouped(visits[..|visits| - 1], keyOf), keyOf(v.asn), v.asn, v.net)
  }

  function Total(visits: seq<Visit>): int
  {
    if visits == [] then 0 else Total(visits[..|visits| - 1]) + visits[|visits| - 1].net.total
  }

  /** The visits whose key is k, in order. */
  function Members<K(==)>(visits: seq<Visit>, keyOf: ASN -> K, k: K): seq<Visit>
  {
    if visits == [] then [] else
      var v := visits[|visits| - 1];
      var ms := Members(visits[..|visits| - 1], keyOf, k);
      if keyOf(v.asn) == k then ms + [v] else ms
  }

  function Ratios(visits: seq<Visit>): real
  {
    if visits == [] then 0.0 else Ratios(visits[..|visits| - 1]) + visits[|visits| - 1].net.ratio
  }

  function Apps(visits: seq<Visit>): int
  {
    if visits == [] then 0 else Apps(visits[..|visits| - 1]) + visits[|visits| - 1].net.app
  }

  function Others(visits: seq<Visit>): int
  {
    if visits == [] then 0 else Others(visits[..|visits| - 1]) + visits[|visits| - 1].net.other
  }

  ghost function GroupTotals<K(!new)>(m: map<K, Group>): map<K, int>
  {
    map k | k in m :: m[k].total
  }

  ghost function GroupCounts<K(!new)>(m: map<K, Group>): map<K, int>
  {
    map k | k in m :: m[k].count
  }

  // A group is exactly what its members add up to, and there is one for every key that occurs.
  lemma {:induction false} GroupIsMembers<K(!new)>(visits: seq<Visit>, keyOf: ASN -> K, k: K)
    ensures var ms, groups := Members(visits, keyOf, k), Grouped(visits, keyOf);
            && (k in groups <==> ms != [])
            && (k in groups ==>
                  && groups[k].total == Total(ms) && groups[k].app == Apps(ms) && groups[k].other == Others(ms)
                  && groups[k].ratio == Ratios(ms) && groups[k].count == |ms|
                  && groups[k].asn == ms[0].asn && keyOf(groups[k].asn) == k)
  {
    if visits != [] {
      var init, v := visits[..|visits| - 1], visits[|visits| - 1];
      GroupIsMembers(init, keyOf, k);
      var ms := Members(init, keyOf, k);
      if keyOf(v.asn) == k {
        assert (ms + [v])[..|ms|] == ms;
      }
    }
  }

  // Grouping conserves the requests and the number of networks, whatever they are grouped by.
  lemma {:induction false} GroupingConserves<K(!new)>(visits: seq<Visit>, keyOf: ASN -> K)
    ensures SumOf(GroupTotals(Grouped(visits, keyOf))) == Total(visits)
    ensures SumOf(GroupCounts(Grouped(visits, keyOf))) == |visits|
  {
    var groups := Grouped(visits, keyOf);
    if visits == [] {
      assert GroupTotals(groups) == map[] && GroupCounts(groups) == map[];
    } else {
      var init, v := visits[..|visits| - 1], visits[|visits| - 1];
      var before, k := Grouped(init, keyOf), keyOf(v.asn);
      GroupingConserves(init, keyOf);
      SumUpdate(GroupTotals(before), k, groups[k].total);
      SumUpdate(GroupCounts(before), k, groups[k].count);
      assert GroupTotals(groups) == GroupTotals(before)[k := groups[k].total];
      assert GroupCounts(groups) == GroupCounts(before)[k := groups[k].count];
    }
  }

  // The mean ratio of every group is a ratio.
  lemma MeansInUnit<K(!new)>(visits: seq<Visit>, keyOf: ASN -> K, k: K)
    requires forall i :: 0 <= i < |visits| ==> 0.0 <= visits[i].net.ratio <= 1.0
    requires k in Grouped(visits, keyOf)
    ensures Grouped(visits, keyOf)[k].count > 0 && 0.0 <= Grouped(visits, keyOf)[k].Mean() <= 1.0
  {
    GroupIsMembers(visits, keyOf, k);
    MembersAreVisits(visits, keyOf, k);
    var ms := Members(visits, keyOf, k);
    RatiosBetween(ms);
    DivideUnit(Ratios(ms), |ms|);
  }

  lemma {:induction false} MembersAreVisits<K>(visits: seq<Visit>, keyOf: ASN -> K, k: K)
    ensures forall m :: m in Members(visits, keyOf, k) <==> m in visits && keyOf(m.asn) == k
  {
    if visits != [] {
      MembersAreVisits(visits[..|visits| - 1], keyOf, k);
      assert visits == visits[..|visits| - 1] + [visits[|visits| - 1]];
    }
  }

  lemma {:induction false} RatiosBetween(ms: seq<Visit>)
    requires forall m :: m in ms ==> 0.0 <= m.net.ratio <= 1.0
    ensures 0.0 <= Ratios(ms) <= |ms| as real
  {
    if ms != [] {
      assert ms[|ms| - 1] in ms;
      RatiosBetween(ms[..|ms| - 1]);
    }
  }

  lemma DivideUnit(a: real, n: int)
    requires 0.0 <= a <= n as real && n > 0
    ensures 0.0 <= a / n as real <= 1.0
  {
    var t := n as real;
    assert a / t * t == a;
    assert (1.0 - a / t) * t == t - a;
  }

  // ---------------------------------------------------------------- blocking

  datatype Limits = Limits(maxApp: int, maxRatio: real)

  predicate Passes(g: Group, p: Limits)
    requires g.count > 0
  {
    g.total > p.maxApp && g.Mean() > p.maxRatio
  }

  predicate AllCount(gs: seq<Group>)
  {
    forall i :: 0 <= i < |gs| ==> gs[i].count > 0
  }

  /** What a loop over groups blocks. */
  datatype Kind = AsSystem | AsNetwork

  function KeyOf(x: Kind, a: ASN): Bytes
  {
    match x
    case AsSystem => ASNKey(a.number)
    case AsNetwork => CIDRKey(a.network)
  }

  function RecordOf(x: Kind, g: Group): Record
  {
    match x
    case AsSystem => ASNRecord(g.asn.number, GroupTooMany)
    case AsNetwork => NetworkRecord(g.asn.network, GroupTooMany)
  }

  /** The block list after one group has been tried. */
  function Tried(db: Db, x: Kind, g: Group, a: Attempt, p: Limits, ttl: int): Db
    requires g.count > 0
  {
    if !Passes(g, p) then db else
      match x
      case AsSystem => BlockASNOf(db, Some(g.asn), RecordOf(x, g), a.now, ttl, a.io).0
      case AsNetwork => BlockNetworkOf(db, Some(g.asn.network), g.asn, RecordOf(x, g), a.now, ttl, a.io).0
  }

  /** The block list after all groups have been tried, in the order in which they come. */
  function After(db: Db, x: Kind, gs: seq<Group>, at: nat -> Attempt, p: Limits, ttl: int): Db
    requires AllCount(gs)
  {
    if gs == [] then db else
      var n := |gs| - 1;
      Tried(After(db, x, gs[..n], at, p, ttl), x, gs[n], at(n), p, ttl)
  }

  /** Does the attempt write a record? */
  predicate Writes(db: Db, x: Kind, g: Group, a: Attempt, p: Limits)
    requires g.count > 0
  {
    && g.total > p.maxApp && g.ratio / g.count as real > p.maxRatio && !a.io.getFails && !a.io.writeFails
    && !SeenBlocked(db, g.asn, a.now, a.io) && !LiveKey(db, KeyOf(x, g.asn), a.now)
  }

  /** Does the i-th attempt of the loop write the record of key k? */
  ghost predicate WritesAt(db: Db, x: Kind, gs: seq<Group>, at: nat -> Attempt, p: Limits, ttl: int, i: nat, k: Bytes)
    requires i < |gs| && AllCount(gs)
  {
    k == KeyOf(x, gs[i].asn) && Writes(After(db, x, gs[..i], at, p, ttl), x, gs[i], at(i), p)
  }

  ghost predicate AtMost(at: nat -> Attempt, n: nat, end: int)
  {
    forall i: nat :: i < n ==> at(i).now <= end
  }

  lemma TriedIs(db: Db, x: Kind, g: Group, a: Attempt, p: Limits, ttl: int)
    requires g.count > 0
    ensures Tried(db, x, g, a, p, ttl)
         == if Writes(db, x, g, a, p) then db[KeyOf(x, g.asn) := Entry(RecordOf(x, g), Some(a.now + ttl))] else db
  {
  }

  lemma AfterOne(db: Db, x: Kind, gs: seq<Group>, at: nat -> Attempt, p: Limits, ttl: int, i: nat)
    requires AllCount(gs) && i < |gs|
    ensures After(db, x, gs[..i + 1], at, p, ttl) == Tried(After(db, x, gs[..i], at, p, ttl), x, gs[i], at(i), p, ttl)
  {
    assert gs[..i + 1][..i] == gs[..i];
  }

  // At its own attempt a group that fails the test is blocked if and only if it was before or the
  // store can be read and written.
  lemma BlockedAtOwnAttempt(db: Db, x: Kind, gs: seq<Group>, at: nat -> Attempt, p: Limits, ttl: int, i: nat)
    requires ttl > 0 && AllCount(gs) && i < |gs|
    requires gs[i].total > p.maxApp && gs[i].ratio / gs[i].count as real > p.maxRatio
    ensures ASNBlocked(After(db, x, gs[..i + 1], at, p, ttl), gs[i].asn, at(i).now) <==>
              ASNBlocked(After(db, x, gs[..i], at, p, ttl), gs[i].asn, at(i).now) || at(i).CanWrite()
  {
    AfterOne(db, x, gs, at, p, ttl, i);
    TriedIs(After(db, x, gs[..i], at, p, ttl), x, gs[i], at(i), p, ttl);
  }

  /** Does the i-th attempt write the record of the key, to last until the end? */
  ghost predicate WritesToLast(db: Db, x: Kind, gs: seq<Group>, at: nat -> Attempt, p: Limits, ttl: int, i: nat, k: Bytes, end: int)
    requires i < |gs| && AllCount(gs)
  {
    WritesAt(db, x, gs, at, p, ttl, i, k) && end < at(i).now + ttl
  }

  ghost predicate WrittenToLast(db: Db, x: Kind, gs: seq<Group>, at: nat -> Attempt, p: Limits, ttl: int, k: Bytes, end: int)
    requires AllCount(gs)
  {
    exists i: nat :: i < |gs| && WritesToLast(db, x, gs, at, p, ttl, i, k, end)
  }

  lemma WrittenMore(db: Db, x: Kind, gs: seq<Group>, at: nat -> Attempt, p: Limits, ttl: int, k: Bytes, end: int)
    requires AllCount(gs) && gs != []
    ensures var n := |gs| - 1;
            WrittenToLast(db, x, gs, at, p, ttl, k, end) <==>
              WrittenToLast(db, x, gs[..n], at, p, ttl, k, end) || WritesToLast(db, x, gs, at, p, ttl, n, k, end)
  {
    var n := |gs| - 1;
    if WrittenToLast(db, x, gs[..n], at, p, ttl, k, end) {
      var i: nat :| i < n && WritesToLast(db, x, gs[..n], at, p, ttl, i, k, end);
      WritesInit(db, x, gs, at, p, ttl, i, k, end);
    }
    if WrittenToLast(db, x, gs, at, p, ttl, k, end) {
      var i: nat :| i < |gs| && WritesToLast(db, x, gs, at, p, ttl, i, k, end);
      if i < n {
        WritesInit(db, x, gs, at, p, ttl, i, k, end);
      }
    }
  }

  lemma WritesInit(db: Db, x: Kind, gs: seq<Group>, at: nat -> Attempt, p: Limits, ttl: int, i: nat, k: Bytes, end: int)
    requires AllCount(gs) && i < |gs| - 1
    ensures WritesToLast(db, x, gs[..|gs| - 1], at, p, ttl, i, k, end) <==> WritesToLast(db, x, gs, at, p, ttl, i, k, end)
  {
    assert gs[..|gs| - 1][..i] == gs[..i];
  }

  // After the loop a key is live if and only if its record was there before and lasts until then, or it
  // was written on the way and its time is not over.
  lemma {:induction false} LiveAtEnd(db: Db, x: Kind, gs: seq<Group>, at: nat -> Attempt, p: Limits, ttl: int, k: Bytes, end: int)
    requires AllCount(gs) && AtMost(at, |gs|, end)
    ensures LiveKey(After(db, x, gs, at, p, ttl), k, end) <==>
              LiveKey(db, k, end) || WrittenToLast(db, x, gs, at, p, ttl, k, end)
  {
    if gs != [] {
      var n := |gs| - 1;
      LiveAtEnd(db, x, gs[..n], at, p, ttl, k, end);
      WrittenMore(db, x, gs, at, p, ttl, k, end);
      assert at(n).now <= end;
      LiveAfterOne(After(db, x, gs[..n], at, p, ttl), x, gs[n], at(n), p, ttl, k, end);
    }
  }

  lemma LiveAfterOne(db: Db, x: Kind, g: Group, a: Attempt, p: Limits, ttl: int, k: Bytes, end: int)
    requires g.count > 0 && a.now <= end
    ensures LiveKey(Tried(db, x, g, a, p, ttl), k, end) <==>
              LiveKey(db, k, end) || (k == KeyOf(x, g.asn) && Writes(db, x, g, a, p) && end < a.now + ttl)
  {
    TriedIs(db, x, g, a, p, ttl);
  }

  /** Every record that is live at the given time is in both and the same. */
  ghost predicate Keeps(before: Db, after: Db, end: int)
  {
    forall k :: LiveKey(before, k, end) ==> k in after && after[k] == before[k]
  }

  /** The new block list holds what the old one did; whatever is new or changed is the record of a group that failed the test. */
  ghost predicate OnlyPassing(before: Db, after: Db, x: Kind, gs: seq<Group>, at: nat -> Attempt, p: Limits, ttl: int)
    requires AllCount(gs)
  {
    && (forall k :: k in before ==> k in after)
    && forall k :: k in after && (k !in before || after[k] != before[k]) ==> PassesFor(x, gs, at, p, ttl, k, after[k])
  }

  ghost predicate PassesFor(x: Kind, gs: seq<Group>, at: nat -> Attempt, p: Limits, ttl: int, k: Bytes, e: Entry<Record>)
    requires AllCount(gs)
  {
    exists i: nat :: i < |gs| && IsPassing(x, gs[i], at(i), p, ttl, k, e)
  }

  /** More requests than the limit, at a higher mean ratio; and the record is the group's, from its own attempt. */
  ghost predicate IsPassing(x: Kind, g: Group, a: Attempt, p: Limits, ttl: int, k: Bytes, e: Entry<Record>)
    requires g.count > 0
  {
    && g.total > p.maxApp && g.ratio / g.count as real > p.maxRatio
    && match x
       case AsSystem => k == ASNKey(g.asn.number) && e == Entry(ASNRecord(g.asn.number, GroupTooMany), Some(a.now + ttl))
       case AsNetwork => k == CIDRKey(g.asn.network) && e == Entry(NetworkRecord(g.asn.network, GroupTooMany), Some(a.now + ttl))
  }

  lemma PassesForMore(x: Kind, gs: seq<Group>, at: nat -> Attempt, p: Limits, ttl: int, k: Bytes, e: Entry<Record>)
    requires AllCount(gs) && gs != []
    ensures PassesFor(x, gs[..|gs| - 1], at, p, ttl, k, e) || IsPassing(x, gs[|gs| - 1], at(|gs| - 1), p, ttl, k, e) ==>
              PassesFor(x, gs, at, p, ttl, k, e)
  {
    var n := |gs| - 1;
    if PassesFor(x, gs[..n], at, p, ttl, k, e) {
      var i: nat :| i < n && IsPassing(x, gs[..n][i], at(i), p, ttl, k, e);
      assert gs[..n][i] == gs[i];
    }
  }

  // The loop leaves what is live until its end alone, and writes nothing but for groups that fail the test.
  lemma {:induction false} LoopChanges(db: Db, x: Kind, gs: seq<Group>, at: nat -> Attempt, p: Limits, ttl: int, end: int)
    requires AllCount(gs) && AtMost(at, |gs|, end)
    ensures Keeps(db, After(db, x, gs, at, p, ttl), end)
    ensures OnlyPassing(db, After(db, x, gs, at, p, ttl), x, gs, at, p, ttl)
  {
    if gs != [] {
      var n := |gs| - 1;
      var mid, after := After(db, x, gs[..n], at, p, ttl), After(db, x, gs, at, p, ttl);
      LoopChanges(db, x, gs[..n], at, p, ttl, end);
      TriedIs(mid, x, gs[n], at(n), p, ttl);
      assert at(n).now <= end;
      forall k | k in after && (k !in db || after[k] != db[k]) ensures PassesFor(x, gs, at, p, ttl, k, after[k]) {
        PassesForMore(x, gs, at, p, ttl, k, after[k]);
      }
    }
  }

  // A key that no group has stays as it is.
  lemma {:induction false} KeptElsewhere(db: Db, x: Kind, gs: seq<Group>, at: nat -> Attempt, p: Limits, ttl: int, k: Bytes)
    requires AllCount(gs) && forall i :: 0 <= i < |gs| ==> KeyOf(x, gs[i].asn) != k
    ensures var after := After(db, x, gs, at, p, ttl); (k in after <==> k in db) && (k in db ==> after[k] == db[k])
  {
    if gs != [] {
      KeptElsewhere(db, x, gs[..|gs| - 1], at, p, ttl, k);
      TriedIs(After(db, x, gs[..|gs| - 1], at, p, ttl), x, gs[|gs| - 1], at(|gs| - 1), p, ttl);
    }
  }

  // Trying systems does not touch networks, nor the other way round.
  lemma OtherKind(x: Kind, a: ASN, b: ASN)
    ensures KeyOf(x, a) != KeyOf(if x.AsSystem? then AsNetwork else AsSystem, b)
  {
    Families([], a.number, a.network, []);
    Families([], b.number, b.network, []);
    assert BL_CIDR <= CIDRKey(a.network) && BL_CIDR <= CIDRKey(b.network);
  }

  lemma OtherKindKept(db: Db, x: Kind, gs: seq<Group>, at: nat -> Attempt, p: Limits, ttl: int, a: ASN)
    requires AllCount(gs)
    ensures var k, after := KeyOf(if x.AsSystem? then AsNetwork else AsSystem, a), After(db, x, gs, at, p, ttl);
            (k in after <==> k in db) && (k in db ==> after[k] == db[k])
  {
    forall i | 0 <= i < |gs| ensures KeyOf(x, gs[i].asn) != KeyOf(if x.AsSystem? then AsNetwork else AsSystem, a) {
      OtherKind(x, gs[i].asn, a);
    }
    KeptElsewhere(db, x, gs, at, p, ttl, KeyOf(if x.AsSystem? then AsNetwork else AsSystem, a));
  }

  // If no other group has its key, a system's number is blocked at the end if and only if it was before
  // and its record lasts, or it failed the test, was not seen to be blocked when it was tried, the store
  // could be read and written, and the new record lasts. With it all of its networks are blocked.
  lemma WholeSystemBlocked(db: Db, gs: seq<Group>, at: nat -> Attempt, p: Limits, ttl: int, j: nat, end: int)
    requires AllCount(gs) && j < |gs| && AtMost(at, |gs|, end)
    requires forall i :: 0 <= i < |gs| && i != j ==> ASNKey(gs[i].asn.number) != ASNKey(gs[j].asn.number)
    ensures LiveKey(After(db, AsSystem, gs, at, p, ttl), ASNKey(gs[j].asn.number), end) <==>
              || LiveKey(db, ASNKey(gs[j].asn.number), end)
              || (Writes(db, AsSystem, gs[j], at(j), p) && end < at(j).now + ttl)
  {
    var k := ASNKey(gs[j].asn.number);
    LiveAtEnd(db, AsSystem, gs, at, p, ttl, k, end);
    OnlyWriter(db, gs, at, p, ttl, j, k, end);
    SameUntilTried(db, gs, at, p, ttl, j);
  }

  lemma OnlyWriter(db: Db, gs: seq<Group>, at: nat -> Attempt, p: Limits, ttl: int, j: nat, k: Bytes, end: int)
    requires AllCount(gs) && j < |gs| && k == KeyOf(AsSystem, gs[j].asn)
    requires forall i :: 0 <= i < |gs| && i != j ==> KeyOf(AsSystem, gs[i].asn) != k
    ensures WrittenToLast(db, AsSystem, gs, at, p, ttl, k, end) <==>
              Writes(After(db, AsSystem, gs[..j], at, p, ttl), AsSystem, gs[j], at(j), p) && end < at(j).now + ttl
  {
    assert WritesToLast(db, AsSystem, gs, at, p, ttl, j, k, end)
      <==> Writes(After(db, AsSystem, gs[..j], at, p, ttl), AsSystem, gs[j], at(j), p) && end < at(j).now + ttl;
  }

  // Nothing that the attempt for a system looks at has changed before it.
  lemma SameUntilTried(db: Db, gs: seq<Group>, at: nat -> Attempt, p: Limits, ttl: int, j: nat)
    requires AllCount(gs) && j < |gs|
    requires forall i :: 0 <= i < |gs| && i != j ==> ASNKey(gs[i].asn.number) != ASNKey(gs[j].asn.number)
    ensures Writes(After(db, AsSystem, gs[..j], at, p, ttl), AsSystem, gs[j], at(j), p) <==> Writes(db, AsSystem, gs[j], at(j), p)
  {
    KeptElsewhere(db, AsSystem, gs[..j], at, p, ttl, ASNKey(gs[j].asn.number));
    OtherKindKept(db, AsSystem, gs[..j], at, p, ttl, gs[j].asn);
  }

  // ---------------------------------------------------------------- the periodic tick

  /** The result of one tick: the groups and the order in which networks and groups were visited. */
  datatype Tick = Tick(order: seq<Bytes>, asns: map<int, Group>, nets: map<Bytes, Group>, total: int,
                       numbers: seq<int>, systems: seq<Group>, cidrs: seq<Bytes>, networks: seq<Group>)

  function NumberOf(a: ASN): int { a.number }

  function CidrOf(a: ASN): Bytes { a.cidr }

  class Networks {
    var data: map<Bytes, Net>
    const windowSize: Width
    const numWindows: int
    const limits: Limits
    const isAsset: string -> bool
    const blocker: Block

    /** The data of every network are in order and filed under its own name. */
    ghost predicate Valid()
      reads this`data
    {
      AllSound(data)
    }

    constructor (windowSize: Width, numWindows: int, limits: Limits, isAsset: string -> bool, blocker: Block)
      ensures Valid() && data == map[] && this.blocker == blocker && this.limits == limits && this.isAsset == isAsset
      ensures this.windowSize == windowSize && this.numWindows == numWindows
    {
      data := map[];
      this.windowSize, this.numWindows, this.limits, this.isAsset, this.blocker :=
        windowSize, numWindows, limits, isAsset, blocker;
    }

    method HandleRequest(r: Request)
      requires Valid()
      modifies this`data
      ensures Valid()
      ensures data == WithRequest(old(data), r, isAsset(r.url), windowSize)
    {
      var cidr := r.asn.network;
      var start := if cidr in data then data[cidr] else EMPTY;
      var nd := new NetworkData(start, windowSize, numWindows, isAsset);
      nd.HandleRequest(r);
      HandledAllSound(data, r, isAsset(r.url), windowSize);
      data := data[cidr := nd.Value()];
    }

    /** Expires all networks and adds them up in groups, in any order. */
    method Update(clock: Bytes -> Readings) returns (order: seq<Bytes>, asns: map<int, Group>, nets: map<Bytes, Group>, total: int)
      requires Valid() && forall c :: clock(c).InOrder()
      modifies this`data
      ensures Valid() && data == ExpireAll(old(data), clock, windowSize * numWindows)
      ensures Lists(order, data)
      ensures asns == Grouped(Visits(data, order), NumberOf) && nets == Grouped(Visits(data, order), CidrOf)
      ensures total == Total(Visits(data, order))
    {
      ExpiredAllSound(data, clock, windowSize * numWindows);
      order, asns, nets, total := UpdateEach(clock, ExpireAll(data, clock, windowSize * numWindows));
    }

    method UpdateEach(clock: Bytes -> Readings, ghost after: map<Bytes, Net>)
      returns (order: seq<Bytes>, asns: map<int, Group>, nets: map<Bytes, Group>, total: int)
      requires after.Keys == data.Keys && forall c :: c in data ==> ExpiresTo(data[c], clock(c), windowSize * numWindows, after[c])
      requires AllSound(after)
      modifies this`data
      ensures data == after && Lists(order, data)
      ensures asns == Grouped(Visits(data, order), NumberOf) && nets == Grouped(Visits(data, order), CidrOf)
      ensures total == Total(Visits(data, order))
    {
      ghost var before, visits: seq<Visit> := data, [];
      order, asns, nets, total := [], map[], map[], 0;
      var todo := data.Keys;
      while todo != {}
        invariant Halfway(data, before, after, todo, order, visits)
        invariant AddsUp(visits, asns, nets, total)
        decreases |todo|
      {
        var c :| c in todo;
        assert c in before && data[c] == before[c];
        var n := ExpireOne(data[c], clock(c), after[c]);
        HalfwayStep(data, before, after, todo, order, visits, c);
        data := data[c := n];
        asns, nets, total := AddOne(visits, asns, nets, total, n.asn.value, n);
        visits := visits + [Visit(n.asn.value, n)];
        order := order + [c];
        todo := todo - {c};
      }
      AllVisited(data, before, after, order, visits, asns, nets, total);
    }

    method AddOne(ghost visits: seq<Visit>, asns: map<int, Group>, nets: map<Bytes, Group>, total: int, asn: ASN, n: Net)
      returns (asns': map<int, Group>, nets': map<Bytes, Group>, total': int)
      requires AddsUp(visits, asns, nets, total)
      ensures AddsUp(visits + [Visit(asn, n)], asns', nets', total')
    {
      total' := total + n.total;
      asns' := Joined(asns, asn.number, asn, n);
      nets' := Joined(nets, asn.cidr, asn, n);
      GroupedAppend(visits, asns, nets, total, asn, n);
    }

    method ExpireOne(n: Net, r: Readings, ghost after: Net) returns (n': Net)
      requires ExpiresTo(n, r, windowSize * numWindows, after)
      ensures n' == after
    {
      var nd := new NetworkData(n, windowSize, numWindows, isAsset);
      nd.Expire(r);
      n' := nd.Value();
    }

    /** Blocks the systems that fail the test, in any order. */
    method BlockSystems(asns: map<int, Group>, at: nat -> Attempt) returns (keys: seq<int>, gs: seq<Group>, numBlocked: nat)
      requires blocker.store.Valid()
      requires NoneEmpty(asns)
      modifies blocker.store
      ensures blocker.store.Valid() && Enumerates(keys, gs, asns) && AllCount(gs)
      ensures blocker.store.Map() == After(old(blocker.store.Map()), AsSystem, gs, at, limits, blocker.blockTTL)
      ensures numBlocked == NumPassing(gs, limits)
      ensures numBlocked > 0 <==> SomeFails(asns, limits)
    {
      keys, gs := InAnyOrder(asns);
      numBlocked := 0;
      for i := 0 to |gs|
        invariant blocker.store.Valid()
        invariant blocker.store.Map() == After(old(blocker.store.Map()), AsSystem, gs[..i], at, limits, blocker.blockTTL)
        invariant numBlocked == NumPassing(gs[..i], limits)
      {
        var g := gs[i];
        assert gs[..i + 1][..i] == gs[..i] && gs[..i + 1][i] == g;
        if g.total > limits.maxApp && g.ratio / g.count as real > limits.maxRatio {
          numBlocked := numBlocked + 1;
          var _ := blocker.BlockASN(Some(g.asn), ASNRecord(g.asn.number, GroupTooMany), at(i).now, at(i).io);
        }
      }
      assert gs[..|gs|] == gs;
      SomeGroup(keys, gs, asns, limits);
    }

    /** Blocks the networks that fail the test, in any order. */
    method BlockNetworks(nets: map<Bytes, Group>, at: nat -> Attempt) returns (keys: seq<Bytes>, gs: seq<Group>, numBlocked: nat)
      requires blocker.store.Valid()
      requires NoneEmpty(nets)
      modifies blocker.store
      ensures blocker.store.Valid() && Enumerates(keys, gs, nets) && AllCount(gs)
      ensures blocker.store.Map() == After(old(blocker.store.Map()), AsNetwork, gs, at, limits, blocker.blockTTL)
      ensures numBlocked == NumPassing(gs, limits)
      ensures numBlocked > 0 <==> SomeFails(nets, limits)
    {
      keys, gs := InAnyOrder(nets);
      numBlocked := 0;
      for i := 0 to |gs|
        invariant blocker.store.Valid()
        invariant blocker.store.Map() == After(old(blocker.store.Map()), AsNetwork, gs[..i], at, limits, blocker.blockTTL)
        invariant numBlocked == NumPassing(gs[..i], limits)
      {
        var g := gs[i];
        assert gs[..i + 1][..i] == gs[..i] && gs[..i + 1][i] == g;
        if g.total > limits.maxApp && g.ratio / g.count as real > limits.maxRatio {
          numBlocked := numBlocked + 1;
          var _ := blocker.BlockNetwork(Some(g.asn.network), g.asn, NetworkRecord(g.asn.network, GroupTooMany), at(i).now, at(i).io);
        }
      }
      assert gs[..|gs|] == gs;
      SomeGroup(keys, gs, nets, limits);
    }

    /** One tick: expire, add up, block, and remember the groups. True if the addresses have to be looked at again. */
    method UpdateAndBlock(clock: Bytes -> Readings, atSystem: nat -> Attempt, atNetwork: nat -> Attempt)
      returns (t: Tick, recheck: bool)
      requires Valid() && blocker.store.Valid() && forall c :: clock(c).InOrder()
      modifies this`data, blocker.store
      ensures Valid() && blocker.store.Valid() && data == ExpireAll(old(data), clock, windowSize * numWindows)
      ensures Lists(t.order, data)
      ensures t.asns == Grouped(Visits(data, t.order), NumberOf) && t.nets == Grouped(Visits(data, t.order), CidrOf)
      ensures t.total == Total(Visits(data, t.order))
      ensures Enumerates(t.numbers, t.systems, t.asns) && AllCount(t.systems)
      ensures Enumerates(t.cidrs, t.networks, t.nets) && AllCount(t.networks)
      ensures blocker.store.Map()
           == AfterTick(old(blocker.store.Map()), t.systems, t.networks, atSystem, atNetwork, limits, blocker.blockTTL)
      ensures recheck <==>
                || SomeFails(Grouped(Visits(data, t.order), NumberOf), limits)
                || SomeFails(Grouped(Visits(data, t.order), CidrOf), limits)
    {
      var order, asns, nets, total := Update(clock);
      GroupedNoneEmpty(Visits(data, order), NumberOf);
      GroupedNoneEmpty(Visits(data, order), CidrOf);
      var numbers, systems, m := BlockSystems(asns, atSystem);
      var cidrs, networks, n := BlockNetworks(nets, atNetwork);
      recheck := m + n > 0;
      t := Tick(order, asns, nets, total, numbers, systems, cidrs, networks);
    }
  }

  ghost predicate AllSound(m: map<Bytes, Net>)
  {
    forall c :: c in m ==> NetworkRuns.Sound(m[c]) && m[c].asn.value.network == c
  }

  lemma HandledAllSound(m: map<Bytes, Net>, r: Request, asset: bool, w: Width)
    requires AllSound(m)
    ensures AllSound(WithRequest(m, r, asset, w))
  {
    NetworkRuns.HandledSound(if r.asn.network in m then m[r.asn.network] else EMPTY, r, asset, w);
  }

  lemma ExpiredAllSound(m: map<Bytes, Net>, clock: Bytes -> Readings, span: int)
    requires AllSound(m) && forall c :: clock(c).InOrder()
    ensures AllSound(ExpireAll(m, clock, span))
  {
    forall c | c in m ensures NetworkRuns.Sound(Expired(m[c], clock(c), span)) && Expired(m[c], clock(c), span).asn == m[c].asn {
      assert clock(c).InOrder();
      NetworkRuns.ExpiredSound(m[c], clock(c), span);
    }
  }

  /** The table after a request, which creates the data of a new network. */
  function WithRequest(m: map<Bytes, Net>, r: Request, asset: bool, w: Width): map<Bytes, Net>
  {
    var c := r.asn.network;
    m[c := Handled(if c in m then m[c] else EMPTY, r, asset, w)]
  }

  /** The list has every network of the table once. */
  ghost predicate Lists(order: seq<Bytes>, m: map<Bytes, Net>)
  {
    |order| == |m| && forall c :: c in m <==> c in order
  }

  /** The keys are those of the map, each once, and the groups are theirs. */
  ghost predicate Enumerates<K(!new)>(keys: seq<K>, gs: seq<Group>, m: map<K, Group>)
  {
    && |keys| == |gs| == |m|
    && (forall i, j :: 0 <= i < j < |keys| ==> keys[i] != keys[j])
    && (forall k :: k in m <==> k in keys)
    && (forall i :: 0 <= i < |gs| ==> keys[i] in m && gs[i] == m[keys[i]])
  }

  ghost predicate NoneEmpty<K(!new)>(m: map<K, Group>)
  {
    forall k :: k in m ==> m[k].count > 0
  }

  lemma GroupedNoneEmpty<K(!new)>(visits: seq<Visit>, keyOf: ASN -> K)
    ensures NoneEmpty(Grouped(visits, keyOf))
  {
    forall k | k in Grouped(visits, keyOf) ensures Grouped(visits, keyOf)[k].count > 0 {
      GroupIsMembers(visits, keyOf, k);
    }
  }

  /** The order in which a loop over the map visits its groups. */
  method InAnyOrder<K(==,!new)>(m: map<K, Group>) returns (keys: seq<K>, gs: seq<Group>)
    requires NoneEmpty(m)
    ensures Enumerates(keys, gs, m) && AllCount(gs)
  {
    keys := AnyOrder(m.Keys);
    gs := [];
    for i := 0 to |keys|
      invariant |gs| == i && forall j :: 0 <= j < i ==> gs[j] == m[keys[j]]
    {
      gs := gs + [m[keys[i]]];
    }
  }

  method AnyOrder<K(==,!new)>(s: set<K>) returns (keys: seq<K>)
    ensures |keys| == |s| && forall k :: k in s <==> k in keys
    ensures forall i, j :: 0 <= i < j < |keys| ==> keys[i] != keys[j]
  {
    keys := [];
    var todo := s;
    while todo != {}
      invariant todo <= s && |keys| + |todo| == |s|
      invariant forall k :: k in keys <==> k in s && k !in todo
      invariant forall i, j :: 0 <= i < j < |keys| ==> keys[i] != keys[j]
      decreases todo
    {
      var k :| k in todo;
      keys := keys + [k];
      todo := todo - {k};
    }
  }

  function NumPassing(gs: seq<Group>, p: Limits): nat
    requires AllCount(gs)
  {
    if gs == [] then 0 else NumPassing(gs[..|gs| - 1], p) + if Passes(gs[|gs| - 1], p) then 1 else 0
  }

  lemma {:induction false} SomePassing(gs: seq<Group>, p: Limits)
    requires AllCount(gs)
    ensures NumPassing(gs, p) > 0 <==>
              exists i :: 0 <= i < |gs| && gs[i].total > p.maxApp && gs[i].ratio / gs[i].count as real > p.maxRatio
  {
    if gs != [] {
      var n := |gs| - 1;
      SomePassing(gs[..n], p);
      assert forall i :: 0 <= i < n ==> gs[..n][i] == gs[i];
      assert Passes(gs[n], p) <==> gs[n].total > p.maxApp && gs[n].ratio / gs[n].count as real > p.maxRatio;
    }
  }

  /** Some group has more requests than the limit, at a higher mean ratio. */
  ghost predicate SomeFails<K(!new)>(m: map<K, Group>, p: Limits)
  {
    exists k :: k in m && m[k].count > 0 && m[k].total > p.maxApp && m[k].ratio / m[k].count as real > p.maxRatio
  }

  // The loop counts something if and only if one of the groups of the map fails the test.
  lemma SomeGroup<K(!new)>(keys: seq<K>, gs: seq<Group>, m: map<K, Group>, p: Limits)
    requires Enumerates(keys, gs, m) && AllCount(gs)
    ensures NumPassing(gs, p) > 0 <==> SomeFails(m, p)
  {
    SomePassing(gs, p);
    if i :| 0 <= i < |gs| && gs[i].total > p.maxApp && gs[i].ratio / gs[i].count as real > p.maxRatio {
      FailsAt(m, keys[i], p);
    }
    if SomeFails(m, p) {
      var k := FailingKey(m, p);
      var i :| 0 <= i < |keys| && keys[i] == k;
      assert gs[i] == m[k];
    }
  }

  lemma FailsAt<K(!new)>(m: map<K, Group>, k: K, p: Limits)
    requires k in m && m[k].count > 0 && m[k].total > p.maxApp && m[k].ratio / m[k].count as real > p.maxRatio
    ensures SomeFails(m, p)
  {
  }

  lemma FailingKey<K(!new)>(m: map<K, Group>, p: Limits) returns (k: K)
    requires SomeFails(m, p)
    ensures k in m && m[k].count > 0 && m[k].total > p.maxApp && m[k].ratio / m[k].count as real > p.maxRatio
  {
    k :| k in m && m[k].count > 0 && m[k].total > p.maxApp && m[k].ratio / m[k].count as real > p.maxRatio;
  }

  function Visits(data: map<Bytes, Net>, order: seq<Bytes>): (vs: seq<Visit>)
    requires forall c :: c in order ==> c in data && data[c].asn.Some?
    ensures |vs| == |order|
  {
    seq(|order|, i requires 0 <= i < |order| => Visit(data[order[i]].asn.value, data[order[i]]))
  }

  ghost predicate IsVisit(v: Visit, data: map<Bytes, Net>, c: Bytes)
  {
    c in data && data[c].asn.Some? && v == Visit(data[c].asn.value, data[c])
  }

  /** The networks still to do are as before, the others as after; those are in the list, as they were visited. */
  ghost predicate Halfway(data: map<Bytes, Net>, before: map<Bytes, Net>, after: map<Bytes, Net>, todo: set<Bytes>,
                          order: seq<Bytes>, visits: seq<Visit>)
  {
    && todo <= data.Keys == before.Keys == after.Keys
    && (forall c :: c in todo ==> data[c] == before[c])
    && (forall c :: c in data && c !in todo ==> data[c] == after[c])
    && |order| + |todo| == |data| && (forall c :: c in order <==> c in data && c !in todo)
    && |visits| == |order| && forall j :: 0 <= j < |order| ==> IsVisit(visits[j], after, order[j])
  }

  lemma HalfwayStep(data: map<Bytes, Net>, before: map<Bytes, Net>, after: map<Bytes, Net>, todo: set<Bytes>,
                    order: seq<Bytes>, visits: seq<Visit>, c: Bytes)
    requires Halfway(data, before, after, todo, order, visits) && c in todo && after[c].asn.Some?
    ensures Halfway(data[c := after[c]], before, after, todo - {c}, order + [c], visits + [Visit(after[c].asn.value, after[c])])
  {
    assert data[c := after[c]].Keys == data.Keys;
  }

  lemma HalfwayDone(data: map<Bytes, Net>, before: map<Bytes, Net>, after: map<Bytes, Net>, order: seq<Bytes>, visits: seq<Visit>)
    requires Halfway(data, before, after, {}, order, visits)
    ensures data == after && |order| == |data| && forall c :: c in data <==> c in order
    ensures (forall c :: c in order ==> c in data && data[c].asn.Some?) ==> visits == Visits(data, order)
  {
    assert data == after;
  }

  lemma AllVisited(data: map<Bytes, Net>, before: map<Bytes, Net>, after: map<Bytes, Net>, order: seq<Bytes>, visits: seq<Visit>,
                   asns: map<int, Group>, nets: map<Bytes, Group>, total: int)
    requires Halfway(data, before, after, {}, order, visits) && AddsUp(visits, asns, nets, total) && AllSound(after)
    ensures data == after && Lists(order, data)
    ensures asns == Grouped(Visits(data, order), NumberOf) && nets == Grouped(Visits(data, order), CidrOf)
    ensures total == Total(Visits(data, order))
  {
    HalfwayDone(data, before, after, order, visits);
  }

  /** The groups and the total are those of the visits so far. */
  ghost predicate AddsUp(visits: seq<Visit>, asns: map<int, Group>, nets: map<Bytes, Group>, total: int)
  {
    asns == Grouped(visits, NumberOf) && nets == Grouped(visits, CidrOf) && total == Total(visits)
  }

  lemma GroupedAppend(visits: seq<Visit>, asns: map<int, Group>, nets: map<Bytes, Group>, total: int, asn: ASN, n: Net)
    requires AddsUp(visits, asns, nets, total)
    ensures AddsUp(visits + [Visit(asn, n)], Joined(asns, asn.number, asn, n), Joined(nets, asn.cidr, asn, n), total + n.total)
  {
    assert (visits + [Visit(asn, n)])[..|visits|] == visits;
  }

  ghost predicate ExpiresTo(n: Net, r: Readings, span: int, after: Net)
  {
    after == Expired(n, r, span)
  }

  function ExpireAll(m: map<Bytes, Net>, clock: Bytes -> Readings, span: int): map<Bytes, Net>
  {
    map c | c in m :: Expired(m[c], clock(c), span)
  }

  // ---------------------------------------------------------------- what a tick guarantees

  /**
   By system, by network and overall the same number of requests is counted, every network is in one
   group of each kind, and all mean ratios are ratios.
   */
  ghost predicate Conserved(visits: seq<Visit>)
  {
    var asns, nets := Grouped(visits, NumberOf), Grouped(visits, CidrOf);
    && SumOf(GroupTotals(asns)) == SumOf(GroupTotals(nets)) == Total(visits)
    && SumOf(GroupCounts(asns)) == SumOf(GroupCounts(nets)) == |visits|
    && (forall k :: k in asns ==> asns[k].count > 0 && 0.0 <= asns[k].Mean() <= 1.0)
    && (forall k :: k in nets ==> nets[k].count > 0 && 0.0 <= nets[k].Mean() <= 1.0)
  }

  // A tick over networks whose books are in order conserves requests.
  lemma TickConserves(visits: seq<Visit>)
    requires forall i :: 0 <= i < |visits| ==> NetworkRuns.Books(visits[i].net)
    ensures Conserved(visits)
  {
    GroupingConserves(visits, NumberOf);
    GroupingConserves(visits, CidrOf);
    forall k | k in Grouped(visits, NumberOf)
      ensures Grouped(visits, NumberOf)[k].count > 0 && 0.0 <= Grouped(visits, NumberOf)[k].Mean() <= 1.0
    {
      MeansInUnit(visits, NumberOf, k);
    }
    forall k | k in Grouped(visits, CidrOf)
      ensures Grouped(visits, CidrOf)[k].count > 0 && 0.0 <= Grouped(visits, CidrOf)[k].Mean() <= 1.0
    {
      MeansInUnit(visits, CidrOf, k);
    }
  }

  lemma TableConserves(m: map<Bytes, Net>, order: seq<Bytes>)
    requires AllSound(m) && Lists(order, m)
    ensures Conserved(Visits(m, order))
  {
    var visits := Visits(m, order);
    forall i | 0 <= i < |visits| ensures NetworkRuns.Books(visits[i].net) {
      assert order[i] in m;
    }
    TickConserves(visits);
  }

  /** The block list after both loops of a tick. */
  function AfterTick(db: Db, systems: seq<Group>, networks: seq<Group>, atSystem: nat -> Attempt, atNetwork: nat -> Attempt,
                     p: Limits, ttl: int): Db
    requires AllCount(systems) && AllCount(networks)
  {
    After(After(db, AsSystem, systems, atSystem, p, ttl), AsNetwork, networks, atNetwork, p, ttl)
  }

  // At the end of a tick a system's number is blocked if and only if its record was there before and
  // lasts, or was written in this tick and lasts; the same for a network.
  lemma TickAtEnd(db: Db, systems: seq<Group>, networks: seq<Group>, atSystem: nat -> Attempt, atNetwork: nat -> Attempt,
                  p: Limits, ttl: int, a: ASN, end: int)
    requires AllCount(systems) && AllCount(networks)
    requires AtMost(atSystem, |systems|, end) && AtMost(atNetwork, |networks|, end)
    ensures var mid, after := After(db, AsSystem, systems, atSystem, p, ttl),
                              AfterTick(db, systems, networks, atSystem, atNetwork, p, ttl);
            && (LiveKey(after, ASNKey(a.number), end) <==>
                  || LiveKey(db, ASNKey(a.number), end)
                  || WrittenToLast(db, AsSystem, systems, atSystem, p, ttl, ASNKey(a.number), end))
            && (LiveKey(after, CIDRKey(a.network), end) <==>
                  || LiveKey(db, CIDRKey(a.network), end)
                  || WrittenToLast(mid, AsNetwork, networks, atNetwork, p, ttl, CIDRKey(a.network), end))
  {
    var mid := After(db, AsSystem, systems, atSystem, p, ttl);
    LiveAtEnd(db, AsSystem, systems, atSystem, p, ttl, ASNKey(a.number), end);
    OtherKindKept(mid, AsNetwork, networks, atNetwork, p, ttl, a);
    OtherKindKept(db, AsSystem, systems, atSystem, p, ttl, a);
    LiveAtEnd(mid, AsNetwork, networks, atNetwork, p, ttl, CIDRKey(a.network), end);
  }

  // If the store works, every group that fails the test is blocked when it has been tried; what lasts
  // until the end of the tick stays as it was, and nothing new is written but for those groups.
  lemma TickBlocks(db: Db, systems: seq<Group>, networks: seq<Group>, atSystem: nat -> Attempt, atNetwork: nat -> Attempt,
                   p: Limits, ttl: int, end: int)
    requires ttl > 0 && AllCount(systems) && AllCount(networks)
    requires AtMost(atSystem, |systems|, end) && AtMost(atNetwork, |networks|, end)
    ensures var mid, after := After(db, AsSystem, systems, atSystem, p, ttl),
                              AfterTick(db, systems, networks, atSystem, atNetwork, p, ttl);
            && Keeps(db, after, end)
            && (forall i: nat :: i < |systems| && systems[i].total > p.maxApp
                                 && systems[i].ratio / systems[i].count as real > p.maxRatio && atSystem(i).CanWrite() ==>
                  ASNBlocked(After(db, AsSystem, systems[..i + 1], atSystem, p, ttl), systems[i].asn, atSystem(i).now))
            && (forall i: nat :: i < |networks| && networks[i].total > p.maxApp
                                 && networks[i].ratio / networks[i].count as real > p.maxRatio && atNetwork(i).CanWrite() ==>
                  ASNBlocked(After(mid, AsNetwork, networks[..i + 1], atNetwork, p, ttl), networks[i].asn, atNetwork(i).now))
            && (forall k :: k in after && (k !in db || after[k] != db[k]) ==>
                  || PassesFor(AsSystem, systems, atSystem, p, ttl, k, after[k])
                  || PassesFor(AsNetwork, networks, atNetwork, p, ttl, k, after[k]))
  {
    var mid := After(db, AsSystem, systems, atSystem, p, ttl);
    LoopChanges(db, AsSystem, systems, atSystem, p, ttl, end);
    LoopChanges(mid, AsNetwork, networks, atNetwork, p, ttl, end);
    forall i: nat | i < |systems| && systems[i].total > p.maxApp
                    && systems[i].ratio / systems[i].count as real > p.maxRatio && atSystem(i).CanWrite()
      ensures ASNBlocked(After(db, AsSystem, systems[..i + 1], atSystem, p, ttl), systems[i].asn, atSystem(i).now)
    {
      BlockedAtOwnAttempt(db, AsSystem, systems, atSystem, p, ttl, i);
    }
    forall i: nat | i < |networks| && networks[i].total > p.maxApp
                    && networks[i].ratio / networks[i].count as real > p.maxRatio && atNetwork(i).CanWrite()
      ensures ASNBlocked(After(mid, AsNetwork, networks[..i + 1], atNetwork, p, ttl), networks[i].asn, atNetwork(i).now)
    {
      BlockedAtOwnAttempt(mid, AsNetwork, networks, atNetwork, p, ttl, i);
    }
  }

  /** The visits of networks of one system. */
  function OfSystem(visits: seq<Visit>, number: int): seq<Visit>
  {
    if visits == [] then [] else
      var v := visits[|visits| - 1];
      OfSystem(visits[..|visits| - 1], number) + if v.asn.number == number then [v] else []
  }

  /** The visits of networks with one address block. */
  function OfNetwork(visits: seq<Visit>, cidr: Bytes): seq<Visit>
  {
    if visits == [] then [] else
      var v := visits[|visits| - 1];
      OfNetwork(visits[..|visits| - 1], cidr) + if v.asn.cidr == cidr then [v] else []
  }

  lemma {:induction false} MembersOfSystem(visits: seq<Visit>, number: int)
    ensures Members(visits, NumberOf, number) == OfSystem(visits, number)
  {
    if visits != [] {
      MembersOfSystem(visits[..|visits| - 1], number);
    }
  }

  lemma {:induction false} MembersOfNetwork(visits: seq<Visit>, cidr: Bytes)
    ensures Members(visits, CidrOf, cidr) == OfNetwork(visits, cidr)
  {
    if visits != [] {
      MembersOfNetwork(visits[..|visits| - 1], cidr);
    }
  }

  // The groups of a tick are those of the systems and of the address blocks that were visited.
  lemma TickGroups(visits: seq<Visit>, number: int, cidr: Bytes)
    ensures var asns, ms := Grouped(visits, NumberOf), OfSystem(visits, number);
            && (number in asns <==> ms != [])
            && (number in asns ==>
                  && asns[number].total == Total(ms) && asns[number].ratio == Ratios(ms) && asns[number].count == |ms|
                  && asns[number].asn == ms[0].asn && ms[0].asn.number == number)
    ensures var nets, ms := Grouped(visits, CidrOf), OfNetwork(visits, cidr);
            && (cidr in nets <==> ms != [])
            && (cidr in nets ==>
                  && nets[cidr].total == Total(ms) && nets[cidr].ratio == Ratios(ms) && nets[cidr].count == |ms|
                  && nets[cidr].asn == ms[0].asn && ms[0].asn.cidr == cidr)
  {
    GroupIsMembers(visits, NumberOf, number);
    GroupIsMembers(visits, CidrOf, cidr);
    MembersOfSystem(visits, number);
    MembersOfNetwork(visits, cidr);
  }

  /** More requests than the limit, at a higher mean ratio. */
  ghost predicate TooMany(ms: seq<Visit>, p: Limits)
  {
    ms != [] && Total(ms) > p.maxApp && Ratios(ms) / |ms| as real > p.maxRatio
  }

  /** The record is that of a system with more requests than the limit, at a higher mean ratio, from its own attempt. */
  ghost predicate ForSystem(visits: seq<Visit>, number: int, a: Attempt, p: Limits, ttl: int, k: Bytes, e: Entry<Record>)
  {
    && TooMany(OfSystem(visits, number), p)
    && k == ASNKey(number) && e == Entry(ASNRecord(number, GroupTooMany), Some(a.now + ttl))
  }

  /** The same for an address block; its record is that of the network of its first member. */
  ghost predicate ForNetwork(visits: seq<Visit>, cidr: Bytes, a: Attempt, p: Limits, ttl: int, k: Bytes, e: Entry<Record>)
  {
    var ms := OfNetwork(visits, cidr);
    && TooMany(ms, p)
    && k == CIDRKey(ms[0].asn.network) && e == Entry(NetworkRecord(ms[0].asn.network, GroupTooMany), Some(a.now + ttl))
  }

  lemma WhatSystem(visits: seq<Visit>, numbers: seq<int>, systems: seq<Group>, at: nat -> Attempt, p: Limits, ttl: int,
                   k: Bytes, e: Entry<Record>)
    requires AllCount(systems) && Enumerates(numbers, systems, Grouped(visits, NumberOf))
    requires PassesFor(AsSystem, systems, at, p, ttl, k, e)
    ensures exists i: nat :: i < |numbers| && ForSystem(visits, numbers[i], at(i), p, ttl, k, e)
  {
    var i: nat :| i < |systems| && IsPassing(AsSystem, systems[i], at(i), p, ttl, k, e);
    TickGroups(visits, numbers[i], []);
    assert ForSystem(visits, numbers[i], at(i), p, ttl, k, e);
  }

  lemma WhatNetwork(visits: seq<Visit>, cidrs: seq<Bytes>, networks: seq<Group>, at: nat -> Attempt, p: Limits, ttl: int,
                    k: Bytes, e: Entry<Record>)
    requires AllCount(networks) && Enumerates(cidrs, networks, Grouped(visits, CidrOf))
    requires PassesFor(AsNetwork, networks, at, p, ttl, k, e)
    ensures exists i: nat :: i < |cidrs| && ForNetwork(visits, cidrs[i], at(i), p, ttl, k, e)
  {
    var i: nat :| i < |networks| && IsPassing(AsNetwork, networks[i], at(i), p, ttl, k, e);
    TickGroups(visits, 0, cidrs[i]);
    assert ForNetwork(visits, cidrs[i], at(i), p, ttl, k, e);
  }

  // In terms of the networks visited: whatever a tick writes or changes is the record of a system or an
  // address block whose networks have more requests together than the limit, at a mean ratio above the
  // limit, from its own attempt.
  lemma TickWrites(db: Db, visits: seq<Visit>, numbers: seq<int>, systems: seq<Group>, cidrs: seq<Bytes>, networks: seq<Group>,
                   atSystem: nat -> Attempt, atNetwork: nat -> Attempt, p: Limits, ttl: int, end: int, k: Bytes)
    requires ttl > 0 && AllCount(systems) && AllCount(networks)
    requires AtMost(atSystem, |systems|, end) && AtMost(atNetwork, |networks|, end)
    requires Enumerates(numbers, systems, Grouped(visits, NumberOf)) && Enumerates(cidrs, networks, Grouped(visits, CidrOf))
    ensures var after := AfterTick(db, systems, networks, atSystem, atNetwork, p, ttl);
            && (k in db ==> k in after)
            && (k in after && (k !in db || after[k] != db[k]) ==>
                  || (exists i: nat :: i < |numbers| && ForSystem(visits, numbers[i], atSystem(i), p, ttl, k, after[k]))
                  || (exists i: nat :: i < |cidrs| && ForNetwork(visits, cidrs[i], atNetwork(i), p, ttl, k, after[k])))
  {
    var mid, after := After(db, AsSystem, systems, atSystem, p, ttl), AfterTick(db, systems, networks, atSystem, atNetwork, p, ttl);
    LoopChanges(db, AsSystem, systems, atSystem, p, ttl, end);
    LoopChanges(mid, AsNetwork, networks, atNetwork, p, ttl, end);
    if k in after && (k !in db || after[k] != db[k]) {
      if k in mid && after[k] == mid[k] {
        WhatSystem(visits, numbers, systems, atSystem, p, ttl, k, after[k]);
      } else {
        WhatNetwork(visits, cidrs, networks, atNetwork, p, ttl, k, after[k]);
      }
    }
  }

  // And every such system and every such address block is blocked at its attempt, if the store works.
  lemma TickBlocksAll(db: Db, visits: seq<Visit>, numbers: seq<int>, systems: seq<Group>, cidrs: seq<Bytes>, networks: seq<Group>,
                      atSystem: nat -> Attempt, atNetwork: nat -> Attempt, p: Limits, ttl: int)
    requires ttl > 0 && AllCount(systems) && AllCount(networks)
    requires Enumerates(numbers, systems, Grouped(visits, NumberOf)) && Enumerates(cidrs, networks, Grouped(visits, CidrOf))
    ensures forall i: nat :: i < |systems| && atSystem(i).CanWrite() ==>
              var ms := OfSystem(visits, numbers[i]);
              TooMany(ms, p) ==>
                ASNBlocked(After(db, AsSystem, systems[..i + 1], atSystem, p, ttl), ms[0].asn, atSystem(i).now)
    ensures forall i: nat :: i < |networks| && atNetwork(i).CanWrite() ==>
              var mid, ms := After(db, AsSystem, systems, atSystem, p, ttl), OfNetwork(visits, cidrs[i]);
              TooMany(ms, p) ==>
                ASNBlocked(After(mid, AsNetwork, networks[..i + 1], atNetwork, p, ttl), ms[0].asn, atNetwork(i).now)
  {
    var mid := After(db, AsSystem, systems, atSystem, p, ttl);
    forall i: nat | i < |systems| && atSystem(i).CanWrite()
      ensures var ms := OfSystem(visits, numbers[i]);
              TooMany(ms, p) ==>
                ASNBlocked(After(db, AsSystem, systems[..i + 1], atSystem, p, ttl), ms[0].asn, atSystem(i).now)
    {
      TickGroups(visits, numbers[i], []);
      if systems[i].total > p.maxApp && systems[i].ratio / systems[i].count as real > p.maxRatio {
        BlockedAtOwnAttempt(db, AsSystem, systems, atSystem, p, ttl, i);
      }
    }
    forall i: nat | i < |networks| && atNetwork(i).CanWrite()
      ensures var ms := OfNetwork(visits, cidrs[i]);
              TooMany(ms, p) ==>
                ASNBlocked(After(mid, AsNetwork, networks[..i + 1], atNetwork, p, ttl), ms[0].asn, atNetwork(i).now)
    {
      TickGroups(visits, 0, cidrs[i]);
      if networks[i].total > p.maxApp && networks[i].ratio / networks[i].count as real > p.maxRatio {
        BlockedAtOwnAttempt(mid, AsNetwork, networks, atNetwork, p, ttl, i);
      }
    }
  }

  lemma SystemRechecks(visits: seq<Visit>, p: Limits)
    ensures SomeFails(Grouped(visits, NumberOf), p) <==> exists v :: v in visits && TooMany(OfSystem(visits, v.asn.number), p)
  {
    var asns := Grouped(visits, NumberOf);
    if SomeFails(asns, p) {
      var k := FailingKey(asns, p);
      TickGroups(visits, k, []);
      MembersOfSystem(visits, k);
      MembersAreVisits(visits, NumberOf, k);
      assert OfSystem(visits, k)[0] in visits;
    }
    if v :| v in visits && TooMany(OfSystem(visits, v.asn.number), p) {
      VisitGrouped(visits, v);
      TickGroups(visits, v.asn.number, []);
      FailsAt(asns, v.asn.number, p);
    }
  }

  lemma NetworkRechecks(visits: seq<Visit>, p: Limits)
    ensures SomeFails(Grouped(visits, CidrOf), p) <==> exists v :: v in visits && TooMany(OfNetwork(visits, v.asn.cidr), p)
  {
    var nets := Grouped(visits, CidrOf);
    if SomeFails(nets, p) {
      var k := FailingKey(nets, p);
      TickGroups(visits, 0, k);
      MembersOfNetwork(visits, k);
      MembersAreVisits(visits, CidrOf, k);
      assert OfNetwork(visits, k)[0] in visits;
    }
    if v :| v in visits && TooMany(OfNetwork(visits, v.asn.cidr), p) {
      VisitGrouped(visits, v);
      TickGroups(visits, 0, v.asn.cidr);
      FailsAt(nets, v.asn.cidr, p);
    }
  }

  // The addresses are looked at again after a tick if and only if there is such a system or address block.
  lemma TickRechecks(visits: seq<Visit>, p: Limits)
    ensures SomeFails(Grouped(visits, NumberOf), p) <==> exists v :: v in visits && TooMany(OfSystem(visits, v.asn.number), p)
    ensures SomeFails(Grouped(visits, CidrOf), p) <==> exists v :: v in visits && TooMany(OfNetwork(visits, v.asn.cidr), p)
  {
    SystemRechecks(visits, p);
    NetworkRechecks(visits, p);
  }

  lemma VisitGrouped(visits: seq<Visit>, v: Visit)
    requires v in visits
    ensures v.asn.number in Grouped(visits, NumberOf) && v.asn.cidr in Grouped(visits, CidrOf)
  {
    MembersAreVisits(visits, NumberOf, v.asn.number);
    MembersAreVisits(visits, CidrOf, v.asn.cidr);
    GroupIsMembers(visits, NumberOf, v.asn.number);
    GroupIsMembers(visits, CidrOf, v.asn.cidr);
    assert v in Members(visits, NumberOf, v.asn.number) && v in Members(visits, CidrOf, v.asn.cidr);
  }

  // A group that is blocked when it is tried need not be at the end: a record from before may run out
  // in between, and is not written again because it was still live at the attempt.
  lemma TickMayUnblock()
    ensures var asn, p := ASN(1, [1], [1]), Limits(1, 0.5);
            var g, db := Group(asn, 2, 2, 0, 1.0, 1), map[ASNKey(1) := Entry(ASNRecord(1, GroupTooMany), Some(5))];
            var at := _ => Attempt(4, ALL_OK);
            && g.total > p.maxApp && g.ratio / g.count as real > p.maxRatio && ASNBlocked(After(db, AsSystem, [g], at, p, 10), asn, 4)
            && !ASNBlocked(AfterTick(db, [g], [], at, at, p, 10), asn, 6)
  {
    var asn, p := ASN(1, [1], [1]), Limits(1, 0.5);
    var g, db := Group(asn, 2, 2, 0, 1.0, 1), map[ASNKey(1) := Entry(ASNRecord(1, GroupTooMany), Some(5))];
    var at := _ => Attempt(4, ALL_OK);
    TriedIs(db, AsSystem, g, at(0), p, 10);
    assert [g][..0] == [];
    OtherKind(AsSystem, asn, asn);
  }

  // If none of its networks was blocked when it was tried and the store works, a system that fails the
  // test is then blocked with all its networks, and still is at the end if the record lasts until then.
  lemma TickBlocksWholeSystem(db: Db, visits: seq<Visit>, numbers: seq<int>, systems: seq<Group>, networks: seq<Group>,
                              atSystem: nat -> Attempt, atNetwork: nat -> Attempt,
                              p: Limits, ttl: int, j: nat, v: Visit, end: int)
    requires ttl > 0 && AllCount(systems) && AllCount(networks)
    requires AtMost(atSystem, |systems|, end) && AtMost(atNetwork, |networks|, end)
    requires Enumerates(numbers, systems, Grouped(visits, NumberOf))
    requires j < |systems| && atSystem(j).CanWrite()
    requires systems[j].total > p.maxApp && systems[j].ratio / systems[j].count as real > p.maxRatio
    requires forall u :: u in visits && u.asn.number == numbers[j] ==> !LiveKey(db, CIDRKey(u.asn.network), atSystem(j).now)
    requires v in visits && v.asn.number == numbers[j]
    ensures var tried := After(db, AsSystem, systems[..j + 1], atSystem, p, ttl);
            && ASNBlocked(tried, v.asn, atSystem(j).now)
            && (LiveKey(tried, ASNKey(numbers[j]), end) ==>
                  ASNBlocked(AfterTick(db, systems, networks, atSystem, atNetwork, p, ttl), v.asn, end))
  {
    GroupIsMembers(visits, NumberOf, numbers[j]);
    MembersAreVisits(visits, NumberOf, numbers[j]);
    var ms := Members(visits, NumberOf, numbers[j]);
    assert ms[0] in ms && ms[0] in visits;
    var before, k := After(db, AsSystem, systems[..j], atSystem, p, ttl), ASNKey(numbers[j]);
    OtherKindKept(db, AsSystem, systems[..j], atSystem, p, ttl, systems[j].asn);
    AfterOne(db, AsSystem, systems, atSystem, p, ttl, j);
    TriedIs(before, AsSystem, systems[j], atSystem(j), p, ttl);
    RestOfTick(db, systems, networks, atSystem, atNetwork, p, ttl, j + 1, k, end);
  }

  // What is live until the end after some attempts is live at the end.
  lemma RestOfTick(db: Db, systems: seq<Group>, networks: seq<Group>, atSystem: nat -> Attempt, atNetwork: nat -> Attempt,
                   p: Limits, ttl: int, i: nat, k: Bytes, end: int)
    requires AllCount(systems) && AllCount(networks) && i <= |systems|
    requires AtMost(atSystem, |systems|, end) && AtMost(atNetwork, |networks|, end)
    ensures LiveKey(After(db, AsSystem, systems[..i], atSystem, p, ttl), k, end) ==>
              LiveKey(AfterTick(db, systems, networks, atSystem, atNetwork, p, ttl), k, end)
  {
    LoopFrom(db, systems, atSystem, p, ttl, i, k, end);
    LoopChanges(After(db, AsSystem, systems, atSystem, p, ttl), AsNetwork, networks, atNetwork, p, ttl, end);
  }

  lemma {:induction false} LoopFrom(db: Db, gs: seq<Group>, at: nat -> Attempt, p: Limits, ttl: int, i: nat, k: Bytes, end: int)
    requires AllCount(gs) && i <= |gs| && AtMost(at, |gs|, end)
    ensures LiveKey(After(db, AsSystem, gs[..i], at, p, ttl), k, end) ==> LiveKey(After(db, AsSystem, gs, at, p, ttl), k, end)
  {
    if i == |gs| {
      assert gs[..i] == gs;
    } else {
      var n := |gs| - 1;
      LoopFrom(db, gs[..n], at, p, ttl, i, k, end);
      assert gs[..n][..i] == gs[..i] && at(n).now <= end;
      TriedIs(After(db, AsSystem, gs[..n], at, p, ttl), AsSystem, gs[n], at(n), p, ttl);
    }
  }
}
