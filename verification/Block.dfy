/** The block list: addresses, networks and autonomous systems kept in the store under three families of keys. */
module Block {
  import opened Data
  import opened Store

  /** The messages the store holds; their JSON encoding is represented by the message itself. */
  datatype Record =
    | IPRecord(ip: Bytes, hostname: string, asn: ASN, reason: Reason, blockedAt: int)
    | ASNRecord(number: int, reason: Reason)
    | NetworkRecord(network: Bytes, reason: Reason)
    | Text(bytes: Bytes)

  type Db = map<Bytes, Entry<Record>>

  // ---------------------------------------------------------------- keys

  const BL: Bytes := [98, 108]                                // bl
  const BL_IP: Bytes := [98, 108, 58, 105, 112, 58]           // bl:ip:
  const BL_ASN: Bytes := [98, 108, 58, 97, 115, 110]          // bl:asn
  const BL_CIDR: Bytes := [98, 108, 58, 99, 105, 100, 114, 58] // bl:cidr:
  const RL: Bytes := [114, 108, 58]                           // rl:
  const STATS: Bytes := [115, 116, 97, 116, 115, 58]          // stats:

  function IPKey(ip: Bytes): Bytes { BL_IP + ip }

  function CIDRKey(network: Bytes): Bytes { BL_CIDR + network }

  function ASNKey(number: int): Bytes
  {
    if number > 0 then BL_ASN + [58] + Decimal(number) else BL_ASN
  }

  function Decimal(n: nat): Bytes
  {
    if n < 10 then [(48 + n) as byte] else Decimal(n / 10) + [(48 + n % 10) as byte]
  }

  lemma {:induction false} DecimalInjective(m: nat, n: nat)
    requires Decimal(m) == Decimal(n)
    ensures m == n
  {
    DecimalNonEmpty(m / 10);
    DecimalNonEmpty(n / 10);
    var a, b := Decimal(m), Decimal(n);
    assert a[|a| - 1] == b[|b| - 1];
    if m >= 10 && n >= 10 {
      assert a[..|a| - 1] == Decimal(m / 10) && b[..|b| - 1] == Decimal(n / 10);
      DecimalInjective(m / 10, n / 10);
    }
  }

  /** The number that a string of digits stands for. */
  function ValueOf(digits: Bytes): int
  {
    if digits == [] then 0 else 10 * ValueOf(digits[..|digits| - 1]) + digits[|digits| - 1] as int - 48
  }

  // The notation of a number is digits only, the first of them not 0 unless it is the only one, and stands for it.
  lemma {:induction false} DecimalIs(n: nat)
    ensures Decimal(n) != [] && ValueOf(Decimal(n)) == n
    ensures forall i :: 0 <= i < |Decimal(n)| ==> 48 <= Decimal(n)[i] <= 57
    ensures Decimal(n)[0] == 48 ==> n == 0
  {
    var ds := Decimal(n);
    if n < 10 {
      assert ds[..0] == [];
    } else {
      DecimalIs(n / 10);
      assert ds[..|ds| - 1] == Decimal(n / 10);
    }
  }

  lemma {:induction false} DecimalNonEmpty(n: nat)
    ensures Decimal(n) != []
  {
  }

  // No key of one family extends the prefix of another, and the host cache and the statistics are
  // outside all three. Within a family the key determines what it is for.
  lemma Families(ip: Bytes, number: int, network: Bytes, other: Bytes)
    ensures BL <= IPKey(ip) && BL <= ASNKey(number) && BL <= CIDRKey(network)
    ensures !(BL_ASN <= IPKey(ip)) && !(BL_CIDR <= IPKey(ip))
    ensures !(BL_IP <= ASNKey(number)) && !(BL_CIDR <= ASNKey(number))
    ensures !(BL_IP <= CIDRKey(network)) && !(BL_ASN <= CIDRKey(network))
    ensures RL <= other || STATS <= other ==> !(BL <= other)
  {
    assert IPKey(ip)[3] == 105 && CIDRKey(network)[3] == 99 && ASNKey(number)[3] == 97;
    if RL <= other {
      assert other[0] == 114;
    } else if STATS <= other {
      assert other[0] == 115;
    }
  }

  lemma KeysInjective(ip: Bytes, ip': Bytes, n: int, n': int, net: Bytes, net': Bytes)
    ensures IPKey(ip) == IPKey(ip') ==> ip == ip'
    ensures CIDRKey(net) == CIDRKey(net') ==> net == net'
    ensures ASNKey(n) == ASNKey(n') <==> n == n' || (n <= 0 && n' <= 0)
    ensures ASNKey(0) == BL_ASN
  {
    if IPKey(ip) == IPKey(ip') {
      assert ip == IPKey(ip)[6..] == IPKey(ip')[6..] == ip';
    }
    if CIDRKey(net) == CIDRKey(net') {
      assert net == CIDRKey(net)[8..] == CIDRKey(net')[8..] == net';
    }
    if ASNKey(n) == ASNKey(n') && (n > 0 || n' > 0) {
      assert |BL_ASN + [58]| == 7 && |BL_ASN| == 6;
      assert n > 0 && n' > 0;
      assert Decimal(n) == ASNKey(n)[7..] == ASNKey(n')[7..] == Decimal(n');
      DecimalInjective(n, n');
    }
  }

  // ---------------------------------------------------------------- what is blocked

  predicate LiveKey(db: Db, k: Bytes, now: int)
  {
    k in db && IsLive(db[k], now)
  }

  predicate ASNBlocked(db: Db, asn: ASN, now: int)
  {
    LiveKey(db, ASNKey(asn.number), now) || LiveKey(db, CIDRKey(asn.network), now)
  }

  predicate Blocked(db: Db, ip: Bytes, asn: ASN, now: int)
  {
    LiveKey(db, IPKey(ip), now) || ASNBlocked(db, asn, now)
  }

  /** Which accesses to the store fail during one call. */
  datatype Io = Io(asnReadFails: bool, networkReadFails: bool, getFails: bool, writeFails: bool)

  const ALL_OK := Io(false, false, false, false)

  /** One use of the block list: when it is made, and which of its accesses to the store fail. */
  datatype Attempt = Attempt(now: int, io: Io)
  {
    predicate CanWrite() { !io.getFails && !io.writeFails }
  }

  datatype Error = Missing | StoreFailed

  /** Writes a record unless a live one is there. */
  function WriteOnce(db: Db, k: Bytes, rec: Record, now: int, ttl: int, io: Io): (Db, Option<Error>)
  {
    if io.getFails then (db, Some(StoreFailed))
    else if LiveKey(db, k, now) then (db, None)
    else if io.writeFails then (db, Some(StoreFailed))
    else (db[k := Entry(rec, Some(now + ttl))], None)
  }

  /** What IsBlockedByASN answers when some reads fail: a failed read counts as not blocked. */
  predicate SeenBlocked(db: Db, asn: ASN, now: int, io: Io)
  {
    (!io.asnReadFails && LiveKey(db, ASNKey(asn.number), now)) || (!io.networkReadFails && LiveKey(db, CIDRKey(asn.network), now))
  }

  function BlockIPOf(db: Db, ip: Option<Bytes>, rec: Record, now: int, ttl: int, io: Io): (Db, Option<Error>)
  {
    if ip.None? then (db, Some(Missing)) else WriteOnce(db, IPKey(ip.value), rec, now, ttl, io)
  }

  function BlockASNOf(db: Db, asn: Option<ASN>, rec: Record, now: int, ttl: int, io: Io): (Db, Option<Error>)
  {
    if asn.None? then (db, Some(Missing))
    else if SeenBlocked(db, asn.value, now, io) then (db, None)
    else WriteOnce(db, ASNKey(asn.value.number), rec, now, ttl, io)
  }

  function BlockNetworkOf(db: Db, network: Option<Bytes>, asn: ASN, rec: Record, now: int, ttl: int, io: Io): (Db, Option<Error>)
  {
    if network.None? then (db, Some(Missing))
    else if SeenBlocked(db, asn, now, io) then (db, None)
    else WriteOnce(db, CIDRKey(network.value), rec, now, ttl, io)
  }

  // A record is written, to last for the ttl, if and only if there is something to block that is not seen to be
  // blocked, its key is not live, and neither access fails; an error is reported if and only if there is
  // nothing to block or an access that is needed fails. Without an error the key or what it belongs to is
  // blocked afterwards.
  lemma BlockOutcome(db: Db, ip: Option<Bytes>, asn: Option<ASN>, network: Option<Bytes>, of: ASN,
                     rec: Record, now: int, ttl: int, io: Io)
    ensures Outcome(db, BlockIPOf(db, ip, rec, now, ttl, io), ip.Some?, false, if ip.Some? then IPKey(ip.value) else [], rec, now, ttl, io)
    ensures Outcome(db, BlockASNOf(db, asn, rec, now, ttl, io), asn.Some?, asn.Some? && SeenBlocked(db, asn.value, now, io),
                    if asn.Some? then ASNKey(asn.value.number) else [], rec, now, ttl, io)
    ensures Outcome(db, BlockNetworkOf(db, network, of, rec, now, ttl, io), network.Some?, SeenBlocked(db, of, now, io),
                    if network.Some? then CIDRKey(network.value) else [], rec, now, ttl, io)
  {
  }

  ghost predicate Outcome(db: Db, r: (Db, Option<Error>), given: bool, seen: bool, k: Bytes, rec: Record, now: int, ttl: int, io: Io)
  {
    var free := given && !seen && !LiveKey(db, k, now);
    && r.0 == (if free && !io.getFails && !io.writeFails then db[k := Entry(rec, Some(now + ttl))] else db)
    && (r.1 == Some(Missing) <==> !given)
    && (r.1 == Some(StoreFailed) <==> given && !seen && (io.getFails || (free && io.writeFails)))
    && (r.1 == None && ttl > 0 ==> seen || LiveKey(r.0, k, now))
  }

  /** The store after the recheck that follows a change of the whitelist rules. */
  function Rechecked(db: Db, rules: Rules, now: int): Db
  {
    map k | k in db && !Unblocks(db, k, rules, now) :: db[k]
  }

  predicate Unblocks(db: Db, k: Bytes, rules: Rules, now: int)
  {
    && LiveKey(db, k, now) && BL_IP <= k && db[k].value.IPRecord?
    && rules(db[k].value.ip, db[k].value.hostname, db[k].value.asn)
  }

  class Block {
    const store: BadgerDB<Record>
    const blockTTL: int

    constructor (store: BadgerDB<Record>, blockTTL: int)
      ensures this.store == store && this.blockTTL == blockTTL
    {
      this.store, this.blockTTL := store, blockTTL;
    }

    method Write(k: Bytes, rec: Record, now: int, io: Io) returns (err: Option<Error>)
      requires store.Valid()
      modifies store
      ensures store.Valid()
      ensures (store.Map(), err) == WriteOnce(old(store.Map()), k, rec, now, blockTTL, io)
    {
      if io.getFails {
        return Some(StoreFailed);
      }
      var data := store.Get(k, now);
      if data.Some? {
        return None;
      }
      var ok := store.SetEx(k, rec, blockTTL, now, !io.writeFails);
      err := if ok then None else Some(StoreFailed);
    }

    method BlockIP(ip: Option<Bytes>, rec: Record, now: int, io: Io) returns (err: Option<Error>)
      requires store.Valid()
      modifies store
      ensures store.Valid()
      ensures (store.Map(), err) == BlockIPOf(old(store.Map()), ip, rec, now, blockTTL, io)
    {
      if ip.None? {
        return Some(Missing);
      }
      err := Write(IPKey(ip.value), rec, now, io);
    }

    method BlockASN(asn: Option<ASN>, rec: Record, now: int, io: Io) returns (err: Option<Error>)
      requires store.Valid()
      modifies store
      ensures store.Valid()
      ensures (store.Map(), err) == BlockASNOf(old(store.Map()), asn, rec, now, blockTTL, io)
    {
      if asn.None? {
        return Some(Missing);
      }
      var blocked := IsBlockedByASN(asn.value, now, io);
      if blocked {
        return None;
      }
      err := Write(ASNKey(asn.value.number), rec, now, io);
    }

    method BlockNetwork(network: Option<Bytes>, asn: ASN, rec: Record, now: int, io: Io) returns (err: Option<Error>)
      requires store.Valid()
      modifies store
      ensures store.Valid()
      ensures (store.Map(), err) == BlockNetworkOf(old(store.Map()), network, asn, rec, now, blockTTL, io)
    {
      if network.None? {
        return Some(Missing);
      }
      var blocked := IsBlockedByASN(asn, now, io);
      if blocked {
        return None;
      }
      err := Write(CIDRKey(network.value), rec, now, io);
    }

    method IsBlockedByASN(asn: ASN, now: int, io: Io) returns (blocked: bool)
      requires store.Valid()
      ensures blocked == SeenBlocked(store.Map(), asn, now, io)
      ensures blocked <==> || (!io.asnReadFails && LiveKey(store.Map(), ASNKey(asn.number), now))
                           || (!io.networkReadFails && LiveKey(store.Map(), CIDRKey(asn.network), now))
    {
      if !io.asnReadFails {
        var msg := store.Get(ASNKey(asn.number), now);
        if msg.Some? {
          return true;
        }
      }
      if !io.networkReadFails {
        var msg := store.Get(CIDRKey(asn.network), now);
        if msg.Some? {
          return true;
        }
      }
      blocked := false;
    }

    /** An address is blocked exactly when its own key, its system's or its network's is live and can be read. */
    method IsBlocked(ip: Bytes, asn: ASN, now: int, io: Io) returns (blocked: bool)
      requires store.Valid()
      ensures blocked <==> || (!io.getFails && LiveKey(store.Map(), IPKey(ip), now))
                           || (!io.asnReadFails && LiveKey(store.Map(), ASNKey(asn.number), now))
                           || (!io.networkReadFails && LiveKey(store.Map(), CIDRKey(asn.network), now))
      ensures io == ALL_OK ==> (blocked <==> Blocked(store.Map(), ip, asn, now))
    {
      if !io.getFails {
        var msg := store.Get(IPKey(ip), now);
        if msg.Some? {
          return true;
        }
      }
      blocked := IsBlockedByASN(asn, now, io);
    }

    method RemoveIP(ip: Bytes, now: int)
      requires store.Valid()
      modifies store
      ensures store.Valid() && store.Map() == Without(old(store.Map()), IPKey(ip), now)
    {
      store.Remove(IPKey(ip), now);
    }

    method Clear(now: int)
      requires store.Valid()
      modifies store
      ensures store.Valid() && store.Map() == Without(old(store.Map()), BL, now)
    {
      store.Remove(BL, now);
    }

    /**
     Goes over all blocked addresses and unblocks those that the rules whitelist by now. All records are
     decoded into the same variable, so one that cannot be decoded leaves the previous one in it.
     */
    method Recheck(rules: Rules, now: int) returns (panics: bool)
      requires store.Valid()
      modifies store
      ensures store.Valid()
      ensures (store.Map(), panics) == RecheckOf(old(store.Map()), rules, now)
      ensures WellKeyed(old(store.Map())) ==> store.Map() == Rechecked(old(store.Map()), rules, now) && !panics
    {
      ghost var db, items := store.Map(), store.items;
      var blocked := store.All(BL_IP, now);
      var ipd: Option<Record> := None;
      ItemsUnique(items, ItemsOf(db));
      if WellKeyed(db) {
        RecheckLoopExact(items, rules, now);
      }
      for i := 0 to |blocked|
        invariant store.Valid() && (ipd.Some? ==> ipd.value.IPRecord?)
        invariant RecheckLoop(store.Map(), blocked[i..], ipd, rules, now) == RecheckLoop(db, blocked, None, rules, now)
      {
        assert blocked[i..][1..] == blocked[i + 1..];
        if blocked[i].IPRecord? {
          ipd := Some(blocked[i]);
        }
        if ipd.None? {
          return true;
        }
        if rules(ipd.value.ip, ipd.value.hostname, ipd.value.asn) {
          RemoveIP(ipd.value.ip, now);
        }
      }
      panics := false;
    }
  }

  function BlockedIPs(items: seq<Item<Record>>, now: int): seq<Record>
  {
    Values(WithPrefix(LiveItems(items, now), BL_IP))
  }

  /** The recheck, record by record; without a first record that can be decoded the program panics. */
  function RecheckLoop(db: Db, recs: seq<Record>, ipd: Option<Record>, rules: Rules, now: int): (Db, bool)
    requires ipd.Some? ==> ipd.value.IPRecord?
  {
    if recs == [] then (db, false) else
      var next := if recs[0].IPRecord? then Some(recs[0]) else ipd;
      if next.None? then (db, true)
      else if rules(next.value.ip, next.value.hostname, next.value.asn)
      then RecheckLoop(Without(db, IPKey(next.value.ip), now), recs[1..], next, rules, now)
      else RecheckLoop(db, recs[1..], next, rules, now)
  }

  /** The recheck of a store: over its address records, in the order of their keys. */
  ghost function RecheckOf(db: Db, rules: Rules, now: int): (Db, bool)
  {
    RecheckLoop(db, BlockedIPs(ItemsOf(db), now), None, rules, now)
  }

  /** Does the recheck remove what is stored under k, because of a record that the rules whitelist? */
  ghost predicate RecheckTakes(db: Db, rules: Rules, now: int, k: Bytes)
  {
    exists k' :: k' in db && Unblocks(db, k', rules, now) && IPKey(db[k'].value.ip) <= k
  }

  /** Does the record make the recheck remove what is stored under k? */
  predicate Takes(r: Record, rules: Rules, k: Bytes)
  {
    r.IPRecord? && rules(r.ip, r.hostname, r.asn) && IPKey(r.ip) <= k
  }

  // The loop ends in a panic if and only if there are records and the first one cannot be decoded. Otherwise it
  // takes away exactly what is live and has the key of a whitelisted record as prefix, whatever the store holds.
  lemma {:induction false} LoopExact(db: Db, recs: seq<Record>, ipd: Option<Record>, rules: Rules, now: int, k: Bytes)
    requires ipd.Some? ==> ipd.value.IPRecord?
    ensures var (after, panics) := RecheckLoop(db, recs, ipd, rules, now);
            && (panics <==> recs != [] && ipd.None? && !recs[0].IPRecord?)
            && (panics ==> after == db)
            && (k in after ==> k in db && after[k] == db[k])
            && (!panics && ipd.None? && k in db ==>
                  (k !in after <==> LiveKey(db, k, now) && exists r :: r in recs && Takes(r, rules, k)))
            && (!panics && ipd.Some? && k in db && k !in after ==>
                  LiveKey(db, k, now) && exists r :: (r in recs || r == ipd.value) && Takes(r, rules, k))
            && (!panics && ipd.Some? && LiveKey(db, k, now) && (exists r :: r in recs && Takes(r, rules, k)) ==> k !in after)
  {
    if recs != [] {
      var next := if recs[0].IPRecord? then Some(recs[0]) else ipd;
      if next.Some? {
        var whitelisted := rules(next.value.ip, next.value.hostname, next.value.asn);
        LoopExact(if whitelisted then Without(db, IPKey(next.value.ip), now) else db, recs[1..], next, rules, now, k);
        assert recs[0] in recs && forall r :: r in recs <==> r == recs[0] || r in recs[1..];
        assert Takes(next.value, rules, k) <==> whitelisted && IPKey(next.value.ip) <= k;
      }
    }
  }

  // So the recheck of any store panics if and only if the first of its live address records cannot be decoded,
  // and then changes nothing; otherwise exactly what is live and has the key of a whitelisted live address
  // record as prefix is gone.
  lemma RecheckAny(db: Db, rules: Rules, now: int, k: Bytes)
    ensures var recs, (after, panics) := BlockedIPs(ItemsOf(db), now), RecheckOf(db, rules, now);
            && (panics <==> recs != [] && !recs[0].IPRecord?)
            && (panics ==> after == db)
            && (k in after ==> k in db && after[k] == db[k])
            && (!panics && k in db ==>
                  (k !in after <==> LiveKey(db, k, now) && exists r :: r in recs && Takes(r, rules, k)))
  {
    LoopExact(db, BlockedIPs(ItemsOf(db), now), None, rules, now, k);
  }

  lemma RecheckKeeps(db: Db, rules: Rules, now: int, k: Bytes)
    ensures k in RecheckOf(db, rules, now).0 ==> k in db && RecheckOf(db, rules, now).0[k] == db[k]
    ensures k in db && !RecheckTakes(db, rules, now, k) ==> k in RecheckOf(db, rules, now).0
  {
    var items := ItemsOf(db);
    var found, recs := WithPrefix(LiveItems(items, now), BL_IP), BlockedIPs(items, now);
    LoopExact(db, recs, None, rules, now, k);
    if k in db && k !in RecheckOf(db, rules, now).0 {
      var r :| r in recs && Takes(r, rules, k);
      var i :| 0 <= i < |recs| && recs[i] == r;
      ScanItem(items, BL_IP, now, i);
      assert Unblocks(db, found[i].key, rules, now);
    }
  }

  // ---------------------------------------------------------------- exact removal of addresses

  /** Every key of the address family is the key of the 16-byte address in its record. */
  ghost predicate WellKeyed(db: Db)
  {
    forall k :: k in db && BL_IP <= k ==> db[k].value.IPRecord? && |db[k].value.ip| == 16 && k == IPKey(db[k].value.ip)
  }

  // Since address keys have a fixed length, removing by prefix removes one address and nothing else.
  lemma RemoveIPExact(db: Db, gone: set<Bytes>, ip: Bytes, now: int)
    requires WellKeyed(db) && |ip| == 16 && LiveKey(db, IPKey(ip), now) && IPKey(ip) !in gone
    ensures Without(db - gone, IPKey(ip), now) == db - (gone + {IPKey(ip)})
  {
    forall k | k in db && IPKey(ip) <= k ensures k == IPKey(ip) {
      assert BL_IP <= IPKey(ip);
      assert BL_IP <= k;
      assert |k| == 22;
    }
  }

  /** The keys that the first i records found make the recheck remove. */
  ghost function Gone(found: seq<Item<Record>>, i: nat, db: Db, rules: Rules, now: int): set<Bytes>
    requires i <= |found|
  {
    set j | 0 <= j < i && Unblocks(db, found[j].key, rules, now) :: found[j].key
  }

  lemma GoneOneMore(found: seq<Item<Record>>, i: nat, db: Db, rules: Rules, now: int)
    requires i < |found|
    ensures Gone(found, i + 1, db, rules, now)
         == Gone(found, i, db, rules, now) + if Unblocks(db, found[i].key, rules, now) then {found[i].key} else {}
  {
  }

  // If all records are addresses filed under their own keys, the recheck removes exactly those that the
  // rules whitelist.
  lemma RecheckLoopExact(items: seq<Item<Record>>, rules: Rules, now: int)
    requires Sorted(items) && WellKeyed(Contents(items))
    ensures RecheckLoop(Contents(items), BlockedIPs(items, now), None, rules, now)
         == (Rechecked(Contents(items), rules, now), false)
  {
    var db, found := Contents(items), WithPrefix(LiveItems(items, now), BL_IP);
    assert db - Gone(found, 0, db, rules, now) == db;
    RecheckFrom(items, 0, None, rules, now);
    ScanKeys(items, BL_IP, now);
    forall k | k in db ensures k in Gone(found, |found|, db, rules, now) <==> Unblocks(db, k, rules, now) {
      if Unblocks(db, k, rules, now) {
        assert k in KeysOf(found);
      }
    }
    assert db - Gone(found, |found|, db, rules, now) == Rechecked(db, rules, now);
  }

  lemma {:induction false} RecheckFrom(items: seq<Item<Record>>, i: nat, ipd: Option<Record>, rules: Rules, now: int)
    requires Sorted(items) && WellKeyed(Contents(items)) && (ipd.Some? ==> ipd.value.IPRecord?)
    requires i <= |BlockedIPs(items, now)|
    ensures var db, found := Contents(items), WithPrefix(LiveItems(items, now), BL_IP);
            RecheckLoop(db - Gone(found, i, db, rules, now), BlockedIPs(items, now)[i..], ipd, rules, now)
            == (db - Gone(found, |found|, db, rules, now), false)
    decreases |BlockedIPs(items, now)| - i
  {
    var db, found, recs := Contents(items), WithPrefix(LiveItems(items, now), BL_IP), BlockedIPs(items, now);
    if i < |recs| {
      ScanItem(items, BL_IP, now, i);
      var rec, k := recs[i], found[i].key;
      assert rec == db[k].value && rec.IPRecord? && k == IPKey(rec.ip) && LiveKey(db, k, now);
      assert recs[i..][0] == rec && recs[i..][1..] == recs[i + 1..];
      GoneOneMore(found, i, db, rules, now);
      if Unblocks(db, k, rules, now) {
        forall j | 0 <= j < i ensures found[j].key != k {
          ScanDistinct(items, BL_IP, now, j, i);
        }
        RemoveIPExact(db, Gone(found, i, db, rules, now), rec.ip, now);
      }
      assert db - Gone(found, i + 1, db, rules, now)
          == if rules(rec.ip, rec.hostname, rec.asn) then Without(db - Gone(found, i, db, rules, now), k, now)
             else db - Gone(found, i, db, rules, now);
      RecheckFrom(items, i + 1, Some(rec), rules, now);
    } else {
      assert recs[i..] == [];
    }
  }
}
