/** The block list over whole runs: what stays blocked, what is unblocked, what is left alone. */
module BlockRuns {
  import opened Data
  import opened Store
  import opened Block

  datatype Op =
    | BlockIP(ip: Option<Bytes>, rec: Record, now: int, io: Io)
    | BlockASN(asn: Option<ASN>, rec: Record, now: int, io: Io)
    | BlockNetwork(network: Option<Bytes>, asn': ASN, rec: Record, now: int, io: Io)
    | Remove(prefix: Bytes, now: int)   // RemoveIP, RemoveASN, RemoveNetwork, Clear
    | Recheck(rules: Rules, now: int)

  ghost function Apply(db: Db, op: Op, ttl: int): Db
  {
    match op
    case BlockIP(ip, rec, now, io) => BlockIPOf(db, ip, rec, now, ttl, io).0
    case BlockASN(asn, rec, now, io) => BlockASNOf(db, asn, rec, now, ttl, io).0
    case BlockNetwork(network, asn, rec, now, io) => BlockNetworkOf(db, network, asn, rec, now, ttl, io).0
    case Remove(prefix, now) => Without(db, prefix, now)
    case Recheck(rules, now) => RecheckOf(db, rules, now).0
  }

  ghost function Run(db: Db, ops: seq<Op>, ttl: int): Db
  {
    if ops == [] then db else Apply(Run(db, ops[..|ops| - 1], ttl), ops[|ops| - 1], ttl)
  }

  /** Does the operation take away what is stored under k? */
  ghost predicate TakesAway(db: Db, op: Op, k: Bytes)
  {
    match op
    case Remove(prefix, _) => prefix <= k
    case Recheck(rules, now) => RecheckTakes(db, rules, now, k)
    case _ => false
  }

  // Whatever is live is neither overwritten nor prolonged by blocking anything, again or anew.
  lemma NeverOverwritten(db: Db, op: Op, ttl: int, k: Bytes)
    requires LiveKey(db, k, op.now) && !TakesAway(db, op, k)
    ensures k in Apply(db, op, ttl) && Apply(db, op, ttl)[k] == db[k]
  {
    if op.Recheck? {
      RecheckKeeps(db, op.rules, op.now, k);
    }
  }

  // A recheck takes away a record of a store with address records under their own keys if and only if
  // it is the live record of an address that the rules whitelist.
  lemma RecheckTakesExactly(db: Db, rules: Rules, now: int, k: Bytes)
    requires WellKeyed(db) && k in db
    ensures RecheckTakes(db, rules, now, k) <==> Unblocks(db, k, rules, now)
  {
    forall k' | k' in db && Unblocks(db, k', rules, now) && IPKey(db[k'].value.ip) <= k ensures k' == k {
      assert BL_IP <= IPKey(db[k'].value.ip);
      assert BL_IP <= k;
      assert |k| == 22;
    }
  }

  // A record stays as written until it expires, through any run that does not remove it.
  lemma {:induction false} StaysUntilExpiry(db: Db, ops: seq<Op>, ttl: int, k: Bytes)
    requires k in db
    requires forall i :: 0 <= i < |ops| ==> IsLive(db[k], ops[i].now) && !TakesAway(Run(db, ops[..i], ttl), ops[i], k)
    ensures k in Run(db, ops, ttl) && Run(db, ops, ttl)[k] == db[k]
  {
    if ops != [] {
      var n := |ops| - 1;
      var init, op := ops[..n], ops[n];
      forall i | 0 <= i < n ensures IsLive(db[k], init[i].now) && !TakesAway(Run(db, init[..i], ttl), init[i], k) {
        assert init[..i] == ops[..i];
        assert IsLive(db[k], ops[i].now);
      }
      StaysUntilExpiry(db, init, ttl, k);
      assert IsLive(db[k], ops[n].now) && !TakesAway(Run(db, ops[..n], ttl), ops[n], k);
      NeverOverwritten(Run(db, init, ttl), op, ttl, k);
    }
  }

  // An address blocked at time t counts as blocked at every moment before t + ttl, whatever else
  // happens to the block list meanwhile short of its own removal.
  lemma BlockedUntilTTL(db: Db, ip: Bytes, rec: Record, t: int, ttl: int, ops: seq<Op>, now: int, asn: ASN)
    requires !LiveKey(db, IPKey(ip), t) && now < t + ttl
    requires var db1 := BlockIPOf(db, Some(ip), rec, t, ttl, ALL_OK).0;
             forall i :: 0 <= i < |ops| ==> ops[i].now < t + ttl && !TakesAway(Run(db1, ops[..i], ttl), ops[i], IPKey(ip))
    ensures var db' := Run(BlockIPOf(db, Some(ip), rec, t, ttl, ALL_OK).0, ops, ttl);
            Blocked(db', ip, asn, now) && IPKey(ip) in db' && db'[IPKey(ip)] == Entry(rec, Some(t + ttl))
  {
    var db1 := BlockIPOf(db, Some(ip), rec, t, ttl, ALL_OK).0;
    assert db1[IPKey(ip)] == Entry(rec, Some(t + ttl));
    StaysUntilExpiry(db1, ops, ttl, IPKey(ip));
  }

  /** The addresses that are blocked are 16 bytes long, and records are filed under their own address. */
  ghost predicate Proper(op: Op)
  {
    match op
    case BlockIP(ip, rec, _, _) => ip.Some? ==> |ip.value| == 16 && rec.IPRecord? && rec.ip == ip.value
    case _ => true
  }

  lemma {:induction false} StaysWellKeyed(db: Db, ops: seq<Op>, ttl: int)
    requires WellKeyed(db) && forall i :: 0 <= i < |ops| ==> Proper(ops[i])
    ensures WellKeyed(Run(db, ops, ttl))
  {
    if ops != [] {
      var init, op := ops[..|ops| - 1], ops[|ops| - 1];
      assert forall i :: 0 <= i < |init| ==> init[i] == ops[i];
      StaysWellKeyed(db, init, ttl);
      assert Proper(op);
      if op.BlockASN? && op.asn.Some? {
        Families([], op.asn.value.number, [], []);
      } else if op.BlockNetwork? && op.network.Some? {
        Families([], 0, op.network.value, []);
      } else if op.Recheck? {
        forall k ensures var mid := Run(db, init, ttl); k in RecheckOf(mid, op.rules, op.now).0 ==>
                           k in mid && RecheckOf(mid, op.rules, op.now).0[k] == mid[k]
        {
          RecheckKeeps(Run(db, init, ttl), op.rules, op.now, k);
        }
      }
    }
  }

  // After a recheck exactly those addresses are blocked that were and that the rules do not whitelist;
  // networks, autonomous systems and everything else are as before.
  lemma RecheckExact(db: Db, rules: Rules, now: int, ip: Bytes)
    requires WellKeyed(db)
    ensures var after := RecheckOf(db, rules, now).0;
            && (LiveKey(after, IPKey(ip), now) <==>
                  LiveKey(db, IPKey(ip), now) && !rules(ip, db[IPKey(ip)].value.hostname, db[IPKey(ip)].value.asn))
            && forall k :: k in db && !(BL_IP <= k) ==> k in after && after[k] == db[k]
  {
    RecheckLoopExact(ItemsOf(db), rules, now);
    if LiveKey(db, IPKey(ip), now) {
      assert BL_IP <= IPKey(ip);
      KeysInjective(ip, db[IPKey(ip)].value.ip, 0, 0, [], []);
    }
  }

  // Clearing the block list unblocks everything and leaves the host cache and the statistics alone.
  lemma ClearExact(db: Db, now: int, ip: Bytes, asn: ASN)
    ensures !Blocked(Without(db, BL, now), ip, asn, now)
    ensures forall k :: k in db && (RL <= k || STATS <= k) ==> k in Without(db, BL, now) && Without(db, BL, now)[k] == db[k]
  {
    Families(ip, asn.number, asn.network, []);
    forall k | k in db && (RL <= k || STATS <= k) ensures k in Without(db, BL, now) {
      Families([], 0, [], k);
    }
  }

  // Unblocking one address unblocks that one only.
  lemma RemoveIPOnly(db: Db, ip: Bytes, now: int)
    requires WellKeyed(db) && |ip| == 16
    ensures forall k :: k in db && k != IPKey(ip) ==> k in Without(db, IPKey(ip), now)
    ensures !LiveKey(Without(db, IPKey(ip), now), IPKey(ip), now)
  {
    forall k | k in db && IPKey(ip) <= k ensures k == IPKey(ip) {
      assert BL_IP <= IPKey(ip);
      assert BL_IP <= k;
      assert |k| == 22;
    }
  }
}
