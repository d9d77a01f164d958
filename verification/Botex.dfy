/** The workers between the addresses and the block list. */
module Botex {
  import opened Data
  import opened Block
  import opened IPData
  import opened Store

  /** What the block worker writes for an address. */
  function MessageFor(d: Details, now: int): Record
  {
    IPRecord(d.ip, d.hostname, d.asn, d.reason, now)
  }

  /** Is there nothing left to do for a queued address? */
  predicate Skips(d: Details)
  {
    d.isBlocked && !d.forceBlock
  }

  /** Is the address to be updated by force after a network or an autonomous system has been blocked? */
  predicate Selects(d: Details, db: Db, a: Attempt)
  {
    d.forceBlock || (!d.isBlocked && SeenBlocked(db, d.asn, a.now, a.io))
  }

  /** The forced updates that follow a newly blocked network or autonomous system, for addresses in this order. */
  function ToBlock(ds: seq<Details>, db: Db, at: nat -> Attempt): seq<IPStats>
  {
    if ds == [] then [] else
      var n := |ds| - 1;
      var ms := ToBlock(ds[..n], db, at);
      if Selects(ds[n], db, at(n)) then ms + [IPStats(ds[n].ip, ds[n].stats)] else ms
  }

  /**
   What the worker makes of an address and of the store: the address counts as blocked, and its record is
   written if it was not blocked before, or by force, unless a live record is there or an access fails.
   */
  ghost predicate Recorded(d: Details, db: Db, d': Details, db': Db, now: int, ttl: int, io: Io)
  {
    && d' == d.(isBlocked := true)
    && db' == if (!d.isBlocked || d.forceBlock) && !io.getFails && !LiveKey(db, IPKey(d.ip), now) && !io.writeFails
              then db[IPKey(d.ip) := Entry(IPRecord(d.ip, d.hostname, d.asn, d.reason, now), Some(now + ttl))] else db
  }

  // This is what skipping or writing comes to. So an address that was not blocked before, or was blocked
  // by force, has a live record afterwards, if the store works.
  lemma WorkRecords(d: Details, db: Db, now: int, ttl: int, io: Io)
    ensures var db' := if Skips(d) then db else BlockIPOf(db, Some(d.ip), MessageFor(d, now), now, ttl, io).0;
            && Recorded(d, db, if Skips(d) then d else d.(isBlocked := true), db', now, ttl, io)
            && ((!d.isBlocked || d.forceBlock) && !io.getFails && !io.writeFails && ttl > 0 ==> LiveKey(db', IPKey(d.ip), now))
  {
    assert d.isBlocked ==> d.(isBlocked := true) == d;
  }

  class Botex {
    const blocked: Block
    const resources: Resources

    constructor (blocked: Block, resources: Resources)
      ensures this.blocked == blocked && this.resources == resources
    {
      this.blocked, this.resources := blocked, resources;
    }

    /** Takes one address off the queue. The queue holds references: what is written is the address' present state. */
    method BlockWorker(now: int, io: Io)
      requires resources.blockChan != [] && blocked.store.Valid()
      modifies resources, resources.blockChan[0], blocked.store
      ensures blocked.store.Valid() && resources.blockChan == old(resources.blockChan)[1..]
      ensures var ipd := old(resources.blockChan)[0];
              var d := old(ipd.Value());
              && ipd.Value() == (if Skips(d) then d else d.(isBlocked := true))
              && blocked.store.Map() == if Skips(d) then old(blocked.store.Map())
                                        else BlockIPOf(old(blocked.store.Map()), Some(d.ip), MessageFor(d, now), now,
                                                       blocked.blockTTL, io).0
      ensures var ipd := old(resources.blockChan)[0];
              Recorded(old(ipd.Value()), old(blocked.store.Map()), ipd.Value(), blocked.store.Map(), now, blocked.blockTTL, io)
    {
      WorkRecords(resources.blockChan[0].Value(), blocked.store.Map(), now, blocked.blockTTL, io);
      var block := resources.blockChan[0];
      resources.blockChan := resources.blockChan[1..];
      if block.isBlocked && !block.forceBlock {
        return;
      }
      var msg := IPRecord(block.ip, block.hostname, block.asn, block.blockReason, now);
      var _ := blocked.BlockIP(Some(block.ip), msg, now, io);
      block.isBlocked := true;
    }
  }

  // A selected address has its place in the batch, behind those of the selected ones before it.
  lemma {:induction false} ToBlockAt(ds: seq<Details>, db: Db, at: nat -> Attempt, i: nat)
    requires i < |ds| && Selects(ds[i], db, at(i))
    ensures var j := |ToBlock(ds[..i], db, at)|;
            j < |ToBlock(ds, db, at)| && ToBlock(ds, db, at)[j] == IPStats(ds[i].ip, ds[i].stats)
  {
    var n := |ds| - 1;
    if i < n {
      ToBlockAt(ds[..n], db, at, i);
      assert ds[..n][..i] == ds[..i];
    }
  }

  lemma ToBlockMore(ds: seq<Details>, d: Details, db: Db, at: nat -> Attempt)
    ensures ToBlock(ds + [d], db, at)
         == ToBlock(ds, db, at) + if Selects(d, db, at(|ds|)) then [IPStats(d.ip, d.stats)] else []
  {
    assert (ds + [d])[..|ds|] == ds;
  }

  lemma {:induction false} ToBlockPrefix(ds: seq<Details>, db: Db, at: nat -> Attempt, i: nat)
    requires i <= |ds|
    ensures ToBlock(ds[..i], db, at) <= ToBlock(ds, db, at)
  {
    if i == |ds| {
      assert ds[..i] == ds;
    } else {
      ToBlockPrefix(ds[..|ds| - 1], db, at, i);
      assert ds[..|ds| - 1][..i] == ds[..i];
    }
  }

  // Exactly the addresses that were force-blocked before, and the unblocked ones whose network or
  // system is seen to be blocked by now, are updated by force, with the statistics they have.
  lemma {:induction false} ToBlockExact(ds: seq<Details>, db: Db, at: nat -> Attempt, m: IPStats)
    ensures m in ToBlock(ds, db, at) <==>
              exists i: nat ::
                && i < |ds| && m == IPStats(ds[i].ip, ds[i].stats)
                && (ds[i].forceBlock || (!ds[i].isBlocked && SeenBlocked(db, ds[i].asn, at(i).now, at(i).io)))
  {
    if ds != [] {
      var n := |ds| - 1;
      ToBlockExact(ds[..n], db, at, m);
      assert forall i: nat :: i < n ==> ds[..n][i] == ds[i];
      if m in ToBlock(ds[..n], db, at) {
        var i: nat :| i < n && m == IPStats(ds[..n][i].ip, ds[..n][i].stats) && Selects(ds[..n][i], db, at(i));
        assert Selects(ds[i], db, at(i));
      }
    }
  }

  /** No two of the addresses are the same. */
  ghost predicate Distinct(ds: seq<Details>)
  {
    forall i, j :: 0 <= i < j < |ds| ==> ds[i].ip != ds[j].ip
  }

  lemma {:induction false} ToBlockDistinct(ds: seq<Details>, db: Db, at: nat -> Attempt)
    requires Distinct(ds)
    ensures forall i, j :: 0 <= i < j < |ToBlock(ds, db, at)| ==> ToBlock(ds, db, at)[i].ip != ToBlock(ds, db, at)[j].ip
  {
    if ds != [] {
      var n := |ds| - 1;
      ToBlockDistinct(ds[..n], db, at);
      forall m | m in ToBlock(ds[..n], db, at) ensures m.ip != ds[n].ip {
        ToBlockExact(ds[..n], db, at, m);
      }
    }
  }
}
