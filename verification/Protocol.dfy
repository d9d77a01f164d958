/**
 The blocking protocol: addresses, the queue of references to them, the block worker and the store,
 in every interleaving of their steps.
 */
module Protocol {
  import opened Data
  import opened Block
  import opened IPData
  import Botex
  import BlockRuns

  /** One entry into the queue, with everything the decision was based on. */
  datatype Enqueue = Enqueue(obj: nat, at: int, judgedAt: int, forced: bool, d: Details, rules: Rules, db: Db)

  datatype System = System(
    now: int,
    heap: seq<Details>,          // every address object ever made; the index stands for the reference
    table: map<Bytes, nat>,      // the history: the object in use for each address
    chan: seq<nat>,              // the queue to the block worker
    db: Db,
    enqueued: seq<Enqueue>,      // log: everything that ever entered the queue
    taken: seq<nat>,             // log: what the worker has taken from it
    asked: seq<nat>,             // log: which objects asked for their name
    written: seq<nat>,           // log: for which objects the worker called BlockIP
    start: Db)                   // log: what the store held at the start

  datatype Message = Message(ip: Bytes, stats: Stats, at: int, judgedAt: int, rules: Rules, io: Io)

  datatype Step =
    | Request(ip: Bytes, asn: ASN, createdAt: int, at: int, rules: Rules)
    | Update(msgs: seq<Message>, force: bool)
    | Named(ip: Bytes, name: string)
    | Work(at: int, io: Io)
    | Drop(ip: Bytes)
    | List(op: BlockRuns.Op)     // the block list is changed, but no address is blocked

  /** An address is updated: the decision may put it into the queue or ask for its name. */
  function UpdateOne(s: System, m: Message, force: bool, p: Policy): System
    requires m.ip in s.table && s.table[m.ip] < |s.heap|
  {
    Decided(s, m, force, s.table[m.ip], VerdictOn(s, m, force, p))
  }

  /** What a message makes of its address. */
  function VerdictOn(s: System, m: Message, force: bool, p: Policy): Verdict
    requires m.ip in s.table && s.table[m.ip] < |s.heap|
  {
    var d := s.heap[s.table[m.ip]];
    Updated(d, m.stats, force, m.at, m.judgedAt, p, m.rules, SeenBlocked(s.db, d.asn, m.judgedAt, m.io))
  }

  function Decided(s: System, m: Message, force: bool, id: nat, v: Verdict): System
    requires id < |s.heap|
  {
    s.(now := m.judgedAt, heap := s.heap[id := v.d],
       chan := if v.block then s.chan + [id] else s.chan,
       enqueued := if v.block then s.enqueued + [Enqueue(id, m.at, m.judgedAt, force, v.d, m.rules, s.db)] else s.enqueued,
       asked := if v.ask then s.asked + [id] else s.asked)
  }

  /** A batch is worked off in order, up to the first unknown address or message without requests. */
  function UpdateAll(s: System, msgs: seq<Message>, force: bool, p: Policy): System
    requires forall ip :: ip in s.table ==> s.table[ip] < |s.heap|
    decreases |msgs|
  {
    if msgs == [] || msgs[0].ip !in s.table || msgs[0].stats.total <= 0 then s
    else UpdateAll(UpdateOne(s, msgs[0], force, p), msgs[1..], force, p)
  }

  function Requested(s: System, ip: Bytes, asn: ASN, createdAt: int, at: int, rules: Rules): System
    requires forall ip :: ip in s.table ==> s.table[ip] < |s.heap|
  {
    var s' := if ip in s.table then s
              else s.(heap := s.heap + [NewDetails(ip, asn, createdAt, rules)], table := s.table[ip := |s.heap|]);
    var id := s'.table[ip];
    s'.(now := at, heap := s'.heap[id := s'.heap[id].(updatedAt := at)])
  }

  function Worked(s: System, at: int, io: Io, p: Policy): System
    requires s.chan != [] && s.chan[0] < |s.heap|
  {
    var id := s.chan[0];
    var d := s.heap[id];
    var s' := s.(now := at, chan := s.chan[1..], taken := s.taken + [id]);
    if Botex.Skips(d) then s'
    else s'.(heap := s.heap[id := d.(isBlocked := true)], written := s.written + [id],
             db := BlockIPOf(s.db, Some(d.ip), Botex.MessageFor(d, at), at, p.blockTTL, io).0)
  }

  ghost predicate MessagesOrdered(msgs: seq<Message>, now: int)
  {
    msgs != [] ==> now <= msgs[0].at <= msgs[0].judgedAt && MessagesOrdered(msgs[1..], msgs[0].judgedAt)
  }

  /** References are valid, and the table leads to objects of the right address. */
  ghost predicate Valid(s: System)
  {
    && (forall ip :: ip in s.table ==> s.table[ip] < |s.heap| && s.heap[s.table[ip]].ip == ip)
    && (forall i :: 0 <= i < |s.chan| ==> s.chan[i] < |s.heap|)
    && (forall i :: 0 <= i < |s.asked| ==> s.asked[i] < |s.heap|)
    && (forall i :: 0 <= i < |s.written| ==> s.written[i] < |s.heap|)
    && (forall i :: 0 <= i < |s.enqueued| ==> s.enqueued[i].obj < |s.heap| && s.enqueued[i].d.ip == s.heap[s.enqueued[i].obj].ip)
  }

  ghost predicate Enabled(s: System, step: Step)
  {
    match step
    case Request(ip, asn, createdAt, at, rules) => s.now <= createdAt <= at
    case Update(msgs, _) => MessagesOrdered(msgs, s.now)
    case Named(_, _) => true
    case Work(at, _) => s.chan != [] && s.now <= at
    case Drop(ip) => ip in s.table
    case List(op) => !op.BlockIP? && s.now <= op.now
  }

  ghost function Next(s: System, step: Step, p: Policy): System
    requires Valid(s) && Enabled(s, step)
  {
    match step
    case Request(ip, asn, createdAt, at, rules) => Requested(s, ip, asn, createdAt, at, rules)
    case Update(msgs, force) => UpdateAll(s, msgs, force, p)
    case Named(ip, name) =>
      if ip in s.table then s.(heap := s.heap[s.table[ip] := s.heap[s.table[ip]].(hostname := name)]) else s
    case Work(at, io) => Worked(s, at, io, p)
    case Drop(ip) => s.(table := s.table - {ip})
    case List(op) => s.(now := op.now, db := BlockRuns.Apply(s.db, op, p.blockTTL))
  }

  // ---------------------------------------------------------------- references

  lemma UpdateOneValid(s: System, m: Message, force: bool, p: Policy)
    requires Valid(s) && m.ip in s.table
    ensures Valid(UpdateOne(s, m, force, p))
  {
    DecidedValid(s, m, force, s.table[m.ip], VerdictOn(s, m, force, p));
  }

  lemma DecidedValid(s: System, m: Message, force: bool, id: nat, v: Verdict)
    requires Valid(s) && id < |s.heap| && v.d.ip == s.heap[id].ip
    ensures Valid(Decided(s, m, force, id, v))
  {
  }

  lemma {:induction false} UpdateAllValid(s: System, msgs: seq<Message>, force: bool, p: Policy)
    requires Valid(s)
    ensures Valid(UpdateAll(s, msgs, force, p))
    decreases |msgs|
  {
    if msgs != [] && msgs[0].ip in s.table && msgs[0].stats.total > 0 {
      UpdateOneValid(s, msgs[0], force, p);
      UpdateAllValid(UpdateOne(s, msgs[0], force, p), msgs[1..], force, p);
    }
  }

  lemma StepValid(s: System, step: Step, p: Policy)
    requires Valid(s) && Enabled(s, step)
    ensures Valid(Next(s, step, p))
  {
    match step
    case Request(ip, asn, createdAt, at, rules) => RequestedValid(s, ip, asn, createdAt, at, rules);
    case Update(msgs, force) => UpdateAllValid(s, msgs, force, p);
    case Work(at, io) => WorkedValid(s, at, io, p);
    case Named(_, _) =>
    case Drop(_) =>
    case List(_) =>
  }

  lemma RequestedValid(s: System, ip: Bytes, asn: ASN, createdAt: int, at: int, rules: Rules)
    requires Valid(s)
    ensures Valid(Requested(s, ip, asn, createdAt, at, rules))
  {
  }

  lemma WorkedValid(s: System, at: int, io: Io, p: Policy)
    requires Valid(s) && s.chan != []
    ensures Valid(Worked(s, at, io, p))
  {
  }

  // ---------------------------------------------------------------- what entered the queue

  /** Everything that must have held for an address to be queued. */
  ghost predicate Justified(e: Enqueue, p: Policy)
  {
    var d := e.d;
    && d.hostname != "" && d.hostname != RESOLVING
    && !d.whitelisted && !e.rules(d.ip, d.hostname, d.asn)
    && (e.judgedAt - p.windowSize <= d.updatedAt || e.judgedAt - p.windowSize <= d.createdAt)
    && (|| d.stats.app > p.maxApp
        || (d.stats.app > p.minApp && p.maxRatio <= d.stats.ratio)
        || (p.withNetworks && ASNBlocked(e.db, d.asn, e.judgedAt)))
  }

  /** The queue is what has entered and not been taken yet, in order. */
  ghost predicate InQueueOrder(s: System)
  {
    QueueOrder(s.enqueued, s.taken, s.chan)
  }

  ghost predicate QueueOrder(enqueued: seq<Enqueue>, taken: seq<nat>, chan: seq<nat>)
  {
    && |enqueued| == |taken| + |chan|
    && (forall i :: 0 <= i < |taken| ==> enqueued[i].obj == taken[i])
    && (forall i :: |taken| <= i < |enqueued| ==> enqueued[i].obj == chan[i - |taken|])
  }

  lemma TakeNext(enqueued: seq<Enqueue>, taken: seq<nat>, chan: seq<nat>)
    requires QueueOrder(enqueued, taken, chan) && chan != []
    ensures QueueOrder(enqueued, taken + [chan[0]], chan[1..])
  {
  }

  ghost predicate AllJustified(s: System, p: Policy)
  {
    forall i :: 0 <= i < |s.enqueued| ==> Justified(s.enqueued[i], p) && s.enqueued[i].at <= s.now
  }

  ghost predicate Queued(s: System, p: Policy)
  {
    InQueueOrder(s) && AllJustified(s, p) && Traced(s)
  }

  /** Each address in the store is there unchanged from the start, or was written after it had been queued. */
  ghost predicate Traced(s: System)
  {
    forall k :: k in s.db && BL_IP <= k ==> FromStart(s, k) || FromQueue(s, k)
  }

  ghost predicate FromStart(s: System, k: Bytes)
    requires k in s.db
  {
    k in s.start && s.start[k] == s.db[k]
  }

  ghost predicate FromQueue(s: System, k: Bytes)
    requires k in s.db
  {
    exists i :: 0 <= i < |s.taken| && i < |s.enqueued| && FromEntry(s.db[k].value, k, s.enqueued[i])
  }

  /** The record under k is of the address of this entry and was written after it. */
  ghost predicate FromEntry(rec: Record, k: Bytes, e: Enqueue)
  {
    rec.IPRecord? && k == IPKey(rec.ip) && rec.ip == e.d.ip && e.at <= rec.blockedAt
  }

  lemma UpdateOneQueued(s: System, m: Message, force: bool, p: Policy)
    requires Valid(s) && Queued(s, p) && m.ip in s.table && s.now <= m.at <= m.judgedAt
    ensures Queued(UpdateOne(s, m, force, p), p)
  {
    UpdateOneJustified(s, m, force, p);
    var s' := UpdateOne(s, m, force, p);
    assert forall i :: 0 <= i < |s.enqueued| ==> s'.enqueued[i] == s.enqueued[i];
    assert forall k :: k in s.db && FromQueue(s, k) ==> FromQueue(s', k);
  }

  lemma UpdateOneJustified(s: System, m: Message, force: bool, p: Policy)
    requires Valid(s) && AllJustified(s, p) && m.ip in s.table && s.now <= m.at <= m.judgedAt
    ensures AllJustified(UpdateOne(s, m, force, p), p)
  {
    var d := s.heap[s.table[m.ip]].(stats := m.stats);
    BlocksExactly(d, p, m.judgedAt, m.rules, SeenBlocked(s.db, d.asn, m.judgedAt, m.io));
  }

  lemma {:induction false} UpdateAllQueued(s: System, msgs: seq<Message>, force: bool, p: Policy)
    requires Valid(s) && Queued(s, p) && MessagesOrdered(msgs, s.now)
    ensures Queued(UpdateAll(s, msgs, force, p), p)
    decreases |msgs|
  {
    if msgs != [] && msgs[0].ip in s.table && msgs[0].stats.total > 0 {
      UpdateOneValid(s, msgs[0], force, p);
      UpdateOneQueued(s, msgs[0], force, p);
      UpdateAllQueued(UpdateOne(s, msgs[0], force, p), msgs[1..], force, p);
    }
  }

  lemma WorkQueued(s: System, at: int, io: Io, p: Policy)
    requires Valid(s) && Queued(s, p) && s.chan != [] && s.now <= at
    ensures Queued(Worked(s, at, io, p), p)
  {
    WorkInOrder(s, at, io, p);
    WorkTraced(s, at, io, p);
  }

  lemma WorkInOrder(s: System, at: int, io: Io, p: Policy)
    requires Valid(s) && InQueueOrder(s) && s.chan != []
    ensures InQueueOrder(Worked(s, at, io, p))
  {
    TakeNext(s.enqueued, s.taken, s.chan);
  }

  lemma WorkTraced(s: System, at: int, io: Io, p: Policy)
    requires Valid(s) && InQueueOrder(s) && AllJustified(s, p) && Traced(s) && s.chan != [] && s.now <= at
    ensures Traced(Worked(s, at, io, p))
  {
    var s', id, n := Worked(s, at, io, p), s.chan[0], |s.taken|;
    assert s.enqueued[n].obj == id;
    forall k | k in s'.db && BL_IP <= k ensures FromStart(s', k) || FromQueue(s', k) {
      if k in s.db && s'.db[k] == s.db[k] {
        if !FromStart(s, k) {
          var i :| 0 <= i < |s.taken| && i < |s.enqueued| && FromEntry(s.db[k].value, k, s.enqueued[i]);
          assert FromEntry(s'.db[k].value, k, s'.enqueued[i]);
        }
      } else {
        assert FromEntry(s'.db[k].value, k, s'.enqueued[n]);
      }
    }
  }

  lemma ListTraced(s: System, op: BlockRuns.Op, p: Policy)
    requires Traced(s) && !op.BlockIP?
    ensures Traced(s.(now := op.now, db := BlockRuns.Apply(s.db, op, p.blockTTL)))
  {
    if op.BlockASN? && op.asn.Some? {
      Families([], op.asn.value.number, [], []);
    } else if op.BlockNetwork? && op.network.Some? {
      Families([], 0, op.network.value, []);
    }
    var db := BlockRuns.Apply(s.db, op, p.blockTTL);
    forall k | k in db && BL_IP <= k ensures k in s.db && db[k] == s.db[k] {
      if op.Recheck? {
        RecheckKeeps(s.db, op.rules, op.now, k);
      }
    }
    var s' := s.(now := op.now, db := db);
    assert forall k :: k in db && BL_IP <= k && FromQueue(s, k) ==> FromQueue(s', k);
  }

  lemma StepQueued(s: System, step: Step, p: Policy)
    requires Valid(s) && Queued(s, p) && Enabled(s, step)
    ensures Queued(Next(s, step, p), p)
  {
    match step
    case Update(msgs, force) => UpdateAllQueued(s, msgs, force, p);
    case Work(at, io) => WorkQueued(s, at, io, p);
    case List(op) => ListTraced(s, op, p);
    case _ =>
  }

  // ---------------------------------------------------------------- the loop over a batch

  class Addresses {
    var state: System
    const policy: Policy

    constructor (state: System, policy: Policy)
      ensures this.state == state && this.policy == policy
    {
      this.state, this.policy := state, policy;
    }

    /** Updates one address after the other, and returns at the first message it cannot use. */
    method Update(force: bool, msgs: seq<Message>)
      requires Valid(state)
      modifies this
      ensures Valid(state) && state == UpdateAll(old(state), msgs, force, policy)
    {
      var rest := msgs;
      while rest != []
        invariant Valid(state) && UpdateAll(state, rest, force, policy) == UpdateAll(old(state), msgs, force, policy)
        decreases |rest|
      {
        var m := rest[0];
        if m.ip !in state.table || m.stats.total <= 0 {
          return;
        }
        UpdateOneValid(state, m, force, policy);
        state := UpdateOne(state, m, force, policy);
        rest := rest[1..];
      }
    }

    /** Collects the addresses that a newly blocked network or system concerns, in any order, and updates them by force. */
    method BlockASNNetWorker(at: nat -> Attempt, judge: nat -> Judging) returns (order: seq<Bytes>)
      requires Valid(state)
      modifies this
      ensures Valid(state) && Lists(order, old(state))
      ensures state == UpdateAll(old(state), Forced(old(state), order, at, judge), true, policy)
    {
      var toBlock;
      order, toBlock := Collect(state, at);
      Update(true, Messages(toBlock, judge));
    }
  }

  /** Goes over the table in any order and collects the forced updates. */
  method Collect(s: System, at: nat -> Attempt) returns (order: seq<Bytes>, toBlock: seq<IPStats>)
    requires Valid(s)
    ensures Lists(order, s) && toBlock == Botex.ToBlock(Listed(s, order), s.db, at)
  {
    order, toBlock := [], [];
    var todo := s.table.Keys;
    while todo != {}
      invariant Collected(s, order, todo, toBlock, at)
      decreases |todo|
    {
      var ip :| ip in todo;
      var ipd := s.heap[s.table[ip]];
      var a := at(|order|);
      CollectMore(s, order, todo, toBlock, at, ip);
      var blockedByASN := SeenBlocked(s.db, ipd.asn, a.now, a.io);
      if !(!ipd.forceBlock && (ipd.isBlocked || !blockedByASN)) {
        toBlock := toBlock + [IPStats(ipd.ip, ipd.stats)];
      }
      order := order + [ip];
      todo := todo - {ip};
    }
  }

  /** The addresses not to do any more have been gone over, each once. */
  ghost predicate Collected(s: System, order: seq<Bytes>, todo: set<Bytes>, toBlock: seq<IPStats>, at: nat -> Attempt)
    requires Valid(s)
  {
    && todo <= s.table.Keys
    && (forall ip :: ip in order <==> ip in s.table && ip !in todo)
    && (forall i, j :: 0 <= i < j < |order| ==> order[i] != order[j])
    && toBlock == Botex.ToBlock(Listed(s, order), s.db, at)
  }

  lemma CollectMore(s: System, order: seq<Bytes>, todo: set<Bytes>, toBlock: seq<IPStats>, at: nat -> Attempt, ip: Bytes)
    requires Valid(s) && Collected(s, order, todo, toBlock, at) && ip in todo
    ensures var ipd := s.heap[s.table[ip]];
            var more := if Botex.Selects(ipd, s.db, at(|order|)) then [IPStats(ipd.ip, ipd.stats)] else [];
            Collected(s, order + [ip], todo - {ip}, toBlock + more, at)
  {
    assert Listed(s, order + [ip]) == Listed(s, order) + [s.heap[s.table[ip]]];
    Botex.ToBlockMore(Listed(s, order), s.heap[s.table[ip]], s.db, at);
  }

  /** The clock readings, the rules and the failing accesses of one update. */
  datatype Judging = Judging(at: int, judgedAt: int, rules: Rules, io: Io)

  function Messages(ms: seq<IPStats>, judge: nat -> Judging): (msgs: seq<Message>)
    ensures |msgs| == |ms|
  {
    seq(|ms|, i requires 0 <= i < |ms| =>
      Message(ms[i].ip, ms[i].stats, judge(i).at, judge(i).judgedAt, judge(i).rules, judge(i).io))
  }

  /** The list has every address of the table once. */
  ghost predicate Lists(order: seq<Bytes>, s: System)
  {
    && (forall ip :: ip in order <==> ip in s.table)
    && (forall i, j :: 0 <= i < j < |order| ==> order[i] != order[j])
  }

  /** The present state of the addresses, in this order. */
  function Listed(s: System, order: seq<Bytes>): (ds: seq<Details>)
    requires forall ip :: ip in order ==> ip in s.table && s.table[ip] < |s.heap|
    ensures |ds| == |order|
  {
    seq(|order|, i requires 0 <= i < |order| => s.heap[s.table[order[i]]])
  }

  /** The forced batch that follows a newly blocked network or system. */
  function Forced(s: System, order: seq<Bytes>, at: nat -> Attempt, judge: nat -> Judging): seq<Message>
    requires forall ip :: ip in order ==> ip in s.table && s.table[ip] < |s.heap|
  {
    Messages(Botex.ToBlock(Listed(s, order), s.db, at), judge)
  }

  // Nothing behind an unknown address or a message without requests is looked at; so the message that
  // comes with a new hostname, which reports no requests, never leads to a decision.
  lemma {:induction false} BatchStopsAtEmpty(s: System, msgs: seq<Message>, force: bool, p: Policy, i: nat)
    requires Valid(s) && i < |msgs| && (msgs[i].stats.total <= 0 || msgs[i].ip !in s.table)
    ensures UpdateAll(s, msgs, force, p) == UpdateAll(s, msgs[..i], force, p)
    decreases |msgs|
  {
    if i > 0 && msgs[0].ip in s.table && msgs[0].stats.total > 0 {
      UpdateOneValid(s, msgs[0], force, p);
      assert msgs[..i][1..] == msgs[1..][..i - 1];
      BatchStopsAtEmpty(UpdateOne(s, msgs[0], force, p), msgs[1..], force, p, i - 1);
    }
  }

  /** No two messages are about the same address. */
  ghost predicate OneEach(msgs: seq<Message>)
  {
    forall i, j :: 0 <= i < j < |msgs| ==> msgs[i].ip != msgs[j].ip
  }

  predicate Usable(s: System, m: Message)
  {
    m.ip in s.table && m.stats.total > 0
  }

  /** The batch is not given up before the i-th message or at it. */
  ghost predicate Reached(s: System, msgs: seq<Message>, i: nat)
    requires i < |msgs|
  {
    forall j :: 0 <= j <= i ==> Usable(s, msgs[j])
  }

  /** From s to s' the object has become d and has entered the queue or not; the queue has only grown, the store is the same. */
  ghost predicate Became(s: System, s': System, id: nat, d: Details, queued: bool)
  {
    && id < |s'.heap| && s'.heap[id] == d
    && s.chan <= s'.chan && s'.db == s.db
    && (id in s'.chan[|s.chan|..] <==> queued)
  }

  lemma BecameThen(s: System, s1: System, s2: System, id: nat, d1: Details, d2: Details, q1: bool, q2: bool)
    requires Became(s, s1, id, d1, q1) && Became(s1, s2, id, d2, q2)
    ensures Became(s, s2, id, d2, q1 || q2)
  {
    assert s2.chan[|s.chan|..] == s1.chan[|s.chan|..] + s2.chan[|s1.chan|..];
  }

  lemma OneBecomes(s: System, m: Message, force: bool, p: Policy, id: nat)
    requires Valid(s) && m.ip in s.table && id < |s.heap|
    ensures var v, hit := VerdictOn(s, m, force, p), id == s.table[m.ip];
            Became(s, UpdateOne(s, m, force, p), id, if hit then v.d else s.heap[id], hit && v.block)
  {
    var s' := UpdateOne(s, m, force, p);
    assert s'.chan[|s.chan|..] == if VerdictOn(s, m, force, p).block then [s.table[m.ip]] else [];
  }

  lemma {:induction false} OthersUntouched(s: System, msgs: seq<Message>, force: bool, p: Policy, id: nat)
    requires Valid(s) && id < |s.heap|
    requires forall i :: 0 <= i < |msgs| && msgs[i].ip in s.table ==> s.table[msgs[i].ip] != id
    ensures Became(s, UpdateAll(s, msgs, force, p), id, s.heap[id], false)
    decreases |msgs|
  {
    if msgs != [] && Usable(s, msgs[0]) {
      var s1 := UpdateOne(s, msgs[0], force, p);
      UpdateOneValid(s, msgs[0], force, p);
      OneBecomes(s, msgs[0], force, p, id);
      OthersUntouched(s1, msgs[1..], force, p, id);
      BecameThen(s, s1, UpdateAll(s1, msgs[1..], force, p), id, s.heap[id], s.heap[id], false, false);
    }
  }

  lemma SameVerdict(s: System, s': System, m: Message, force: bool, p: Policy)
    requires Valid(s) && m.ip in s.table && s'.table == s.table && s'.db == s.db
    requires |s'.heap| == |s.heap| && s'.heap[s.table[m.ip]] == s.heap[s.table[m.ip]]
    ensures VerdictOn(s', m, force, p) == VerdictOn(s, m, force, p)
  {
  }

  lemma ReachedRest(s: System, s': System, msgs: seq<Message>, i: nat)
    requires 0 < i < |msgs| && Usable(s, msgs[0]) && s'.table == s.table
    ensures Reached(s', msgs[1..], i - 1) <==> Reached(s, msgs, i)
  {
    if Reached(s', msgs[1..], i - 1) {
      forall j | 0 < j <= i ensures Usable(s, msgs[j]) {
        assert Usable(s', msgs[1..][j - 1]);
      }
    }
  }

  lemma FirstOfBatch(s: System, msgs: seq<Message>, force: bool, p: Policy)
    requires Valid(s) && OneEach(msgs) && msgs != [] && Usable(s, msgs[0])
    ensures var v := VerdictOn(s, msgs[0], force, p);
            Became(s, UpdateAll(s, msgs, force, p), s.table[msgs[0].ip], v.d, v.block)
  {
    var s1, v, id := UpdateOne(s, msgs[0], force, p), VerdictOn(s, msgs[0], force, p), s.table[msgs[0].ip];
    UpdateOneValid(s, msgs[0], force, p);
    OneBecomes(s, msgs[0], force, p, id);
    OthersUntouched(s1, msgs[1..], force, p, id);
    BecameThen(s, s1, UpdateAll(s1, msgs[1..], force, p), id, v.d, v.d, v.block, false);
  }

  /** Every message that has an address of the table has its effect alone, if it is reached. */
  ghost predicate Alone(s: System, msgs: seq<Message>, force: bool, p: Policy, i: nat)
    requires Valid(s) && i < |msgs| && msgs[i].ip in s.table
  {
    var v, id, reached := VerdictOn(s, msgs[i], force, p), s.table[msgs[i].ip], Reached(s, msgs, i);
    Became(s, UpdateAll(s, msgs, force, p), id, if reached then v.d else s.heap[id], reached && v.block)
  }

  lemma LaterOfBatch(s: System, s1: System, msgs: seq<Message>, force: bool, p: Policy, i: nat)
    requires Valid(s) && OneEach(msgs) && 0 < i < |msgs| && Usable(s, msgs[0]) && msgs[i].ip in s.table
    requires s1 == UpdateOne(s, msgs[0], force, p) && Valid(s1) && Alone(s1, msgs[1..], force, p, i - 1)
    ensures Alone(s, msgs, force, p, i)
  {
    var id, v, reached := s.table[msgs[i].ip], VerdictOn(s, msgs[i], force, p), Reached(s, msgs, i);
    OneBecomes(s, msgs[0], force, p, id);
    SameVerdict(s, s1, msgs[i], force, p);
    ReachedRest(s, s1, msgs, i);
    BecameThen(s, s1, UpdateAll(s1, msgs[1..], force, p), id, s.heap[id],
               if reached then v.d else s.heap[id], false, reached && v.block);
  }

  // A batch about different addresses updates each of them as if its message came alone, if and only if
  // neither it nor a message before it is of an unknown address or without requests; if not, not at all.
  lemma {:induction false} BatchExact(s: System, msgs: seq<Message>, force: bool, p: Policy, i: nat)
    requires Valid(s) && OneEach(msgs) && i < |msgs| && msgs[i].ip in s.table
    ensures Alone(s, msgs, force, p, i)
    decreases |msgs|
  {
    if !Usable(s, msgs[0]) {
      assert !Reached(s, msgs, i);
    } else if i == 0 {
      FirstOfBatch(s, msgs, force, p);
    } else {
      var s1 := UpdateOne(s, msgs[0], force, p);
      UpdateOneValid(s, msgs[0], force, p);
      BatchExact(s1, msgs[1..], force, p, i - 1);
      LaterOfBatch(s, s1, msgs, force, p, i);
    }
  }

  // So an address of a batch enters the queue if and only if its message is reached, it is judged to be
  // blocked with the statistics of the message, and the batch is forced or more than the block TTL has
  // passed since it last entered. Then it is stamped and, by force, marked; otherwise both stay as they were.
  lemma BatchQueues(s: System, msgs: seq<Message>, force: bool, p: Policy, i: nat)
    requires Valid(s) && OneEach(msgs) && i < |msgs| && msgs[i].ip in s.table
    ensures var m, s', id := msgs[i], UpdateAll(s, msgs, force, p), s.table[msgs[i].ip];
            && s.chan <= s'.chan && id < |s'.heap|
            && var d, d', queued := s.heap[id], s'.heap[id], id in s'.chan[|s.chan|..];
               && (queued <==>
                     && (forall j :: 0 <= j <= i ==> Usable(s, msgs[j]))
                     && d.hostname != "" && d.hostname != RESOLVING
                     && !d.whitelisted && !m.rules(d.ip, d.hostname, d.asn)
                     && (m.judgedAt - p.windowSize <= d.updatedAt || m.judgedAt - p.windowSize <= d.createdAt)
                     && (|| m.stats.app > p.maxApp
                         || (m.stats.app > p.minApp && p.maxRatio <= m.stats.ratio)
                         || (p.withNetworks && SeenBlocked(s.db, d.asn, m.judgedAt, m.io)))
                     && (force || d.lastBlockAt + p.blockTTL < m.at))
               && d'.lastBlockAt == (if queued then m.at else d.lastBlockAt)
               && (d'.forceBlock <==> d.forceBlock || (queued && force))
               && d'.isBlocked == d.isBlocked
               && d'.stats == if forall j :: 0 <= j <= i ==> Usable(s, msgs[j]) then m.stats else d.stats
  {
    var m, d := msgs[i], s.heap[s.table[msgs[i].ip]];
    BatchExact(s, msgs, force, p, i);
    UpdatedExactly(d, m.stats, force, m.at, m.judgedAt, p, m.rules, SeenBlocked(s.db, d.asn, m.judgedAt, m.io));
  }

  // Of a forced batch exactly those addresses enter the queue that are reached and judged to be
  // blocked, however recently they were blocked before; for an address of a blocked network or system
  // that is, if the plugin is used, every one with a known name that is active and not whitelisted.
  lemma ForcedBatchQueues(s: System, msgs: seq<Message>, p: Policy, i: nat)
    requires Valid(s) && OneEach(msgs) && i < |msgs| && msgs[i].ip in s.table
    ensures var m, s' := msgs[i], UpdateAll(s, msgs, true, p);
            var d := s.heap[s.table[m.ip]];
            s.chan <= s'.chan &&
            (s.table[m.ip] in s'.chan[|s.chan|..] <==>
              && (forall j :: 0 <= j <= i ==> Usable(s, msgs[j]))
              && d.hostname != "" && d.hostname != RESOLVING
              && !d.whitelisted && !m.rules(d.ip, d.hostname, d.asn)
              && (m.judgedAt - p.windowSize <= d.updatedAt || m.judgedAt - p.windowSize <= d.createdAt)
              && (|| m.stats.app > p.maxApp
                  || (m.stats.app > p.minApp && p.maxRatio <= m.stats.ratio)
                  || (p.withNetworks && SeenBlocked(s.db, d.asn, m.judgedAt, m.io))))
  {
    BatchQueues(s, msgs, true, p, i);
  }

  // After a network or a system has been blocked, an address enters the queue if and only if it is
  // selected, no selected address up to it in the order of the table is without requests, and it is
  // judged to be blocked with the statistics it has.
  lemma NetWorkerQueues(s: System, order: seq<Bytes>, at: nat -> Attempt, judge: nat -> Judging, p: Policy, i: nat)
    requires Valid(s) && Lists(order, s) && i < |order|
    ensures var ds, s' := Listed(s, order), UpdateAll(s, Forced(s, order, at, judge), true, p);
            var id, d, g := s.table[order[i]], ds[i], judge(|Botex.ToBlock(ds[..i], s.db, at)|);
            s.chan <= s'.chan &&
            (id in s'.chan[|s.chan|..] <==>
               && (d.forceBlock || (!d.isBlocked && SeenBlocked(s.db, d.asn, at(i).now, at(i).io)))
               && (forall j: nat :: j <= i && (ds[j].forceBlock || (!ds[j].isBlocked && SeenBlocked(s.db, ds[j].asn, at(j).now, at(j).io)))
                     ==> ds[j].stats.total > 0)
               && d.hostname != "" && d.hostname != RESOLVING
               && !d.whitelisted && !g.rules(d.ip, d.hostname, d.asn)
               && (g.judgedAt - p.windowSize <= d.updatedAt || g.judgedAt - p.windowSize <= d.createdAt)
               && (|| d.stats.app > p.maxApp
                   || (d.stats.app > p.minApp && p.maxRatio <= d.stats.ratio)
                   || (p.withNetworks && SeenBlocked(s.db, d.asn, g.judgedAt, g.io))))
  {
    var d, g := Listed(s, order)[i], judge(|Botex.ToBlock(Listed(s, order)[..i], s.db, at)|);
    ForcedQueues(s, order, at, judge, p, i);
    BlocksExactly(d, p, g.judgedAt, g.rules, SeenBlocked(s.db, d.asn, g.judgedAt, g.io));
  }

  lemma ForcedQueues(s: System, order: seq<Bytes>, at: nat -> Attempt, judge: nat -> Judging, p: Policy, i: nat)
    requires Valid(s) && Lists(order, s) && i < |order|
    ensures var ds, s' := Listed(s, order), UpdateAll(s, Forced(s, order, at, judge), true, p);
            var id, d, g := s.table[order[i]], ds[i], judge(|Botex.ToBlock(ds[..i], s.db, at)|);
            s.chan <= s'.chan &&
            (id in s'.chan[|s.chan|..] <==>
               && Botex.Selects(d, s.db, at(i))
               && (forall j: nat :: j <= i && Botex.Selects(ds[j], s.db, at(j)) ==> ds[j].stats.total > 0)
               && Judged(d, p, g.judgedAt, g.rules, SeenBlocked(s.db, d.asn, g.judgedAt, g.io)).block)
  {
    var ds, msgs := Listed(s, order), Forced(s, order, at, judge);
    Botex.ToBlockDistinct(ds, s.db, at);
    if Botex.Selects(ds[i], s.db, at(i)) {
      var j := |Botex.ToBlock(ds[..i], s.db, at)|;
      Botex.ToBlockAt(ds, s.db, at, i);
      assert msgs[j].ip == order[i] && msgs[j].stats == ds[i].stats;
      ForcedReached(s, order, at, judge, i);
      BatchExact(s, msgs, true, p, j);
      assert ds[i].(stats := ds[i].stats) == ds[i];
    } else {
      forall j | 0 <= j < |msgs| ensures msgs[j].ip in s.table && s.table[msgs[j].ip] != s.table[order[i]] {
        var k := ForcedFrom(s, order, at, judge, j);
        assert k != i && order[k] != order[i];
      }
      OthersUntouched(s, msgs, true, p, s.table[order[i]]);
    }
  }

  // Each message of the batch comes from a selected address.
  lemma ForcedFrom(s: System, order: seq<Bytes>, at: nat -> Attempt, judge: nat -> Judging, j: nat) returns (k: nat)
    requires Valid(s) && Lists(order, s) && j < |Forced(s, order, at, judge)|
    ensures k < |order| && Botex.Selects(Listed(s, order)[k], s.db, at(k))
    ensures var m := Forced(s, order, at, judge)[j]; m.ip == order[k] && m.stats == Listed(s, order)[k].stats
  {
    var ds := Listed(s, order);
    var ms := Botex.ToBlock(ds, s.db, at);
    assert ms[j] in ms;
    Botex.ToBlockExact(ds, s.db, at, ms[j]);
    k :| k < |ds| && ms[j] == IPStats(ds[k].ip, ds[k].stats) && Botex.Selects(ds[k], s.db, at(k));
  }

  // The messages up to that of a selected address are those of the selected addresses up to it.
  lemma ForcedReached(s: System, order: seq<Bytes>, at: nat -> Attempt, judge: nat -> Judging, i: nat)
    requires Valid(s) && Lists(order, s) && i < |order| && Botex.Selects(Listed(s, order)[i], s.db, at(i))
    requires |Botex.ToBlock(Listed(s, order)[..i], s.db, at)| < |Forced(s, order, at, judge)|
    ensures Reached(s, Forced(s, order, at, judge), |Botex.ToBlock(Listed(s, order)[..i], s.db, at)|) <==>
              forall j: nat :: j <= i && Botex.Selects(Listed(s, order)[j], s.db, at(j)) ==> Listed(s, order)[j].stats.total > 0
  {
    var ds, msgs := Listed(s, order), Forced(s, order, at, judge);
    var place := |Botex.ToBlock(ds[..i], s.db, at)|;
    var first := Botex.ToBlock(ds[..i + 1], s.db, at);
    assert ds[..i + 1][..i] == ds[..i];
    Botex.ToBlockPrefix(ds, s.db, at, i + 1);
    assert |first| == place + 1;
    if Reached(s, msgs, place) {
      SelectedUsable(s, order, at, judge, i, place);
    }
    if forall j: nat :: j <= i && Botex.Selects(ds[j], s.db, at(j)) ==> ds[j].stats.total > 0 {
      forall q | 0 <= q <= place ensures Usable(s, msgs[q]) {
        FirstUsable(s, order, at, i, first[q]);
      }
    }
  }

  lemma SelectedUsable(s: System, order: seq<Bytes>, at: nat -> Attempt, judge: nat -> Judging, i: nat, place: nat)
    requires Valid(s) && Lists(order, s) && i < |order| && place < |Forced(s, order, at, judge)|
    requires Reached(s, Forced(s, order, at, judge), place)
    requires |Botex.ToBlock(Listed(s, order)[..i + 1], s.db, at)| == place + 1
    ensures forall j: nat :: j <= i && Botex.Selects(Listed(s, order)[j], s.db, at(j)) ==> Listed(s, order)[j].stats.total > 0
  {
    var ds, msgs := Listed(s, order), Forced(s, order, at, judge);
    Botex.ToBlockPrefix(ds, s.db, at, i + 1);
    forall j: nat | j <= i && Botex.Selects(ds[j], s.db, at(j)) ensures ds[j].stats.total > 0 {
      Botex.ToBlockAt(ds[..i + 1], s.db, at, j);
      assert Usable(s, msgs[|Botex.ToBlock(ds[..i + 1][..j], s.db, at)|]);
    }
  }

  lemma FirstUsable(s: System, order: seq<Bytes>, at: nat -> Attempt, i: nat, m: IPStats)
    requires Valid(s) && Lists(order, s) && i < |order|
    requires forall j: nat :: j <= i && Botex.Selects(Listed(s, order)[j], s.db, at(j)) ==> Listed(s, order)[j].stats.total > 0
    requires m in Botex.ToBlock(Listed(s, order)[..i + 1], s.db, at)
    ensures m.ip in s.table && m.stats.total > 0
  {
    var ds := Listed(s, order);
    Botex.ToBlockExact(ds[..i + 1], s.db, at, m);
    var k: nat :| k < i + 1 && m == IPStats(ds[..i + 1][k].ip, ds[..i + 1][k].stats) && Botex.Selects(ds[..i + 1][k], s.db, at(k));
    assert ds[k].ip == order[k];
  }
}
