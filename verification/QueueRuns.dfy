/**
 What an address remembers of the queue, and the table of its requests, in every run of the blocking
 protocol: so the conditions of an update and of the block worker are conditions on the run.
 */
module QueueRuns {
  import opened Data
  import opened Block
  import opened IPData
  import opened Protocol
  import opened ProtocolRuns
  import Botex

  // ---------------------------------------------------------------- stamps and marks

  /** When the object last entered the queue, the zero time if it never did. */
  function LastEntered(log: seq<Enqueue>, id: nat): int
  {
    if log == [] then 0
    else if log[|log| - 1].obj == id then log[|log| - 1].at
    else LastEntered(log[..|log| - 1], id)
  }

  /** Has the object ever entered the queue by force? */
  predicate EnteredByForce(log: seq<Enqueue>, id: nat)
  {
    log != [] && ((log[|log| - 1].obj == id && log[|log| - 1].forced) || EnteredByForce(log[..|log| - 1], id))
  }

  /** The object's stamp, its mark and whether it counts as blocked are what the run has made of them. */
  ghost predicate Stamped(s: System, id: nat)
    requires id < |s.heap|
  {
    && s.heap[id].lastBlockAt == LastEntered(s.enqueued, id)
    && (s.heap[id].forceBlock <==> EnteredByForce(s.enqueued, id))
    && (s.heap[id].isBlocked <==> id in s.taken)
  }

  ghost predicate AllStamped(s: System)
  {
    && (forall id :: id in s.taken ==> id < |s.heap|)
    && (forall i :: 0 <= i < |s.enqueued| ==> s.enqueued[i].obj < |s.heap|)
    && forall id: nat :: id < |s.heap| ==> Stamped(s, id)
  }

  lemma LogMore(log: seq<Enqueue>, e: Enqueue, id: nat)
    ensures LastEntered(log + [e], id) == if e.obj == id then e.at else LastEntered(log, id)
    ensures EnteredByForce(log + [e], id) <==> EnteredByForce(log, id) || (e.obj == id && e.forced)
  {
    assert (log + [e])[..|log|] == log;
  }

  lemma {:induction false} NeverEntered(log: seq<Enqueue>, id: nat)
    requires forall i :: 0 <= i < |log| ==> log[i].obj != id
    ensures LastEntered(log, id) == 0 && !EnteredByForce(log, id)
  {
    if log != [] {
      NeverEntered(log[..|log| - 1], id);
    }
  }

  lemma DecidedStamped(s: System, m: Message, force: bool, id: nat, v: Verdict)
    requires AllStamped(s) && id < |s.heap|
    requires v.d.isBlocked == s.heap[id].isBlocked && v.d.lastBlockAt == (if v.block then m.at else s.heap[id].lastBlockAt)
    requires v.d.forceBlock <==> s.heap[id].forceBlock || (v.block && force)
    ensures AllStamped(Decided(s, m, force, id, v))
  {
    var s' := Decided(s, m, force, id, v);
    forall k: nat | k < |s'.heap| ensures Stamped(s', k) {
      assert Stamped(s, k);
      if v.block {
        LogMore(s.enqueued, Enqueue(id, m.at, m.judgedAt, force, v.d, m.rules, s.db), k);
      }
    }
  }

  lemma {:induction false} UpdateAllStamped(s: System, msgs: seq<Message>, force: bool, p: Policy)
    requires Valid(s) && AllStamped(s)
    ensures AllStamped(UpdateAll(s, msgs, force, p))
    decreases |msgs|
  {
    if msgs != [] && msgs[0].ip in s.table && msgs[0].stats.total > 0 {
      var m, id := msgs[0], s.table[msgs[0].ip];
      var d := s.heap[id];
      UpdatedExactly(d, m.stats, force, m.at, m.judgedAt, p, m.rules, SeenBlocked(s.db, d.asn, m.judgedAt, m.io));
      DecidedStamped(s, m, force, id, VerdictOn(s, m, force, p));
      UpdateOneValid(s, m, force, p);
      UpdateAllStamped(UpdateOne(s, m, force, p), msgs[1..], force, p);
    }
  }

  // A step that neither updates nor takes from the queue leaves stamps and marks alone.
  lemma StampedKept(s: System, s': System)
    requires AllStamped(s) && s'.enqueued == s.enqueued && s'.taken == s.taken && |s.heap| <= |s'.heap|
    requires forall id :: 0 <= id < |s.heap| ==>
               var d, d' := s.heap[id], s'.heap[id];
               d'.lastBlockAt == d.lastBlockAt && d'.forceBlock == d.forceBlock && d'.isBlocked == d.isBlocked
    requires forall id :: |s.heap| <= id < |s'.heap| ==>
               s'.heap[id].lastBlockAt == 0 && !s'.heap[id].forceBlock && !s'.heap[id].isBlocked
    ensures AllStamped(s')
  {
    forall id: nat | id < |s'.heap| ensures Stamped(s', id) {
      if id < |s.heap| {
        assert Stamped(s, id);
      } else {
        NeverEntered(s.enqueued, id);
      }
    }
  }

  // The worker's step, in terms of the address and the store.
  lemma WorkedIs(s: System, at: int, io: Io, p: Policy)
    requires Valid(s) && s.chan != []
    ensures var s', id := Worked(s, at, io, p), s.chan[0];
            && s'.chan == s.chan[1..] && s'.taken == s.taken + [id] && s'.enqueued == s.enqueued && |s'.heap| == |s.heap|
            && (forall k :: 0 <= k < |s.heap| && k != id ==> s'.heap[k] == s.heap[k])
            && s'.written == (if !s.heap[id].isBlocked || s.heap[id].forceBlock then s.written + [id] else s.written)
            && Botex.Recorded(s.heap[id], s.db, s'.heap[id], s'.db, at, p.blockTTL, io)
  {
    Botex.WorkRecords(s.heap[s.chan[0]], s.db, at, p.blockTTL, io);
  }

  lemma WorkedStamped(s: System, at: int, io: Io, p: Policy)
    requires Valid(s) && AllStamped(s) && s.chan != []
    ensures AllStamped(Worked(s, at, io, p))
  {
    var s' := Worked(s, at, io, p);
    WorkedIs(s, at, io, p);
    forall id: nat | id < |s'.heap| ensures Stamped(s', id) {
      assert Stamped(s, id);
    }
  }

  lemma StepStamped(s: System, step: Step, p: Policy)
    requires Valid(s) && AllStamped(s) && Enabled(s, step)
    ensures AllStamped(Next(s, step, p))
  {
    if step.Update? {
      UpdateAllStamped(s, step.msgs, step.force, p);
    } else if step.Work? {
      WorkedStamped(s, step.at, step.io, p);
    } else {
      StampedKept(s, Next(s, step, p));
    }
  }

  // In every run an address' stamp is the moment at which it last entered the queue, it is marked if and
  // only if it ever entered by force, and it counts as blocked if and only if the worker has taken it.
  lemma {:induction false} EveryRunStamped(states: seq<System>, steps: seq<Step>, p: Policy, db: Db, now: int)
    requires IsRun(states, steps, p) && states[0] == Start(db, now)
    ensures Valid(states[|steps|]) && AllStamped(states[|steps|])
  {
    if steps != [] {
      var n := |steps| - 1;
      EveryRunStamped(states[..n + 1], steps[..n], p, db, now);
      StepValid(states[n], steps[n], p);
      StepStamped(states[n], steps[n], p);
    }
  }

  // ---------------------------------------------------------------- the table

  /** The use of an address since it was last created: how it began, and its last request. */
  datatype Use = Use(asn: ASN, createdAt: int, at: int)

  function LastUse(steps: seq<Step>, ip: Bytes): Option<Use>
  {
    if steps == [] then None else
      var before, step := LastUse(steps[..|steps| - 1], ip), steps[|steps| - 1];
      if step.Drop? && step.ip == ip then None
      else if step.Request? && step.ip == ip then
        if before.Some? then Some(before.value.(at := step.at)) else Some(Use(step.asn, step.createdAt, step.at))
      else before
  }

  ghost predicate Uses(s: System, ip: Bytes, u: Option<Use>)
  {
    && (ip in s.table <==> u.Some?)
    && (ip in s.table ==>
          && s.table[ip] < |s.heap|
          && var d := s.heap[s.table[ip]]; d.asn == u.value.asn && d.createdAt == u.value.createdAt && d.updatedAt == u.value.at)
  }

  lemma {:induction false} UpdateAllUses(s: System, msgs: seq<Message>, force: bool, p: Policy, ip: Bytes, u: Option<Use>)
    requires Valid(s) && Uses(s, ip, u)
    ensures Uses(UpdateAll(s, msgs, force, p), ip, u)
    decreases |msgs|
  {
    if msgs != [] && msgs[0].ip in s.table && msgs[0].stats.total > 0 {
      UpdateOneValid(s, msgs[0], force, p);
      UpdateAllUses(UpdateOne(s, msgs[0], force, p), msgs[1..], force, p, ip, u);
    }
  }

  lemma StepUses(s: System, step: Step, p: Policy, ip: Bytes, steps: seq<Step>)
    requires Valid(s) && Enabled(s, step) && Uses(s, ip, LastUse(steps, ip))
    ensures Uses(Next(s, step, p), ip, LastUse(steps + [step], ip))
  {
    assert (steps + [step])[..|steps|] == steps;
    if step.Update? {
      UpdateAllUses(s, step.msgs, step.force, p, ip, LastUse(steps, ip));
    }
  }

  // In every run the table has exactly the addresses that had a request since they were last dropped,
  // each with the system and the creation time of its first request since then and the time of its last one.
  lemma {:induction false} TableIsUses(states: seq<System>, steps: seq<Step>, p: Policy, db: Db, now: int, ip: Bytes)
    requires IsRun(states, steps, p) && states[0] == Start(db, now)
    ensures Uses(states[|steps|], ip, LastUse(steps, ip))
  {
    if steps != [] {
      var n := |steps| - 1;
      TableIsUses(states[..n + 1], steps[..n], p, db, now, ip);
      StepUses(states[n], steps[n], p, ip, steps[..n]);
      assert steps == steps[..n] + [steps[n]];
    }
  }

  // ---------------------------------------------------------------- entering and leaving the queue

  // So after any run a message of a batch puts its address into the queue if and only if the address had a
  // request since it was last dropped, no message up to it is of another address without one or without
  // requests, its name is known, it is not whitelisted, its last request or its creation lies in the last
  // slice, the statistics fail a test, and the batch is forced or the address last entered the queue more
  // than the block TTL before.
  lemma EntersExactly(states: seq<System>, steps: seq<Step>, p: Policy, db: Db, now: int,
                      msgs: seq<Message>, force: bool, i: nat)
    requires IsRun(states, steps, p) && states[0] == Start(db, now)
    requires OneEach(msgs) && i < |msgs| && LastUse(steps, msgs[i].ip).Some?
    ensures var s, m, u := states[|steps|], msgs[i], LastUse(steps, msgs[i].ip).value;
            Valid(s) && m.ip in s.table
            && var s', id, d := UpdateAll(s, msgs, force, p), s.table[m.ip], s.heap[s.table[m.ip]];
               s.chan <= s'.chan
               && (id in s'.chan[|s.chan|..] <==>
                     && (forall j :: 0 <= j <= i ==> LastUse(steps, msgs[j].ip).Some? && msgs[j].stats.total > 0)
                     && d.hostname != "" && d.hostname != RESOLVING
                     && !d.whitelisted && !m.rules(m.ip, d.hostname, u.asn)
                     && (m.judgedAt - p.windowSize <= u.at || m.judgedAt - p.windowSize <= u.createdAt)
                     && (|| m.stats.app > p.maxApp
                         || (m.stats.app > p.minApp && p.maxRatio <= m.stats.ratio)
                         || (p.withNetworks && SeenBlocked(s.db, u.asn, m.judgedAt, m.io)))
                     && (force || LastEntered(s.enqueued, id) + p.blockTTL < m.at))
  {
    var s, m := states[|steps|], msgs[i];
    EveryRunStamped(states, steps, p, db, now);
    forall j | 0 <= j < |msgs| ensures msgs[j].ip in s.table <==> LastUse(steps, msgs[j].ip).Some? {
      TableIsUses(states, steps, p, db, now, msgs[j].ip);
    }
    TableIsUses(states, steps, p, db, now, m.ip);
    assert Stamped(s, s.table[m.ip]);
    BatchQueues(s, msgs, force, p, i);
    assert forall j :: 0 <= j <= i ==> (Usable(s, msgs[j]) <==> LastUse(steps, msgs[j].ip).Some? && msgs[j].stats.total > 0);
  }

  // What comes next to the worker is the oldest entry it has not taken. If the worker never took the
  // address before, or it once entered by force, and the store works, its address is blocked afterwards,
  // with the name, the system and the reason it has by then if there was no live record.
  lemma WorkBlocks(states: seq<System>, steps: seq<Step>, p: Policy, db: Db, now: int, k: nat)
    requires IsRun(states, steps, p) && states[0] == Start(db, now)
    requires k < |steps| && steps[k].Work?
    ensures var s, s', at, io := states[k], states[k + 1], steps[k].at, steps[k].io;
            |s.taken| < |s.enqueued| && s.enqueued[|s.taken|].obj < |s.heap| == |s'.heap|
            && var id := s.enqueued[|s.taken|].obj;
               && s'.taken == s.taken + [id] && s'.heap[id].isBlocked
               && Botex.Recorded(s.heap[id], s.db, s'.heap[id], s'.db, at, p.blockTTL, io)
               && (p.blockTTL > 0 && !io.getFails && !io.writeFails && (id !in s.taken || EnteredByForce(s.enqueued, id)) ==>
                     LiveKey(s'.db, IPKey(s.heap[id].ip), at))
  {
    var s := states[k];
    assert IsRun(states[..k + 1], steps[..k], p) && states[..k + 1][k] == s;
    EveryRunStamped(states[..k + 1], steps[..k], p, db, now);
    RunInvariant(states[..k + 1], steps[..k], p);
    var id := s.chan[0];
    assert s.enqueued[|s.taken|].obj == id && Stamped(s, id);
    WorkedIs(s, steps[k].at, steps[k].io, p);
    Botex.WorkRecords(s.heap[id], s.db, steps[k].at, p.blockTTL, steps[k].io);
  }

  // A message asks for the name of its address if and only if there is none yet and all else speaks for
  // blocking it; until it comes, the placeholder stands for it and keeps the address out of the queue.
  lemma AsksExactly(s: System, m: Message, force: bool, p: Policy)
    requires Valid(s) && m.ip in s.table && m.stats.total > 0
    ensures var s', id, d := UpdateAll(s, [m], force, p), s.table[m.ip], s.heap[s.table[m.ip]];
            var asks :=
              && d.hostname == "" && !d.whitelisted && !m.rules(d.ip, "", d.asn)
              && (m.judgedAt - p.windowSize <= d.updatedAt || m.judgedAt - p.windowSize <= d.createdAt)
              && (|| m.stats.app > p.maxApp
                  || (m.stats.app > p.minApp && p.maxRatio <= m.stats.ratio)
                  || (p.withNetworks && SeenBlocked(s.db, d.asn, m.judgedAt, m.io)));
            && id < |s'.heap| && s'.asked == (if asks then s.asked + [id] else s.asked)
            && s'.heap[id].hostname == (if asks then RESOLVING else d.hostname)
            && (asks ==> s'.chan == s.chan && s'.enqueued == s.enqueued)
  {
    var d := s.heap[s.table[m.ip]];
    UpdateOneValid(s, m, force, p);
    assert UpdateAll(s, [m], force, p) == UpdateAll(UpdateOne(s, m, force, p), [], force, p);
    VerdictExactly(d.(stats := m.stats), p, m.judgedAt, m.rules, SeenBlocked(s.db, d.asn, m.judgedAt, m.io));
  }

  // A name is what the next decision goes by: after it has been given, a message enters its address into
  // the queue if and only if the name is neither empty nor the placeholder, is not whitelisted, and the rest
  // speaks for it.
  lemma NameDecides(s: System, ip: Bytes, name: string, m: Message, force: bool, p: Policy)
    requires Valid(s) && ip in s.table && m.ip == ip && m.stats.total > 0
    ensures var s1, id := Next(s, Named(ip, name), p), s.table[ip];
            Valid(s1)
            && var d, s' := s.heap[id], UpdateAll(s1, [m], force, p);
               s.chan <= s'.chan
               && (id in s'.chan[|s.chan|..] <==>
                     && name != "" && name != RESOLVING && !d.whitelisted && !m.rules(ip, name, d.asn)
                     && (m.judgedAt - p.windowSize <= d.updatedAt || m.judgedAt - p.windowSize <= d.createdAt)
                     && (|| m.stats.app > p.maxApp
                         || (m.stats.app > p.minApp && p.maxRatio <= m.stats.ratio)
                         || (p.withNetworks && SeenBlocked(s.db, d.asn, m.judgedAt, m.io)))
                     && (force || d.lastBlockAt + p.blockTTL < m.at))
  {
    var s1 := Next(s, Named(ip, name), p);
    StepValid(s, Named(ip, name), p);
    BatchQueues(s1, [m], force, p, 0);
    assert Usable(s1, [m][0]);
  }
}
