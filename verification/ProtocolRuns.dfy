/** What holds of the blocking protocol in every run. */
module ProtocolRuns {
  import opened Data
  import opened Block
  import opened IPData
  import opened Protocol

  /** The system when it starts, with whatever the store holds by then. */
  function Start(db: Db, now: int): System
  {
    System(now, [], map[], [], db, [], [], [], [], db)
  }

  ghost predicate IsRun(states: seq<System>, steps: seq<Step>, p: Policy)
  {
    && |states| == |steps| + 1
    && Valid(states[0])
    && forall i :: 0 <= i < |steps| ==>
         Valid(states[i]) && Enabled(states[i], steps[i]) && states[i + 1] == Next(states[i], steps[i], p)
  }

  lemma {:induction false} RunInvariant(states: seq<System>, steps: seq<Step>, p: Policy)
    requires IsRun(states, steps, p) && Queued(states[0], p)
    ensures Valid(states[|steps|]) && Queued(states[|steps|], p)
  {
    if steps != [] {
      var n := |steps| - 1;
      RunInvariant(states[..n + 1], steps[..n], p);
      StepValid(states[n], steps[n], p);
      StepQueued(states[n], steps[n], p);
    }
  }

  // In every run each address in the store was there unchanged at the start, or traces back to an entry
  // into the queue at which its name was known, it was not whitelisted by the rules of that moment, it
  // was recently active, and it failed one of the tests.
  lemma EveryBlockJustified(states: seq<System>, steps: seq<Step>, p: Policy, db: Db, now: int, ip: Bytes)
    requires IsRun(states, steps, p) && states[0] == Start(db, now)
    requires IPKey(ip) in states[|steps|].db
    ensures var s, k := states[|steps|], IPKey(ip);
            || (k in db && db[k] == s.db[k])
            || (s.db[k].value.IPRecord? &&
                exists e :: e in s.enqueued && e.d.ip == ip && Justified(e, p) && e.at <= s.db[k].value.blockedAt)
  {
    RunInvariant(states, steps, p);
    StartKept(states, steps, p);
    TracedEntry(states[|steps|], p, ip);
  }

  lemma TracedEntry(s: System, p: Policy, ip: Bytes)
    requires Queued(s, p) && IPKey(ip) in s.db
    ensures var k := IPKey(ip);
            || (k in s.start && s.start[k] == s.db[k])
            || (s.db[k].value.IPRecord? &&
                exists e :: e in s.enqueued && e.d.ip == ip && Justified(e, p) && e.at <= s.db[k].value.blockedAt)
  {
    var k := IPKey(ip);
    assert BL_IP <= k;
    if !FromStart(s, k) {
      assert FromQueue(s, k);
      var i :| 0 <= i < |s.taken| && i < |s.enqueued| && FromEntry(s.db[k].value, k, s.enqueued[i]);
      KeysInjective(ip, s.db[k].value.ip, 0, 0, [], []);
      assert s.enqueued[i] in s.enqueued;
    }
  }

  lemma {:induction false} StartKept(states: seq<System>, steps: seq<Step>, p: Policy)
    requires IsRun(states, steps, p)
    ensures states[|steps|].start == states[0].start
  {
    if steps != [] {
      var n := |steps| - 1;
      StartKept(states[..n + 1], steps[..n], p);
      StepKeepsStart(states[n], steps[n], p);
    }
  }

  lemma StepKeepsStart(s: System, step: Step, p: Policy)
    requires Valid(s) && Enabled(s, step)
    ensures Next(s, step, p).start == s.start
  {
    if step.Update? {
      UpdateAllStart(s, step.msgs, step.force, p);
    }
  }

  lemma {:induction false} UpdateAllStart(s: System, msgs: seq<Message>, force: bool, p: Policy)
    requires Valid(s)
    ensures UpdateAll(s, msgs, force, p).start == s.start
    decreases |msgs|
  {
    if msgs != [] && msgs[0].ip in s.table && msgs[0].stats.total > 0 {
      UpdateOneValid(s, msgs[0], force, p);
      UpdateAllStart(UpdateOne(s, msgs[0], force, p), msgs[1..], force, p);
    }
  }

  // ---------------------------------------------------------------- one step after another

  /** The resolver never gives an empty name. */
  ghost predicate NamesKnown(step: Step)
  {
    step.Named? ==> step.name != ""
  }

  /** No object has asked for its name twice, and none that has is without a name or the placeholder. */
  ghost predicate AskedOnce(s: System)
  {
    && (forall i, j :: 0 <= i < j < |s.asked| ==> s.asked[i] != s.asked[j])
    && (forall i :: 0 <= i < |s.asked| ==> s.asked[i] < |s.heap| && s.heap[s.asked[i]].hostname != "")
  }

  /** No object is written twice unless it was force-blocked, and what was written counts as blocked. */
  ghost predicate WrittenOnce(s: System)
  {
    && (forall i, j :: 0 <= i < j < |s.written| && s.written[i] == s.written[j] ==>
          s.written[i] < |s.heap| && s.heap[s.written[i]].forceBlock)
    && (forall i :: 0 <= i < |s.written| ==> s.written[i] < |s.heap| && s.heap[s.written[i]].isBlocked)
  }

  /** Between an entry into the queue and the next unforced one of the same object more than the TTL passes. */
  ghost predicate Spaced(s: System, p: Policy)
  {
    && (forall i, j :: 0 <= i < j < |s.enqueued| && s.enqueued[i].obj == s.enqueued[j].obj && !s.enqueued[j].forced ==>
          s.enqueued[i].at + p.blockTTL < s.enqueued[j].at)
    && (forall i :: 0 <= i < |s.enqueued| ==>
          s.enqueued[i].obj < |s.heap| && s.enqueued[i].at <= s.heap[s.enqueued[i].obj].lastBlockAt && s.enqueued[i].at <= s.now)
  }

  ghost predicate Orderly(s: System, p: Policy)
  {
    WrittenOnce(s) && Spaced(s, p)
  }

  lemma UpdateOneOrderly(s: System, m: Message, force: bool, p: Policy)
    requires Valid(s) && Orderly(s, p) && m.ip in s.table && s.now <= m.at <= m.judgedAt
    ensures Orderly(UpdateOne(s, m, force, p), p)
  {
    DecidedWrittenOnce(s, m, force, s.table[m.ip], VerdictOn(s, m, force, p));
    UpdateOneSpaced(s, m, force, p);
  }

  lemma DecidedWrittenOnce(s: System, m: Message, force: bool, id: nat, v: Verdict)
    requires WrittenOnce(s) && id < |s.heap|
    requires v.d.isBlocked == s.heap[id].isBlocked && (s.heap[id].forceBlock ==> v.d.forceBlock)
    ensures WrittenOnce(Decided(s, m, force, id, v))
  {
  }

  lemma UpdateOneAskedOnce(s: System, m: Message, force: bool, p: Policy)
    requires Valid(s) && AskedOnce(s) && m.ip in s.table
    ensures AskedOnce(UpdateOne(s, m, force, p))
  {
    var id := s.table[m.ip];
    var d := s.heap[id].(stats := m.stats);
    VerdictExactly(d, p, m.judgedAt, m.rules, SeenBlocked(s.db, d.asn, m.judgedAt, m.io));
    DecidedAskedOnce(s, m, force, id, VerdictOn(s, m, force, p));
  }

  lemma DecidedAskedOnce(s: System, m: Message, force: bool, id: nat, v: Verdict)
    requires AskedOnce(s) && id < |s.heap|
    requires if v.ask then s.heap[id].hostname == "" && v.d.hostname == RESOLVING else v.d.hostname == s.heap[id].hostname
    ensures AskedOnce(Decided(s, m, force, id, v))
  {
  }

  lemma UpdateOneSpaced(s: System, m: Message, force: bool, p: Policy)
    requires Valid(s) && Spaced(s, p) && m.ip in s.table && s.now <= m.at <= m.judgedAt
    ensures Spaced(UpdateOne(s, m, force, p), p)
  {
    DecidedSpaced(s, m, force, p, s.table[m.ip], VerdictOn(s, m, force, p));
  }

  lemma DecidedSpaced(s: System, m: Message, force: bool, p: Policy, id: nat, v: Verdict)
    requires Spaced(s, p) && id < |s.heap| && s.now <= m.at <= m.judgedAt
    requires if v.block then v.d.lastBlockAt == m.at && (force || s.heap[id].lastBlockAt + p.blockTTL < m.at)
             else v.d.lastBlockAt == s.heap[id].lastBlockAt
    ensures Spaced(Decided(s, m, force, id, v), p)
  {
    var s' := Decided(s, m, force, id, v);
    if !v.block {
      SpacedKept(s, s', p);
    } else {
      forall i | 0 <= i < |s.enqueued| && s.enqueued[i].obj == id && !force
        ensures s.enqueued[i].at + p.blockTTL < m.at
      {
        assert s.enqueued[i].at <= s.heap[id].lastBlockAt;
      }
    }
  }

  lemma {:induction false} UpdateAllOrderly(s: System, msgs: seq<Message>, force: bool, p: Policy)
    requires Valid(s) && Orderly(s, p) && MessagesOrdered(msgs, s.now)
    ensures Orderly(UpdateAll(s, msgs, force, p), p)
    decreases |msgs|
  {
    if msgs != [] && msgs[0].ip in s.table && msgs[0].stats.total > 0 {
      UpdateOneValid(s, msgs[0], force, p);
      UpdateOneOrderly(s, msgs[0], force, p);
      UpdateAllOrderly(UpdateOne(s, msgs[0], force, p), msgs[1..], force, p);
    }
  }

  lemma {:induction false} UpdateAllAskedOnce(s: System, msgs: seq<Message>, force: bool, p: Policy)
    requires Valid(s) && AskedOnce(s)
    ensures AskedOnce(UpdateAll(s, msgs, force, p))
    decreases |msgs|
  {
    if msgs != [] && msgs[0].ip in s.table && msgs[0].stats.total > 0 {
      UpdateOneValid(s, msgs[0], force, p);
      UpdateOneAskedOnce(s, msgs[0], force, p);
      UpdateAllAskedOnce(UpdateOne(s, msgs[0], force, p), msgs[1..], force, p);
    }
  }

  lemma StepOrderly(s: System, step: Step, p: Policy)
    requires Valid(s) && Orderly(s, p) && Enabled(s, step)
    ensures Orderly(Next(s, step, p), p)
  {
    if step.Update? {
      UpdateAllOrderly(s, step.msgs, step.force, p);
    } else {
      OtherWrittenOnce(s, step, p);
      OtherSpaced(s, step, p);
    }
  }

  lemma StepAskedOnce(s: System, step: Step, p: Policy)
    requires Valid(s) && AskedOnce(s) && Enabled(s, step) && NamesKnown(step)
    ensures AskedOnce(Next(s, step, p))
  {
    if step.Update? {
      UpdateAllAskedOnce(s, step.msgs, step.force, p);
    } else {
      OtherAskedOnce(s, step, p);
    }
  }

  lemma OtherAskedOnce(s: System, step: Step, p: Policy)
    requires Valid(s) && AskedOnce(s) && Enabled(s, step) && NamesKnown(step) && !step.Update?
    ensures AskedOnce(Next(s, step, p))
  {
  }

  lemma OtherWrittenOnce(s: System, step: Step, p: Policy)
    requires Valid(s) && WrittenOnce(s) && Enabled(s, step) && !step.Update?
    ensures WrittenOnce(Next(s, step, p))
  {
    if step.Work? {
      WorkedWrittenOnce(s, step.at, step.io, p);
    } else {
      WrittenOnceKept(s, Next(s, step, p));
    }
  }

  lemma WrittenOnceKept(s: System, s': System)
    requires WrittenOnce(s) && s'.written == s.written && |s.heap| <= |s'.heap|
    requires forall id :: 0 <= id < |s.heap| ==>
               s'.heap[id].isBlocked == s.heap[id].isBlocked && s'.heap[id].forceBlock == s.heap[id].forceBlock
    ensures WrittenOnce(s')
  {
  }

  lemma WorkedWrittenOnce(s: System, at: int, io: Io, p: Policy)
    requires Valid(s) && WrittenOnce(s) && s.chan != []
    ensures WrittenOnce(Worked(s, at, io, p))
  {
  }

  lemma OtherSpaced(s: System, step: Step, p: Policy)
    requires Valid(s) && Spaced(s, p) && Enabled(s, step) && !step.Update?
    ensures Spaced(Next(s, step, p), p)
  {
    SpacedKept(s, Next(s, step, p), p);
  }

  lemma SpacedKept(s: System, s': System, p: Policy)
    requires Spaced(s, p) && s'.enqueued == s.enqueued && s.now <= s'.now && |s.heap| <= |s'.heap|
    requires forall id :: 0 <= id < |s.heap| ==> s'.heap[id].lastBlockAt == s.heap[id].lastBlockAt
    ensures Spaced(s', p)
  {
  }

  // In every run each address object reaches the store's BlockIP at most once unless it was
  // force-blocked, and enters the queue unforced only when more than the block TTL has passed since it
  // last did.
  lemma {:induction false} EveryRunOrderly(states: seq<System>, steps: seq<Step>, p: Policy, db: Db, now: int)
    requires IsRun(states, steps, p) && states[0] == Start(db, now)
    ensures Valid(states[|steps|]) && Orderly(states[|steps|], p)
  {
    if steps != [] {
      var n := |steps| - 1;
      EveryRunOrderly(states[..n + 1], steps[..n], p, db, now);
      StepValid(states[n], steps[n], p);
      StepOrderly(states[n], steps[n], p);
    }
  }

  // And if the resolver never gives an empty name, it asks for its name at most once.
  lemma {:induction false} EveryRunAsksOnce(states: seq<System>, steps: seq<Step>, p: Policy, db: Db, now: int)
    requires IsRun(states, steps, p) && states[0] == Start(db, now)
    requires forall i :: 0 <= i < |steps| ==> NamesKnown(steps[i])
    ensures AskedOnce(states[|steps|])
  {
    if steps != [] {
      var n := |steps| - 1;
      EveryRunAsksOnce(states[..n + 1], steps[..n], p, db, now);
      assert NamesKnown(steps[n]);
      StepAskedOnce(states[n], steps[n], p);
    }
  }

  /** When an object entered the queue. */
  function EntryTimes(log: seq<Enqueue>, id: nat): seq<int>
  {
    if log == [] then [] else
      var ts := EntryTimes(log[..|log| - 1], id);
      if log[|log| - 1].obj == id then ts + [log[|log| - 1].at] else ts
  }

  // So k unforced entries of one object span more than k - 1 times the TTL.
  lemma EntriesFarApart(states: seq<System>, steps: seq<Step>, p: Policy, db: Db, now: int, id: nat)
    requires IsRun(states, steps, p) && states[0] == Start(db, now)
    requires forall e :: e in states[|steps|].enqueued && e.obj == id ==> !e.forced
    ensures var ts := EntryTimes(states[|steps|].enqueued, id);
            |ts| >= 2 ==> ts[|ts| - 1] - ts[0] > (|ts| - 1) * p.blockTTL
  {
    EveryRunOrderly(states, steps, p, db, now);
    var s := states[|steps|];
    forall i, j | 0 <= i < j < |s.enqueued| && s.enqueued[i].obj == s.enqueued[j].obj == id
      ensures s.enqueued[i].at + p.blockTTL < s.enqueued[j].at
    {
      assert s.enqueued[j] in s.enqueued;
    }
    EntriesSpan(s.enqueued, p.blockTTL, id);
    var ts := EntryTimes(s.enqueued, id);
    if |ts| >= 2 {
      TimesMore(|ts| - 1, p.blockTTL);
    }
  }

  /** The last entry time of the object among the first n log entries is that of one of them. */
  lemma {:induction false} LastEntry(log: seq<Enqueue>, id: nat) returns (i: nat)
    requires EntryTimes(log, id) != []
    ensures var ts := EntryTimes(log, id); i < |log| && log[i].obj == id && log[i].at == ts[|ts| - 1]
  {
    i := |log| - 1;
    if log[i].obj != id {
      i := LastEntry(log[..i], id);
    }
  }

  lemma {:induction false} EntriesSpan(log: seq<Enqueue>, ttl: int, id: nat)
    requires forall i, j :: 0 <= i < j < |log| && log[i].obj == log[j].obj == id ==> log[i].at + ttl < log[j].at
    ensures var ts := EntryTimes(log, id);
            ts != [] ==> ts[|ts| - 1] - ts[0] >= Times(|ts| - 1, ttl + 1)
  {
    if log != [] {
      var n := |log| - 1;
      var init := log[..n];
      assert forall i :: 0 <= i < n ==> init[i] == log[i];
      EntriesSpan(init, ttl, id);
      if log[n].obj == id && EntryTimes(init, id) != [] {
        var i := LastEntry(init, id);
        assert log[i].at + ttl < log[n].at;
      }
    }
  }

  function Times(k: nat, x: int): int
  {
    if k == 0 then 0 else Times(k - 1, x) + x
  }

  lemma {:induction false} TimesMore(k: nat, x: int)
    requires k > 0
    ensures Times(k, x + 1) > k * x
  {
    if k > 1 {
      TimesMore(k - 1, x);
      assert k * x == (k - 1) * x + x;
    }
  }

  // ---------------------------------------------------------------- whitelisting is final

  /** From s to s' the object stays whitelisted and does not enter the queue. */
  ghost predicate Silent(s: System, s': System, id: nat)
  {
    && |s.enqueued| <= |s'.enqueued|
    && id < |s'.heap| && s'.heap[id].whitelisted
    && forall i :: |s.enqueued| <= i < |s'.enqueued| ==> s'.enqueued[i].obj != id
  }

  lemma {:induction false} UpdateAllSilent(s: System, msgs: seq<Message>, force: bool, p: Policy, id: nat)
    requires Valid(s) && id < |s.heap| && s.heap[id].whitelisted
    ensures Silent(s, UpdateAll(s, msgs, force, p), id)
    decreases |msgs|
  {
    if msgs != [] && msgs[0].ip in s.table && msgs[0].stats.total > 0 {
      var s1 := UpdateOne(s, msgs[0], force, p);
      UpdateOneValid(s, msgs[0], force, p);
      assert Silent(s, s1, id);
      UpdateAllSilent(s1, msgs[1..], force, p, id);
      UpdateAllExtends(s1, msgs[1..], force, p);
    }
  }

  lemma {:induction false} UpdateAllExtends(s: System, msgs: seq<Message>, force: bool, p: Policy)
    requires Valid(s)
    ensures s.enqueued <= UpdateAll(s, msgs, force, p).enqueued
    decreases |msgs|
  {
    if msgs != [] && msgs[0].ip in s.table && msgs[0].stats.total > 0 {
      UpdateOneValid(s, msgs[0], force, p);
      UpdateAllExtends(UpdateOne(s, msgs[0], force, p), msgs[1..], force, p);
    }
  }

  lemma StepSilent(s: System, step: Step, p: Policy, id: nat)
    requires Valid(s) && Enabled(s, step) && id < |s.heap| && s.heap[id].whitelisted
    ensures Silent(s, Next(s, step, p), id) && s.enqueued <= Next(s, step, p).enqueued
  {
    if step.Update? {
      UpdateAllSilent(s, step.msgs, step.force, p, id);
      UpdateAllExtends(s, step.msgs, step.force, p);
    }
  }

  // Once an address object is whitelisted it never enters the queue again.
  lemma {:induction false} WhitelistedForGood(states: seq<System>, steps: seq<Step>, p: Policy, i: nat, id: nat)
    requires IsRun(states, steps, p) && i <= |steps|
    requires id < |states[i].heap| && states[i].heap[id].whitelisted
    ensures Silent(states[i], states[|steps|], id)
  {
    if i < |steps| {
      var n := |steps| - 1;
      WhitelistedForGood(states[..n + 1], steps[..n], p, i, id);
      StepSilent(states[n], steps[n], p, id);
    }
  }

  // ---------------------------------------------------------------- an empty name

  // The assumption on names is needed: an address whose name resolves to nothing asks again.
  lemma EmptyNameAsksAgain(p: Policy, d: Details, now: int, rules: Rules, netBlocked: bool)
    requires Judged(d, p, now, rules, netBlocked).ask
    ensures var d' := Judged(d, p, now, rules, netBlocked).d;
            forall name :: Judged(d'.(hostname := name), p, now, rules, netBlocked).ask <==> name == ""
  {
  }
}
