/**
 The blocking protocol together with the requests of every address: behind each address that is blocked
 there are recent requests of the run itself.
 */
module BlockReasons {
  import opened Data
  import opened Buckets
  import opened Block
  import opened IPData
  import opened Protocol
  import opened ProtocolRuns
  import Requests
  import RequestRuns
  import WindowRuns

  /** All requests and expiries of one address object since it was created. */
  datatype Past = Past(ops: seq<RequestRuns.Op>, createdAt: int, expiredAt: int)
  {
    function Value(c: Requests.Config): Requests.State { RequestRuns.Run(ops, createdAt, expiredAt, c) }

    function Then(op: RequestRuns.Op): Past { Past(ops + [op], createdAt, expiredAt) }

    /** May this expiry come next? */
    ghost predicate Before(r: Requests.Readings)
    {
      r.InOrder() && RequestRuns.LastReading(ops, expiredAt) <= r.check
    }

    ghost predicate Ok(c: Requests.Config, slack: nat)
    {
      RequestRuns.ClockOrdered(ops, expiredAt) && RequestRuns.Prompt(ops, c, slack) && createdAt <= expiredAt
    }
  }

  /** A message with the statistics of an address, and when they were ready to be sent. */
  datatype Sent = Sent(ip: Bytes, stats: Stats, at: int)

  /** The system, the past of each address object, and a log of all messages sent with requests. */
  datatype Joint = Joint(sys: System, pasts: seq<Past>, sent: set<Sent>)

  datatype Step =
    | Look(ip: Bytes, asn: ASN, createdAt: int, requestsAt: int, expiredAt: int, at: int, rules: Rules)
    | Count(id: nat, req: Request, asset: bool, r: Requests.Readings)  // a request, in the object that was looked up
    | Expire(id: nat, r: Requests.Readings)
    | Other(step: Protocol.Step)

  function LookStep(step: Step): Protocol.Step
    requires step.Look?
  {
    Protocol.Request(step.ip, step.asn, step.createdAt, step.at, step.rules)
  }

  /** The statistics were sent before, with a request; they may be out of date by now. */
  ghost predicate IsSent(j: Joint, ip: Bytes, stats: Stats, at: int)
  {
    exists x :: x in j.sent && x.ip == ip && x.stats == stats && x.at <= at
  }

  /** Messages with requests, forced or not, repeat statistics that were sent; those without may come from anywhere. */
  ghost predicate AllSent(j: Joint, msgs: seq<Message>)
  {
    forall i :: 0 <= i < |msgs| && msgs[i].stats.total > 0 ==> IsSent(j, msgs[i].ip, msgs[i].stats, msgs[i].at)
  }

  /** A request's bucket is at most a full span old on arrival, and no expiry lasts longer than slack. */
  ghost predicate CanStep(j: Joint, step: Step, c: Requests.Config, slack: nat)
  {
    match step
    case Look(_, _, createdAt, requestsAt, expiredAt, at, _) =>
      Enabled(j.sys, LookStep(step)) && createdAt <= requestsAt <= expiredAt <= at
    case Count(id, req, _, r) =>
      && id < |j.pasts| && id < |j.sys.heap| && j.sys.heap[id].ip == req.source
      && j.pasts[id].Before(r) && r.done - r.check <= slack
      && r.check - c.Span() <= KeyFor(req.time, c.windowSize)
    case Expire(id, r) =>
      id < |j.pasts| && j.pasts[id].Before(r) && r.done - r.check <= slack
    case Other(s) =>
      !s.Request? && Enabled(j.sys, s) && (s.Update? ==> AllSent(j, s.msgs))
  }

  ghost function StepOn(j: Joint, step: Step, p: Policy, c: Requests.Config, slack: nat): Joint
    requires Valid(j.sys) && CanStep(j, step, c, slack)
  {
    match step
    case Look(_, _, _, requestsAt, expiredAt, _, _) =>
      var sys := Next(j.sys, LookStep(step), p);
      j.(sys := sys, pasts := if |sys.heap| > |j.sys.heap| then j.pasts + [Past([], requestsAt, expiredAt)] else j.pasts)
    case Count(id, req, asset, r) =>
      var past := j.pasts[id].Then(RequestRuns.Add(req, asset, r));
      j.(pasts := j.pasts[id := past], sent := j.sent + {Sent(req.source, Requests.StatsOf(past.Value(c)), r.done)})
    case Expire(id, r) =>
      j.(pasts := j.pasts[id := j.pasts[id].Then(RequestRuns.Expire(r))])
    case Other(s) =>
      j.(sys := Next(j.sys, s, p))
  }

  ghost predicate IsJointRun(states: seq<Joint>, steps: seq<Step>, p: Policy, c: Requests.Config, slack: nat)
  {
    && |states| == |steps| + 1
    && forall i :: 0 <= i < |steps| ==>
         && Valid(states[i].sys) && CanStep(states[i], steps[i], c, slack)
         && states[i + 1] == StepOn(states[i], steps[i], p, c, slack)
  }

  function JointStart(db: Db, now: int): Joint
  {
    Joint(Start(db, now), [], {})
  }

  // ---------------------------------------------------------------- what is known was sent

  ghost predicate PastsOk(j: Joint, c: Requests.Config, slack: nat)
  {
    |j.pasts| == |j.sys.heap| && forall id :: 0 <= id < |j.pasts| ==> j.pasts[id].Ok(c, slack)
  }

  /** The statistics of every address and of every entry into the queue were sent with a request of that address. */
  ghost predicate KnownSent(j: Joint)
  {
    forall id :: 0 <= id < |j.sys.heap| ==>
      j.sys.heap[id].stats == NO_STATS || IsSent(j, j.sys.heap[id].ip, j.sys.heap[id].stats, j.sys.now)
  }

  ghost predicate EntriesSent(j: Joint)
  {
    forall i :: 0 <= i < |j.sys.enqueued| ==> IsSent(j, j.sys.enqueued[i].d.ip, j.sys.enqueued[i].d.stats, j.sys.enqueued[i].at)
  }

  ghost predicate AllKnownSent(j: Joint)
  {
    KnownSent(j) && EntriesSent(j)
  }

  lemma SentLater(j: Joint, j': Joint, ip: Bytes, stats: Stats, at: int, later: int)
    requires IsSent(j, ip, stats, at) && at <= later && j.sent <= j'.sent
    ensures IsSent(j', ip, stats, later)
  {
    var x :| x in j.sent && x.ip == ip && x.stats == stats && x.at <= at;
    assert x in j'.sent;
  }

  // Whatever is a step of the requests alone, or changes no statistics, keeps this.
  lemma KnownKept(j: Joint, j': Joint)
    requires AllKnownSent(j) && j.sent <= j'.sent
    requires j'.sys.enqueued == j.sys.enqueued && j.sys.now <= j'.sys.now && |j.sys.heap| <= |j'.sys.heap|
    requires forall id :: 0 <= id < |j.sys.heap| ==>
               j'.sys.heap[id].stats == j.sys.heap[id].stats && j'.sys.heap[id].ip == j.sys.heap[id].ip
    requires forall id :: |j.sys.heap| <= id < |j'.sys.heap| ==> j'.sys.heap[id].stats == NO_STATS
    ensures AllKnownSent(j')
  {
    forall id | 0 <= id < |j.sys.heap| && j.sys.heap[id].stats != NO_STATS
      ensures IsSent(j', j.sys.heap[id].ip, j.sys.heap[id].stats, j'.sys.now)
    {
      SentLater(j, j', j.sys.heap[id].ip, j.sys.heap[id].stats, j.sys.now, j'.sys.now);
    }
    forall i | 0 <= i < |j.sys.enqueued|
      ensures IsSent(j', j.sys.enqueued[i].d.ip, j.sys.enqueued[i].d.stats, j.sys.enqueued[i].at)
    {
      SentLater(j, j', j.sys.enqueued[i].d.ip, j.sys.enqueued[i].d.stats, j.sys.enqueued[i].at, j.sys.enqueued[i].at);
    }
  }

  lemma VerdictKeeps(s: System, m: Message, force: bool, p: Policy)
    requires Valid(s) && m.ip in s.table
    ensures VerdictOn(s, m, force, p).d.stats == m.stats && VerdictOn(s, m, force, p).d.ip == m.ip
  {
  }

  lemma DecidedSent(j: Joint, m: Message, force: bool, id: nat, v: Verdict)
    requires AllKnownSent(j) && id < |j.sys.heap| && j.sys.now <= m.at <= m.judgedAt
    requires v.d.stats == m.stats && v.d.ip == m.ip && IsSent(j, m.ip, m.stats, m.at)
    ensures AllKnownSent(j.(sys := Decided(j.sys, m, force, id, v)))
  {
    var j' := j.(sys := Decided(j.sys, m, force, id, v));
    SentLater(j, j', m.ip, m.stats, m.at, m.judgedAt);
    SentLater(j, j', m.ip, m.stats, m.at, m.at);
    forall k | 0 <= k < |j'.sys.heap|
      ensures j'.sys.heap[k].stats == NO_STATS || IsSent(j', j'.sys.heap[k].ip, j'.sys.heap[k].stats, j'.sys.now)
    {
      if k != id && j.sys.heap[k].stats != NO_STATS {
        SentLater(j, j', j.sys.heap[k].ip, j.sys.heap[k].stats, j.sys.now, j'.sys.now);
      }
    }
    forall i | 0 <= i < |j.sys.enqueued|
      ensures IsSent(j', j.sys.enqueued[i].d.ip, j.sys.enqueued[i].d.stats, j.sys.enqueued[i].at)
    {
      SentLater(j, j', j.sys.enqueued[i].d.ip, j.sys.enqueued[i].d.stats, j.sys.enqueued[i].at, j.sys.enqueued[i].at);
    }
  }

  lemma {:induction false} UpdateAllSent(j: Joint, msgs: seq<Message>, force: bool, p: Policy)
    requires Valid(j.sys) && AllKnownSent(j) && MessagesOrdered(msgs, j.sys.now) && AllSent(j, msgs)
    ensures AllKnownSent(j.(sys := UpdateAll(j.sys, msgs, force, p)))
    ensures |UpdateAll(j.sys, msgs, force, p).heap| == |j.sys.heap|
    decreases |msgs|
  {
    if msgs != [] && msgs[0].ip in j.sys.table && msgs[0].stats.total > 0 {
      var m, id := msgs[0], j.sys.table[msgs[0].ip];
      var j1 := j.(sys := UpdateOne(j.sys, m, force, p));
      UpdateOneValid(j.sys, m, force, p);
      VerdictKeeps(j.sys, m, force, p);
      DecidedSent(j, m, force, id, VerdictOn(j.sys, m, force, p));
      RestSent(j, j1, msgs);
      UpdateAllSent(j1, msgs[1..], force, p);
    }
  }

  lemma RestSent(j: Joint, j1: Joint, msgs: seq<Message>)
    requires msgs != [] && AllSent(j, msgs) && j1.sent == j.sent
    ensures AllSent(j1, msgs[1..])
  {
    forall i | 0 <= i < |msgs| - 1 && msgs[1..][i].stats.total > 0
      ensures IsSent(j1, msgs[1..][i].ip, msgs[1..][i].stats, msgs[1..][i].at)
    {
      assert msgs[1..][i] == msgs[i + 1];
      SentLater(j, j1, msgs[i + 1].ip, msgs[i + 1].stats, msgs[i + 1].at, msgs[i + 1].at);
    }
  }

  // The batch collected after a network or a system has been blocked is one of those the steps allow.
  lemma ForcedIsSent(j: Joint, order: seq<Bytes>, at: nat -> Attempt, judge: nat -> Judging)
    requires Valid(j.sys) && KnownSent(j) && Lists(order, j.sys)
    requires forall i :: judge(i).at >= j.sys.now
    ensures AllSent(j, Forced(j.sys, order, at, judge))
  {
    var msgs := Forced(j.sys, order, at, judge);
    forall i | 0 <= i < |msgs| && msgs[i].stats.total > 0 ensures IsSent(j, msgs[i].ip, msgs[i].stats, msgs[i].at) {
      var k := ForcedFrom(j.sys, order, at, judge, i);
      var d := j.sys.heap[j.sys.table[order[k]]];
      assert judge(i).at >= j.sys.now;
      SentLater(j, j, d.ip, d.stats, j.sys.now, msgs[i].at);
    }
  }

  // ---------------------------------------------------------------- what every step keeps

  ghost predicate Sound(j: Joint, p: Policy, c: Requests.Config, slack: nat)
  {
    Valid(j.sys) && Queued(j.sys, p) && PastsOk(j, c, slack) && AllKnownSent(j)
  }

  lemma ThenOk(h: Past, op: RequestRuns.Op, c: Requests.Config, slack: nat)
    requires h.Ok(c, slack) && h.Before(op.r) && op.r.done - op.r.check <= slack
    requires op.Add? ==> op.r.check - c.Span() <= KeyFor(op.req.time, c.windowSize)
    ensures h.Then(op).Ok(c, slack)
  {
    RequestRuns.PromptMore(h.ops, op, c, slack);
    RequestRuns.OrderedMore(h.ops, op, h.expiredAt);
  }

  lemma StepSound(j: Joint, step: Step, p: Policy, c: Requests.Config, slack: nat)
    requires Sound(j, p, c, slack) && CanStep(j, step, c, slack)
    ensures Sound(StepOn(j, step, p, c, slack), p, c, slack)
    ensures StepOn(j, step, p, c, slack).sys.start == j.sys.start
  {
    match step
    case Look(_, _, _, _, _, _, _) => LookSound(j, step, p, c, slack);
    case Count(id, req, asset, r) =>
      ThenOk(j.pasts[id], RequestRuns.Add(req, asset, r), c, slack);
      KnownKept(j, StepOn(j, step, p, c, slack));
    case Expire(id, r) =>
      ThenOk(j.pasts[id], RequestRuns.Expire(r), c, slack);
      KnownKept(j, StepOn(j, step, p, c, slack));
    case Other(s) => OtherSound(j, step, p, c, slack);
  }

  lemma LookSound(j: Joint, step: Step, p: Policy, c: Requests.Config, slack: nat)
    requires Sound(j, p, c, slack) && CanStep(j, step, c, slack) && step.Look?
    ensures Sound(StepOn(j, step, p, c, slack), p, c, slack)
    ensures StepOn(j, step, p, c, slack).sys.start == j.sys.start
  {
    StepValid(j.sys, LookStep(step), p);
    StepQueued(j.sys, LookStep(step), p);
    KnownKept(j, StepOn(j, step, p, c, slack));
    assert Past([], step.requestsAt, step.expiredAt).Ok(c, slack);
  }

  lemma OtherSound(j: Joint, step: Step, p: Policy, c: Requests.Config, slack: nat)
    requires Sound(j, p, c, slack) && CanStep(j, step, c, slack) && step.Other?
    ensures Sound(StepOn(j, step, p, c, slack), p, c, slack)
    ensures StepOn(j, step, p, c, slack).sys.start == j.sys.start
  {
    var s := step.step;
    StepValid(j.sys, s, p);
    StepQueued(j.sys, s, p);
    StepKeepsStart(j.sys, s, p);
    if s.Update? {
      UpdateAllSent(j, s.msgs, s.force, p);
    } else {
      KnownKept(j, StepOn(j, step, p, c, slack));
    }
  }

  lemma JointInit(states: seq<Joint>, steps: seq<Step>, p: Policy, c: Requests.Config, slack: nat, n: nat)
    requires IsJointRun(states, steps, p, c, slack) && n <= |steps|
    ensures IsJointRun(states[..n + 1], steps[..n], p, c, slack) && states[..n + 1][0] == states[0] && states[..n + 1][n] == states[n]
  {
  }

  // In every run the statistics of every known address, and of every entry into the queue, were sent
  // with a request of that address.
  lemma {:induction false} EveryRunSound(states: seq<Joint>, steps: seq<Step>, p: Policy, db: Db, now: int,
                                         c: Requests.Config, slack: nat)
    requires IsJointRun(states, steps, p, c, slack) && states[0] == JointStart(db, now)
    ensures Sound(states[|steps|], p, c, slack) && states[|steps|].sys.start == db
  {
    if steps != [] {
      var n := |steps| - 1;
      JointInit(states, steps, p, c, slack, n);
      EveryRunSound(states[..n + 1], steps[..n], p, db, now, c, slack);
      StepSound(states[n], steps[n], p, c, slack);
    }
  }

  // ---------------------------------------------------------------- what was sent comes from the run

  /** The k-th step of the run is the request with which this was sent. */
  ghost predicate SentWith(states: seq<Joint>, steps: seq<Step>, k: nat, x: Sent, c: Requests.Config)
  {
    && k < |steps| && k + 1 < |states| && steps[k].Count?
    && var step := steps[k];
       && step.id < |states[k + 1].pasts|
       && x == Sent(step.req.source, Requests.StatsOf(states[k + 1].pasts[step.id].Value(c)), step.r.done)
  }

  lemma {:induction false} SentStep(states: seq<Joint>, steps: seq<Step>, p: Policy, db: Db, now: int,
                                    c: Requests.Config, slack: nat, x: Sent) returns (k: nat)
    requires IsJointRun(states, steps, p, c, slack) && states[0] == JointStart(db, now) && x in states[|steps|].sent
    ensures SentWith(states, steps, k, x, c)
  {
    var n := |steps| - 1;
    if x in states[n].sent {
      JointInit(states, steps, p, c, slack, n);
      k := SentStep(states[..n + 1], steps[..n], p, db, now, c, slack, x);
    } else {
      k := n;
    }
  }

  /** How many app requests of the address the steps have whose bucket is not before lo. */
  function AppRequests(steps: seq<Step>, ip: Bytes, w: Width, lo: int): nat
  {
    if steps == [] then 0 else
      var step := steps[|steps| - 1];
      AppRequests(steps[..|steps| - 1], ip, w, lo)
      + if step.Count? && step.req.source == ip && !step.asset && KeyFor(step.req.time, w) >= lo then 1 else 0
  }

  /** How many app requests of the past have a bucket not before lo. */
  function AppOf(h: Past, w: Width, lo: int): nat
  {
    |Above(WindowRuns.Keys(RequestRuns.TimesOf(h.ops, RequestRuns.App), w), lo)|
  }

  lemma AppThen(h: Past, op: RequestRuns.Op, w: Width, lo: int)
    ensures AppOf(h.Then(op), w, lo) == AppOf(h, w, lo) + if op.Add? && !op.asset && KeyFor(op.req.time, w) >= lo then 1 else 0
  {
    assert (h.ops + [op])[..|h.ops|] == h.ops;
    if op.Add? && !op.asset {
      var ts := RequestRuns.TimesOf(h.ops, RequestRuns.App);
      WindowRuns.KeysAppend(ts, op.req.time, w);
      AboveAppend(WindowRuns.Keys(ts, w), KeyFor(op.req.time, w), lo);
    }
  }

  /** No object has more app requests than the steps have of its address. */
  ghost predicate FromSteps(j: Joint, steps: seq<Step>, w: Width, lo: int)
  {
    |j.pasts| == |j.sys.heap| &&
    forall id :: 0 <= id < |j.pasts| ==> AppOf(j.pasts[id], w, lo) <= AppRequests(steps, j.sys.heap[id].ip, w, lo)
  }

  /** Does the step count an app request of the address, in a bucket not before lo? */
  predicate CountsApp(step: Step, w: Width, lo: int)
  {
    step.Count? && !step.asset && KeyFor(step.req.time, w) >= lo
  }

  // A step adds at most its own request to the past of an object.
  lemma StepPast(j: Joint, step: Step, p: Policy, c: Requests.Config, slack: nat, lo: int, id: nat)
    requires Valid(j.sys) && CanStep(j, step, c, slack) && id < |j.pasts|
    ensures var j', w := StepOn(j, step, p, c, slack), c.windowSize;
            && id < |j'.pasts|
            && AppOf(j'.pasts[id], w, lo) == AppOf(j.pasts[id], w, lo) + if CountsApp(step, w, lo) && step.id == id then 1 else 0
  {
    match step
    case Count(_, req, asset, r) => AppThen(j.pasts[id], RequestRuns.Add(req, asset, r), c.windowSize, lo);
    case Expire(_, r) => AppThen(j.pasts[id], RequestRuns.Expire(r), c.windowSize, lo);
    case _ =>
  }

  lemma AppRequestsMore(steps: seq<Step>, step: Step, ip: Bytes, w: Width, lo: int)
    ensures AppRequests(steps + [step], ip, w, lo)
         == AppRequests(steps, ip, w, lo) + if CountsApp(step, w, lo) && step.req.source == ip then 1 else 0
  {
    assert (steps + [step])[..|steps|] == steps;
  }

  lemma StepFromSteps(j: Joint, steps: seq<Step>, step: Step, p: Policy, c: Requests.Config, slack: nat, lo: int)
    requires Sound(j, p, c, slack) && CanStep(j, step, c, slack) && FromSteps(j, steps, c.windowSize, lo)
    ensures FromSteps(StepOn(j, step, p, c, slack), steps + [step], c.windowSize, lo)
  {
    var j', w := StepOn(j, step, p, c, slack), c.windowSize;
    StepSound(j, step, p, c, slack);
    StepIps(j, step, p, c, slack);
    forall id | 0 <= id < |j'.pasts| ensures AppOf(j'.pasts[id], w, lo) <= AppRequests(steps + [step], j'.sys.heap[id].ip, w, lo) {
      AppRequestsMore(steps, step, j'.sys.heap[id].ip, w, lo);
      if id < |j.pasts| {
        StepPast(j, step, p, c, slack, lo, id);
        assert AppOf(j.pasts[id], w, lo) <= AppRequests(steps, j.sys.heap[id].ip, w, lo);
      }
    }
  }

  // Objects keep their addresses.
  lemma StepIps(j: Joint, step: Step, p: Policy, c: Requests.Config, slack: nat)
    requires Valid(j.sys) && CanStep(j, step, c, slack)
    ensures var j' := StepOn(j, step, p, c, slack);
            |j.sys.heap| <= |j'.sys.heap| && forall id :: 0 <= id < |j.sys.heap| ==> j'.sys.heap[id].ip == j.sys.heap[id].ip
  {
    if step.Other? && step.step.Update? {
      UpdateAllIps(j.sys, step.step.msgs, step.step.force, p);
    }
  }

  lemma {:induction false} UpdateAllIps(s: System, msgs: seq<Message>, force: bool, p: Policy)
    requires Valid(s)
    ensures var s' := UpdateAll(s, msgs, force, p);
            |s'.heap| == |s.heap| && forall id :: 0 <= id < |s.heap| ==> s'.heap[id].ip == s.heap[id].ip
    decreases |msgs|
  {
    if msgs != [] && msgs[0].ip in s.table && msgs[0].stats.total > 0 {
      UpdateOneValid(s, msgs[0], force, p);
      VerdictKeeps(s, msgs[0], force, p);
      UpdateAllIps(UpdateOne(s, msgs[0], force, p), msgs[1..], force, p);
    }
  }

  lemma {:induction false} RunFromSteps(states: seq<Joint>, steps: seq<Step>, p: Policy, db: Db, now: int,
                                        c: Requests.Config, slack: nat, lo: int)
    requires IsJointRun(states, steps, p, c, slack) && states[0] == JointStart(db, now)
    ensures FromSteps(states[|steps|], steps, c.windowSize, lo)
  {
    if steps != [] {
      var n := |steps| - 1;
      JointInit(states, steps, p, c, slack, n);
      RunFromSteps(states[..n + 1], steps[..n], p, db, now, c, slack, lo);
      EveryRunSound(states[..n + 1], steps[..n], p, db, now, c, slack);
      StepFromSteps(states[n], steps[..n], steps[n], p, c, slack, lo);
      assert steps == steps[..n] + [steps[n]];
    }
  }

  // ---------------------------------------------------------------- why an address is blocked

  /** The start of numWindows + 1 slices before an expiry (give or take the time it lasts). */
  function Horizon(r: Requests.Readings, c: Requests.Config, slack: nat): int
  {
    r.check - c.windowSize * (c.numWindows + 1) - slack
  }

  /** How many app requests the run has up to the k-th step, of the address of that step, that are recent then. */
  function RecentApp(steps: seq<Step>, k: nat, c: Requests.Config, slack: nat): nat
    requires k < |steps| && steps[k].Count?
  {
    AppRequests(steps[..k + 1], steps[k].req.source, c.windowSize, Horizon(steps[k].r, c, slack))
  }

  // What the step itself does: the past of its object is in order, and ends with its request.
  lemma CountedPast(states: seq<Joint>, steps: seq<Step>, p: Policy, db: Db, now: int, c: Requests.Config, slack: nat, k: nat)
    requires IsJointRun(states, steps, p, c, slack) && states[0] == JointStart(db, now)
    requires k < |steps| && steps[k].Count?
    ensures steps[k].id < |states[k + 1].pasts| == |states[k + 1].sys.heap|
    ensures states[k + 1].sys.heap[steps[k].id].ip == steps[k].req.source
    ensures var h := states[k + 1].pasts[steps[k].id];
            h.Ok(c, slack) && h.ops != [] && h.ops[|h.ops| - 1] == RequestRuns.Add(steps[k].req, steps[k].asset, steps[k].r)
  {
    JointInit(states, steps, p, c, slack, k);
    EveryRunSound(states[..k + 1], steps[..k], p, db, now, c, slack);
    StepSound(states[k], steps[k], p, c, slack);
  }

  // A past that ends with a request reports no more app requests than it has recent ones.
  lemma PastReports(h: Past, c: Requests.Config, slack: nat, lo: int)
    requires h.Ok(c, slack) && h.ops != [] && h.ops[|h.ops| - 1].Add? && lo == Horizon(h.ops[|h.ops| - 1].r, c, slack)
    ensures Requests.StatsOf(h.Value(c)).app <= AppOf(h, c.windowSize, lo)
  {
    RequestRuns.AppCountReal(h.ops, h.createdAt, h.expiredAt, c, slack, lo);
  }

  lemma PastInRun(states: seq<Joint>, steps: seq<Step>, p: Policy, db: Db, now: int,
                  c: Requests.Config, slack: nat, k: nat, lo: int)
    requires IsJointRun(states, steps, p, c, slack) && states[0] == JointStart(db, now)
    requires k < |steps| && steps[k].Count? && steps[k].id < |states[k + 1].pasts|
    ensures steps[k].id < |states[k + 1].sys.heap|
    ensures AppOf(states[k + 1].pasts[steps[k].id], c.windowSize, lo)
         <= AppRequests(steps[..k + 1], states[k + 1].sys.heap[steps[k].id].ip, c.windowSize, lo)
  {
    JointInit(states, steps, p, c, slack, k + 1);
    RunFromSteps(states[..k + 2], steps[..k + 1], p, db, now, c, slack, lo);
  }

  lemma ReportedSince(states: seq<Joint>, steps: seq<Step>, p: Policy, db: Db, now: int,
                      c: Requests.Config, slack: nat, k: nat, lo: int)
    requires IsJointRun(states, steps, p, c, slack) && states[0] == JointStart(db, now)
    requires k < |steps| && steps[k].Count? && steps[k].id < |states[k + 1].pasts| && lo == Horizon(steps[k].r, c, slack)
    ensures Requests.StatsOf(states[k + 1].pasts[steps[k].id].Value(c)).app
         <= AppRequests(steps[..k + 1], steps[k].req.source, c.windowSize, lo)
  {
    CountedPast(states, steps, p, db, now, c, slack, k);
    PastReports(states[k + 1].pasts[steps[k].id], c, slack, lo);
    PastInRun(states, steps, p, db, now, c, slack, k, lo);
  }

  // The app requests that a step of the run reports are at most those of the address up to it in the run
  // that are recent.
  lemma ReportedInRun(states: seq<Joint>, steps: seq<Step>, p: Policy, db: Db, now: int,
                      c: Requests.Config, slack: nat, k: nat, x: Sent)
    requires IsJointRun(states, steps, p, c, slack) && states[0] == JointStart(db, now)
    requires SentWith(states, steps, k, x, c)
    ensures x.stats.app <= RecentApp(steps, k, c, slack)
  {
    ReportedSince(states, steps, p, db, now, c, slack, k, Horizon(steps[k].r, c, slack));
  }

  // Behind each entry into the queue there is a request of the run whose statistics it was based on.
  lemma EntryHasRequest(states: seq<Joint>, steps: seq<Step>, p: Policy, db: Db, now: int,
                        c: Requests.Config, slack: nat, e: Enqueue) returns (k: nat)
    requires IsJointRun(states, steps, p, c, slack) && states[0] == JointStart(db, now)
    requires e in states[|steps|].sys.enqueued
    ensures k < |steps| && steps[k].Count? && steps[k].req.source == e.d.ip && steps[k].r.done <= e.at
    ensures steps[k].id < |states[k + 1].pasts| && e.d.stats == Requests.StatsOf(states[k + 1].pasts[steps[k].id].Value(c))
    ensures e.d.stats.app <= RecentApp(steps, k, c, slack)
  {
    EveryRunSound(states, steps, p, db, now, c, slack);
    var log := states[|steps|].sys.enqueued;
    var i :| 0 <= i < |log| && log[i] == e;
    assert IsSent(states[|steps|], log[i].d.ip, log[i].d.stats, log[i].at);
    var x :| x in states[|steps|].sent && x.ip == e.d.ip && x.stats == e.d.stats && x.at <= e.at;
    k := SentStep(states, steps, p, db, now, c, slack, x);
    ReportedInRun(states, steps, p, db, now, c, slack, k, x);
  }

  // In every run, behind each address in the store that was not there at the start there is an entry into
  // the queue, and behind that a request of the run, the k-th step, whose statistics it was based on.
  // Unless its system or network was blocked, the run has enough app requests of the address up to
  // that step, none in a bucket that started more than numWindows + 1 slices before it.
  lemma EveryBlockHasRequests(states: seq<Joint>, steps: seq<Step>, p: Policy, db: Db, now: int,
                              c: Requests.Config, slack: nat, ip: Bytes) returns (e: Enqueue, k: nat)
    requires IsJointRun(states, steps, p, c, slack) && states[0] == JointStart(db, now)
    requires var s := states[|steps|].sys; IPKey(ip) in s.db && !(IPKey(ip) in db && db[IPKey(ip)] == s.db[IPKey(ip)])
    ensures e in states[|steps|].sys.enqueued && e.d.ip == ip && Justified(e, p)
    ensures var rec := states[|steps|].sys.db[IPKey(ip)].value; rec.IPRecord? && e.at <= rec.blockedAt
    ensures k < |steps| && steps[k].Count? && steps[k].req.source == ip && steps[k].r.done <= e.at
    ensures steps[k].id < |states[k + 1].pasts| && e.d.stats == Requests.StatsOf(states[k + 1].pasts[steps[k].id].Value(c))
    ensures || RecentApp(steps, k, c, slack) > p.maxApp
            || (RecentApp(steps, k, c, slack) > p.minApp && p.maxRatio <= e.d.stats.ratio)
            || (p.withNetworks && ASNBlocked(e.db, e.d.asn, e.judgedAt))
  {
    var s := states[|steps|].sys;
    EveryRunSound(states, steps, p, db, now, c, slack);
    TracedEntry(s, p, ip);
    e :| e in s.enqueued && e.d.ip == ip && Justified(e, p) && e.at <= s.db[IPKey(ip)].value.blockedAt;
    k := EntryHasRequest(states, steps, p, db, now, c, slack, e);
  }

  // ---------------------------------------------------------------- which requests lead to a block

  /** How many app requests the steps count in the object whose bucket is not before lo. */
  function ObjectRequests(steps: seq<Step>, id: nat, w: Width, lo: int): nat
  {
    if steps == [] then 0 else
      var step := steps[|steps| - 1];
      ObjectRequests(steps[..|steps| - 1], id, w, lo)
      + if step.Count? && step.id == id && !step.asset && KeyFor(step.req.time, w) >= lo then 1 else 0
  }

  function PastApp(j: Joint, id: nat, w: Width, lo: int): nat
  {
    if id < |j.pasts| then AppOf(j.pasts[id], w, lo) else 0
  }

  lemma StepPastApp(j: Joint, step: Step, p: Policy, c: Requests.Config, slack: nat, lo: int, id: nat)
    requires Valid(j.sys) && CanStep(j, step, c, slack)
    ensures var j', w := StepOn(j, step, p, c, slack), c.windowSize;
            PastApp(j', id, w, lo) == PastApp(j, id, w, lo) + if CountsApp(step, w, lo) && step.id == id then 1 else 0
  {
    if id < |j.pasts| {
      StepPast(j, step, p, c, slack, lo, id);
    }
  }

  // The past of an object has exactly the requests that the steps of the run have counted in it.
  lemma {:induction false} PastIsCounted(states: seq<Joint>, steps: seq<Step>, p: Policy, db: Db, now: int,
                                         c: Requests.Config, slack: nat, id: nat, lo: int)
    requires IsJointRun(states, steps, p, c, slack) && states[0] == JointStart(db, now)
    ensures PastApp(states[|steps|], id, c.windowSize, lo) == ObjectRequests(steps, id, c.windowSize, lo)
  {
    if steps != [] {
      var n := |steps| - 1;
      JointInit(states, steps, p, c, slack, n);
      PastIsCounted(states[..n + 1], steps[..n], p, db, now, c, slack, id, lo);
      StepPastApp(states[n], steps[n], p, c, slack, lo, id);
    }
  }

  // A past that ends with a request reports at least the app requests from the start of its span on.
  lemma PastReportsAll(h: Past, c: Requests.Config, slack: nat, lo: int)
    requires h.Ok(c, slack) && h.ops != [] && h.ops[|h.ops| - 1].Add? && lo == h.ops[|h.ops| - 1].r.done - c.Span()
    ensures AppOf(h, c.windowSize, lo) <= Requests.StatsOf(h.Value(c)).app && Requests.StatsOf(h.Value(c)).total > 0
  {
    RequestRuns.ReportsAtLeast(h.ops, h.createdAt, h.expiredAt, c, RequestRuns.App, lo);
    RequestRuns.StatsSound(h.ops, h.createdAt, h.expiredAt, c);
  }

  lemma CountReportsAll(states: seq<Joint>, steps: seq<Step>, p: Policy, db: Db, now: int, c: Requests.Config, slack: nat, k: nat, lo: int)
    requires IsJointRun(states, steps, p, c, slack) && states[0] == JointStart(db, now)
    requires k < |steps| && steps[k].Count? && lo == steps[k].r.done - c.Span()
    ensures steps[k].id < |states[k + 1].pasts|
    ensures var stats := Requests.StatsOf(states[k + 1].pasts[steps[k].id].Value(c));
            ObjectRequests(steps[..k + 1], steps[k].id, c.windowSize, lo) <= stats.app && stats.total > 0
  {
    CountedPast(states, steps, p, db, now, c, slack, k);
    JointInit(states, steps, p, c, slack, k + 1);
    PastIsCounted(states[..k + 2], steps[..k + 1], p, db, now, c, slack, steps[k].id, lo);
    PastReportsAll(states[k + 1].pasts[steps[k].id], c, slack, lo);
  }

  lemma RunValid(states: seq<Joint>, steps: seq<Step>, p: Policy, db: Db, now: int, c: Requests.Config, slack: nat)
    requires IsJointRun(states, steps, p, c, slack) && states[0] == JointStart(db, now)
    ensures Valid(states[|steps|].sys)
  {
    EveryRunSound(states, steps, p, db, now, c, slack);
  }

  lemma MessageSent(states: seq<Joint>, steps: seq<Step>, p: Policy, c: Requests.Config, slack: nat, k: nat, m: Message)
    requires IsJointRun(states, steps, p, c, slack) && k < |steps| && steps[k].Count?
    requires SentWith(states, steps, k, Sent(m.ip, m.stats, steps[k].r.done), c)
    ensures steps[k].r.done <= m.at ==> IsSent(states[|steps|], m.ip, m.stats, m.at)
  {
    StaysSent(states, steps, p, c, slack, k, Sent(m.ip, m.stats, steps[k].r.done));
  }

  lemma ManyQueued(s: System, m: Message, force: bool, p: Policy)
    requires Valid(s) && m.ip in s.table && m.stats.total > 0 && m.stats.app > p.maxApp
    ensures var s', id, d := UpdateAll(s, [m], force, p), s.table[m.ip], s.heap[s.table[m.ip]];
            s.chan <= s'.chan
            && (id in s'.chan[|s.chan|..] <==>
                  && d.hostname != "" && d.hostname != RESOLVING
                  && !d.whitelisted && !m.rules(d.ip, d.hostname, d.asn)
                  && (m.judgedAt - p.windowSize <= d.updatedAt || m.judgedAt - p.windowSize <= d.createdAt)
                  && (force || d.lastBlockAt + p.blockTTL < m.at))
  {
    BatchQueues(s, [m], force, p, 0);
    assert Usable(s, [m][0]);
  }

  // What was sent with a request can arrive at any later time.
  lemma {:induction false} StaysSent(states: seq<Joint>, steps: seq<Step>, p: Policy, c: Requests.Config, slack: nat, k: nat, x: Sent)
    requires IsJointRun(states, steps, p, c, slack) && SentWith(states, steps, k, x, c)
    ensures x in states[|steps|].sent
  {
    var n := |steps| - 1;
    StepSends(states[n], steps[n], p, c, slack);
    if k < n {
      JointInit(states, steps, p, c, slack, n);
      StaysSent(states[..n + 1], steps[..n], p, c, slack, k, x);
    }
  }

  lemma StepSends(j: Joint, step: Step, p: Policy, c: Requests.Config, slack: nat)
    requires Valid(j.sys) && CanStep(j, step, c, slack)
    ensures var j' := StepOn(j, step, p, c, slack);
            && j.sent <= j'.sent
            && (step.Count? && step.id < |j'.pasts| ==>
                  Sent(step.req.source, Requests.StatsOf(j'.pasts[step.id].Value(c)), step.r.done) in j'.sent)
  {
  }

  // If the run has counted more app requests in an object than the limit, in the span before the end of a
  // request to it, then the statistics sent with that request can arrive, and whenever they do put the address into
  // the queue if and only if its name is known, it is not whitelisted, it is active, and the update is
  // forced or the address last entered the queue more than the block TTL before.
  lemma ManyRequestsQueue(states: seq<Joint>, steps: seq<Step>, p: Policy, db: Db, now: int,
                          c: Requests.Config, slack: nat, k: nat, lo: int, m: Message, force: bool)
    requires IsJointRun(states, steps, p, c, slack) && states[0] == JointStart(db, now)
    requires k < |steps| && steps[k].Count? && lo == steps[k].r.done - c.Span()
    requires ObjectRequests(steps[..k + 1], steps[k].id, c.windowSize, lo) > p.maxApp
    requires m.ip == steps[k].req.source && m.ip in states[|steps|].sys.table
    requires steps[k].id < |states[k + 1].pasts| && m.stats == Requests.StatsOf(states[k + 1].pasts[steps[k].id].Value(c))
    ensures steps[k].r.done <= m.at ==> IsSent(states[|steps|], m.ip, m.stats, m.at)
    ensures var s := states[|steps|].sys;
            Valid(s)
            && var s', id, d := UpdateAll(s, [m], force, p), s.table[m.ip], s.heap[s.table[m.ip]];
               s.chan <= s'.chan
               && (id in s'.chan[|s.chan|..] <==>
                     && d.hostname != "" && d.hostname != RESOLVING
                     && !d.whitelisted && !m.rules(d.ip, d.hostname, d.asn)
                     && (m.judgedAt - p.windowSize <= d.updatedAt || m.judgedAt - p.windowSize <= d.createdAt)
                     && (force || d.lastBlockAt + p.blockTTL < m.at))
  {
    RunValid(states, steps, p, db, now, c, slack);
    CountReportsAll(states, steps, p, db, now, c, slack, k, lo);
    MessageSent(states, steps, p, c, slack, k, m);
    ManyQueued(states[|steps|].sys, m, force, p);
  }
}
