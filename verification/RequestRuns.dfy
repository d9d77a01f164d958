/**
 The five structures of one address after any run of requests and expiries whose clock readings
 never go back: what they agree on, how old a counted bucket can be, and when all are empty.
 */
module RequestRuns {
  import opened Data
  import opened Buckets
  import opened Sums
  import opened Windows
  import opened Requests
  import LatestRuns
  import WindowRuns

  datatype Op = Add(req: Request, asset: bool, r: Readings) | Expire(r: Readings)

  function Step(s: State, op: Op, c: Config): State
  {
    match op
    case Add(req, asset, r) => Counted(Expired(s, r, c), req, asset, c)
    case Expire(r) => Expired(s, r, c)
  }

  /** The state of an address created and first stamped at the given readings, after a run. */
  function Run(ops: seq<Op>, createdAt: int, expiredAt: int, c: Config): State
  {
    if ops == [] then State([], [], [], map[], [], createdAt, expiredAt)
    else Step(Run(ops[..|ops| - 1], createdAt, expiredAt, c), ops[|ops| - 1], c)
  }

  /** The last clock reading of a run that began at the given reading. */
  function LastReading(ops: seq<Op>, start: int): int
  {
    if ops == [] then start else ops[|ops| - 1].r.done
  }

  ghost predicate ClockOrdered(ops: seq<Op>, start: int)
  {
    ops != [] ==>
      var init, r := ops[..|ops| - 1], ops[|ops| - 1].r;
      ClockOrdered(init, start) && r.InOrder() && LastReading(init, start) <= r.check
  }

  /** The times of all requests of a run. */
  function Times(ops: seq<Op>): seq<int>
  {
    if ops == [] then [] else
      var ts := Times(ops[..|ops| - 1]);
      match ops[|ops| - 1]
      case Add(req, _, _) => ts + [req.time]
      case Expire(_) => ts
  }

  // ---------------------------------------------------------------- agreement per bucket

  /** No threshold that this expiry uses on s is above the given one. */
  ghost predicate UsesAtMost(s: State, r: Readings, c: Config, floor: int)
  {
    CanExpire(s, r.check, c) ==>
      && r.all - c.Span() <= floor && r.app - c.Span() <= floor && r.other - c.Span() <= floor
      && forall u :: u in s.agents ==> r.agent(u) - c.Span() <= floor
  }

  ghost predicate ThresholdsAtMost(ops: seq<Op>, createdAt: int, expiredAt: int, c: Config, floor: int)
  {
    ops != [] ==>
      var init, r := ops[..|ops| - 1], ops[|ops| - 1].r;
      ThresholdsAtMost(init, createdAt, expiredAt, c, floor) && UsesAtMost(Run(init, createdAt, expiredAt, c), r, c, floor)
  }

  /** In every bucket the parts do not exceed the whole, and from the floor on they add up to it. */
  ghost predicate Agree(s: State, floor: int)
  {
    && Ok(s.all) && Ok(s.app) && Ok(s.other) && PerAgentOk(s.agents)
    && (forall k :: Get(s.app, k) + Get(s.other, k) <= Get(s.all, k))
    && (forall k :: AgentsAt(s.agents, k) <= Get(s.all, k))
    && (forall k :: k >= floor ==> Get(s.app, k) + Get(s.other, k) == Get(s.all, k))
    && (forall k :: k >= floor ==> AgentsAt(s.agents, k) == Get(s.all, k))
  }

  lemma AgentsAtAdd(m: map<string, seq<Bucket>>, agent: string, key: int, k: int)
    requires PerAgentOk(m)
    ensures AgentsAt(AddPerAgent(m, agent, key), k) == AgentsAt(m, k) + if k == key then 1 else 0
  {
    var b := if agent in m then m[agent] else [];
    IncrementCounts(b, key);
    var v := Get(Increment(b, key), k);
    SumUpdate(CountsAt(m, k), agent, v);
    assert CountsAt(AddPerAgent(m, agent, key), k) == CountsAt(m, k)[agent := v];
  }

  lemma AgentsAtExpire(m: map<string, seq<Bucket>>, clock: string -> int, span: int, k: int)
    requires PerAgentOk(m)
    ensures 0 <= AgentsAt(ExpirePerAgent(m, clock, span), k) <= AgentsAt(m, k)
    ensures (forall u :: u in m ==> k < clock(u) - span) ==> AgentsAt(ExpirePerAgent(m, clock, span), k) == 0
    ensures (forall u :: u in m ==> clock(u) - span <= k) ==> AgentsAt(ExpirePerAgent(m, clock, span), k) == AgentsAt(m, k)
  {
    var m' := ExpirePerAgent(m, clock, span);
    var before, after := CountsAt(m, k), CountsAt(m', k);
    forall u | u in m
      ensures 0 <= before[u]
      ensures u in after ==> after[u] == if k >= clock(u) - span then before[u] else 0
      ensures u !in after && k >= clock(u) - span ==> before[u] == 0
    {
      GetNonNegative(m[u], k);
      DropBelowKeeps(m[u], clock(u) - span);
    }
    SumMonotone(after, before);
    SumMonotone(map[], after);
    if forall u :: u in m ==> k < clock(u) - span {
      SumSame(map[], after);
    }
    if forall u :: u in m ==> clock(u) - span <= k {
      SumSame(after, before);
    }
  }

  lemma ExpireAgrees(s: State, r: Readings, c: Config, floor: int)
    requires Agree(s, floor) && r.InOrder() && UsesAtMost(s, r, c, floor)
    ensures Agree(Expired(s, r, c), floor)
  {
    if CanExpire(s, r.check, c) {
      var s', span := Expired(s, r, c), c.Span();
      DropBelowKeeps(s.all, r.all - span);
      DropBelowKeeps(s.app, r.app - span);
      DropBelowKeeps(s.other, r.other - span);
      ExpirePerAgentOk(s.agents, r.agent, span);
      forall k
        ensures Get(s'.app, k) + Get(s'.other, k) <= Get(s'.all, k)
        ensures AgentsAt(s'.agents, k) <= Get(s'.all, k)
        ensures k >= floor ==> Get(s'.app, k) + Get(s'.other, k) == Get(s'.all, k)
        ensures k >= floor ==> AgentsAt(s'.agents, k) == Get(s'.all, k)
      {
        GetNonNegative(s.app, k);
        GetNonNegative(s.other, k);
        AgentsAtExpire(s.agents, r.agent, span, k);
      }
    }
  }

  lemma CountAgrees(s: State, req: Request, asset: bool, c: Config, floor: int)
    requires Agree(s, floor)
    ensures Agree(Counted(s, req, asset, c), floor)
  {
    var key := KeyFor(req.time, c.windowSize);
    IncrementCounts(s.all, key);
    IncrementCounts(if asset then s.other else s.app, key);
    AddPerAgentOk(s.agents, req.userAgent, key);
    forall k
      ensures AgentsAt(AddPerAgent(s.agents, req.userAgent, key), k) == AgentsAt(s.agents, k) + if k == key then 1 else 0
    {
      AgentsAtAdd(s.agents, req.userAgent, key, k);
    }
  }

  // After any run every bucket holds at least as many requests as app and other requests together,
  // and as all user agents together; where no expiry has reached it holds exactly as many.
  lemma {:induction false} WindowsAgree(ops: seq<Op>, createdAt: int, expiredAt: int, c: Config, floor: int)
    requires ClockOrdered(ops, expiredAt) && ThresholdsAtMost(ops, createdAt, expiredAt, c, floor)
    ensures Agree(Run(ops, createdAt, expiredAt, c), floor)
  {
    if ops == [] {
      forall k ensures AgentsAt(map[], k) == 0 {
        assert CountsAt(map[], k) == map[];
      }
    } else {
      var init, op := ops[..|ops| - 1], ops[|ops| - 1];
      WindowsAgree(init, createdAt, expiredAt, c, floor);
      var s := Run(init, createdAt, expiredAt, c);
      ExpireAgrees(s, op.r, c, floor);
      if op.Add? {
        CountAgrees(Expired(s, op.r, c), op.req, op.asset, c, floor);
      }
    }
  }

  // A threshold above all that a run has used always exists.
  lemma {:induction false} SomeFloor(ops: seq<Op>, createdAt: int, expiredAt: int, c: Config)
    requires ClockOrdered(ops, expiredAt)
    ensures ThresholdsAtMost(ops, createdAt, expiredAt, c, LastReading(ops, expiredAt) - c.Span())
  {
    if ops != [] {
      var init, r := ops[..|ops| - 1], ops[|ops| - 1].r;
      SomeFloor(init, createdAt, expiredAt, c);
      FloorMonotone(init, createdAt, expiredAt, c, LastReading(init, expiredAt) - c.Span(), r.done - c.Span());
    }
  }

  lemma {:induction false} FloorMonotone(ops: seq<Op>, createdAt: int, expiredAt: int, c: Config, lo: int, hi: int)
    requires ThresholdsAtMost(ops, createdAt, expiredAt, c, lo) && lo <= hi
    ensures ThresholdsAtMost(ops, createdAt, expiredAt, c, hi)
  {
    if ops != [] {
      FloorMonotone(ops[..|ops| - 1], createdAt, expiredAt, c, lo, hi);
    }
  }

  lemma FloorUntil(ops: seq<Op>, createdAt: int, expiredAt: int, c: Config, now: int, floor: int)
    requires ClockOrdered(ops, expiredAt) && LastReading(ops, expiredAt) <= now && now - c.Span() <= floor
    ensures ThresholdsAtMost(ops, createdAt, expiredAt, c, floor)
  {
    SomeFloor(ops, createdAt, expiredAt, c);
    FloorMonotone(ops, createdAt, expiredAt, c, LastReading(ops, expiredAt) - c.Span(), floor);
  }

  // Hence the statistics sent after each request are sound.
  lemma StatsSound(ops: seq<Op>, createdAt: int, expiredAt: int, c: Config)
    requires ClockOrdered(ops, expiredAt) && ops != [] && ops[|ops| - 1].Add?
    ensures var stats := StatsOf(Run(ops, createdAt, expiredAt, c));
            && stats.total > 0 && 0 <= stats.app && 0 <= stats.other
            && stats.app + stats.other <= stats.total
            && 0.0 <= stats.ratio <= 1.0
  {
    var s := Run(ops, createdAt, expiredAt, c);
    SomeFloor(ops, createdAt, expiredAt, c);
    WindowsAgree(ops, createdAt, expiredAt, c, LastReading(ops, expiredAt) - c.Span());
    SumDominates(s.all, s.app, s.other);
    SumNonNegative(s.app);
    SumNonNegative(s.other);
    SumNonNegative(s.all);
    assert s.all != [];
    RatioInUnit(Sum(s.app), Sum(s.all));
  }

  // ---------------------------------------------------------------- how old a counted bucket can be

  ghost predicate NoneBefore(b: seq<Bucket>, lo: int)
  {
    forall k :: HasKey(b, k) ==> lo <= k
  }

  ghost predicate AllSince(s: State, lo: int)
  {
    && Ok(s.all) && Ok(s.app) && Ok(s.other) && PerAgentOk(s.agents)
    && NoneBefore(s.all, lo) && NoneBefore(s.app, lo) && NoneBefore(s.other, lo)
    && forall u :: u in s.agents ==> NoneBefore(s.agents[u], lo)
  }

  /** On arrival each request's bucket is at most a full span old, and no step lasts longer than slack. */
  ghost predicate Prompt(ops: seq<Op>, c: Config, slack: int)
  {
    ops != [] ==>
      var op := ops[|ops| - 1];
      && Prompt(ops[..|ops| - 1], c, slack)
      && op.r.done - op.r.check <= slack
      && (op.Add? ==> op.r.check - c.Span() <= KeyFor(op.req.time, c.windowSize))
  }

  lemma PromptMore(ops: seq<Op>, op: Op, c: Config, slack: int)
    requires Prompt(ops, c, slack) && op.r.done - op.r.check <= slack
    requires op.Add? ==> op.r.check - c.Span() <= KeyFor(op.req.time, c.windowSize)
    ensures Prompt(ops + [op], c, slack)
  {
    assert (ops + [op])[..|ops|] == ops;
  }

  lemma OrderedMore(ops: seq<Op>, op: Op, start: int)
    requires ClockOrdered(ops, start) && op.r.InOrder() && LastReading(ops, start) <= op.r.check
    ensures ClockOrdered(ops + [op], start)
  {
    assert (ops + [op])[..|ops|] == ops;
  }

  lemma ExpireSince(s: State, r: Readings, c: Config, lo: int)
    requires AllSince(s, lo) && r.InOrder()
    ensures AllSince(Expired(s, r, c), lo)
    ensures CanExpire(s, r.check, c) ==> AllSince(Expired(s, r, c), r.check - c.Span())
  {
    var span := c.Span();
    DropBelowKeeps(s.all, r.all - span);
    DropBelowKeeps(s.app, r.app - span);
    DropBelowKeeps(s.other, r.other - span);
    ExpirePerAgentOk(s.agents, r.agent, span);
    forall u | u in s.agents
      ensures NoneBefore(DropBelow(s.agents[u], r.agent(u) - span), lo)
      ensures NoneBefore(DropBelow(s.agents[u], r.agent(u) - span), r.check - span)
    {
      DropBelowKeeps(s.agents[u], r.agent(u) - span);
    }
  }

  lemma CountSince(s: State, req: Request, asset: bool, c: Config, lo: int)
    requires AllSince(s, lo) && lo <= KeyFor(req.time, c.windowSize)
    ensures AllSince(Counted(s, req, asset, c), lo)
  {
    var key := KeyFor(req.time, c.windowSize);
    var agent := if req.userAgent in s.agents then s.agents[req.userAgent] else [];
    IncrementSince(s.all, key, lo);
    IncrementSince(if asset then s.other else s.app, key, lo);
    IncrementSince(agent, key, lo);
    AddPerAgentOk(s.agents, req.userAgent, key);
  }

  lemma IncrementSince(b: seq<Bucket>, key: int, lo: int)
    requires Ok(b) && NoneBefore(b, lo) && lo <= key
    ensures Ok(Increment(b, key)) && NoneBefore(Increment(b, key), lo)
  {
    IncrementCounts(b, key);
  }

  lemma AllSinceLater(s: State, lo: int, hi: int)
    requires AllSince(s, hi) && lo <= hi
    ensures AllSince(s, lo)
  {
  }

  lemma ExpireSinceStamp(s: State, r: Readings, c: Config, slack: nat)
    requires AllSince(s, s.expiredAt - slack - c.Span()) && r.InOrder() && r.done - r.check <= slack
    ensures var s' := Expired(s, r, c); AllSince(s', s'.expiredAt - slack - c.Span())
  {
    ExpireSince(s, r, c, s.expiredAt - slack - c.Span());
    if CanExpire(s, r.check, c) {
      AllSinceLater(Expired(s, r, c), r.done - slack - c.Span(), r.check - c.Span());
    }
  }

  lemma {:induction false} KeptSince(ops: seq<Op>, createdAt: int, expiredAt: int, c: Config, slack: nat)
    requires ClockOrdered(ops, expiredAt) && Prompt(ops, c, slack) && createdAt <= expiredAt
    ensures var s := Run(ops, createdAt, expiredAt, c);
            && s.createdAt == createdAt <= s.expiredAt <= LastReading(ops, expiredAt)
            && AllSince(s, createdAt - c.Span()) && AllSince(s, s.expiredAt - slack - c.Span())
  {
    if ops != [] {
      var init, op := ops[..|ops| - 1], ops[|ops| - 1];
      KeptSince(init, createdAt, expiredAt, c, slack);
      var s := Run(init, createdAt, expiredAt, c);
      var s' := Expired(s, op.r, c);
      assert op.r.InOrder();
      ExpireSince(s, op.r, c, createdAt - c.Span());
      ExpireSinceStamp(s, op.r, c, slack);
      if op.Add? {
        CountSince(s', op.req, op.asset, c, createdAt - c.Span());
        CountSince(s', op.req, op.asset, c, s'.expiredAt - slack - c.Span());
      }
    }
  }

  lemma SpanPlus(c: Config)
    ensures c.windowSize * (c.numWindows + 1) == c.Span() + c.windowSize
    ensures c.windowSize * (c.numWindows - 1) == c.Span() - c.windowSize
  {
  }

  // No count reported with a request includes a bucket that started more than numWindows + 1 slices
  // before (give or take the time one step lasts), even when the expiry was skipped.
  lemma NoStaleCount(ops: seq<Op>, createdAt: int, expiredAt: int, c: Config, slack: nat, lo: int)
    requires ClockOrdered(ops, expiredAt) && Prompt(ops, c, slack) && createdAt <= expiredAt
    requires ops != [] && ops[|ops| - 1].Add?
    requires lo == ops[|ops| - 1].r.check - c.windowSize * (c.numWindows + 1) - slack
    ensures AllSince(Run(ops, createdAt, expiredAt, c), lo)
  {
    var init, op := ops[..|ops| - 1], ops[|ops| - 1];
    KeptSince(init, createdAt, expiredAt, c, slack);
    var s := Run(init, createdAt, expiredAt, c);
    SpanPlus(c);
    if CanExpire(s, op.r.check, c) {
      ExpireSince(s, op.r, c, createdAt - c.Span());
      AllSinceLater(Expired(s, op.r, c), lo, op.r.check - c.Span());
    } else if op.r.check - createdAt <= c.windowSize {
      AllSinceLater(s, lo, createdAt - c.Span());
    } else {
      AllSinceLater(s, lo, s.expiredAt - slack - c.Span());
    }
    CountSince(Expired(s, op.r, c), op.req, op.asset, c, lo);
  }

  // ---------------------------------------------------------------- when everything is empty

  /** One of the windows of an address; agents without requests have an empty one. */
  datatype Which = All | App | Other | Agent(name: string)

  function WindowOf(s: State, x: Which): seq<Bucket>
  {
    match x
    case All => s.all
    case App => s.app
    case Other => s.other
    case Agent(u) => if u in s.agents then s.agents[u] else []
  }

  /** The clock reading at which the window expires. */
  function ReadingOf(r: Readings, x: Which): int
  {
    match x
    case All => r.all
    case App => r.app
    case Other => r.other
    case Agent(u) => r.agent(u)
  }

  /** Is the request to be counted in the window? */
  predicate Concerns(op: Op, x: Which)
    requires op.Add?
  {
    match x
    case All => true
    case App => !op.asset
    case Other => op.asset
    case Agent(u) => op.req.userAgent == u
  }

  /** The times of all requests of a run that concern the window. */
  function TimesOf(ops: seq<Op>, x: Which): seq<int>
  {
    if ops == [] then [] else
      var ts, op := TimesOf(ops[..|ops| - 1], x), ops[|ops| - 1];
      if op.Add? && Concerns(op, x) then ts + [op.req.time] else ts
  }

  lemma {:induction false} AllTimes(ops: seq<Op>)
    ensures TimesOf(ops, All) == Times(ops)
  {
    if ops != [] {
      AllTimes(ops[..|ops| - 1]);
    }
  }

  lemma WindowExpired(s: State, r: Readings, c: Config, x: Which, th: int)
    requires th == ReadingOf(r, x) - c.Span()
    ensures WindowOf(Expired(s, r, c), x) == if CanExpire(s, r.check, c) then DropBelow(WindowOf(s, x), th) else WindowOf(s, x)
  {
  }

  lemma WindowCounted(s: State, req: Request, asset: bool, c: Config, x: Which, r: Readings)
    ensures var b := WindowOf(s, x);
            WindowOf(Counted(s, req, asset, c), x)
            == if Concerns(Add(req, asset, r), x) then Increment(b, KeyFor(req.time, c.windowSize)) else b
  {
  }

  lemma UsesBelow(s: State, r: Readings, c: Config, floor: int, x: Which, th: int)
    requires CanExpire(s, r.check, c) && UsesAtMost(s, r, c, floor) && th == ReadingOf(r, x) - c.Span()
    ensures th <= floor || WindowOf(s, x) == []
  {
  }

  // From the floor on every window holds all requests that concern it.
  lemma {:induction false} WindowTracks(ops: seq<Op>, createdAt: int, expiredAt: int, c: Config, x: Which, floor: int)
    requires ThresholdsAtMost(ops, createdAt, expiredAt, c, floor)
    ensures Tracks(WindowOf(Run(ops, createdAt, expiredAt, c), x), WindowRuns.Keys(TimesOf(ops, x), c.windowSize), floor)
  {
    if ops != [] {
      var init, op := ops[..|ops| - 1], ops[|ops| - 1];
      var s, th := Run(init, createdAt, expiredAt, c), ReadingOf(op.r, x) - c.Span();
      WindowTracks(init, createdAt, expiredAt, c, x, floor);
      WindowExpired(s, op.r, c, x, th);
      if CanExpire(s, op.r.check, c) {
        UsesBelow(s, op.r, c, floor, x, th);
      }
      if op.Add? {
        WindowCounted(Expired(s, op.r, c), op.req, op.asset, c, x, op.r);
      }
      var adds := op.Add? && Concerns(op, x);
      WindowRuns.TracksStep(WindowOf(s, x), WindowOf(Run(ops, createdAt, expiredAt, c), x), TimesOf(init, x), TimesOf(ops, x),
                            c.windowSize, floor, CanExpire(s, op.r.check, c) && WindowOf(s, x) != [], th,
                            adds, if adds then op.req.time else 0);
    }
  }

  lemma {:induction false} LatestFromLog(ops: seq<Op>, createdAt: int, expiredAt: int, c: Config)
    ensures forall q :: q in Run(ops, createdAt, expiredAt, c).latest ==> q.time in Times(ops)
  {
    if ops != [] {
      var init, op := ops[..|ops| - 1], ops[|ops| - 1];
      LatestFromLog(init, createdAt, expiredAt, c);
      TrimmedFrom(Run(init, createdAt, expiredAt, c).latest, op.r.latest, c.Span());
    }
  }

  lemma {:induction false} TrimmedFrom(list: seq<Request>, now: int, ttl: int)
    ensures forall q :: q in Trimmed(list, now, ttl) ==> q in list
    ensures (forall q :: q in list ==> now - q.time > ttl) ==> Trimmed(list, now, ttl) == []
  {
    if list != [] && now - list[|list| - 1].time > ttl {
      TrimmedFrom(list[..|list| - 1], now, ttl);
    }
  }

  lemma SizesNonNegative(m: map<string, seq<Bucket>>)
    ensures 0 <= SumOf(Sizes(m))
    ensures PerAgentOk(m) && m != map[] ==> 0 < SumOf(Sizes(m))
  {
    SumMonotone(map[], Sizes(m));
    if PerAgentOk(m) && m != map[] {
      var u :| u in m;
      SumWithout(Sizes(m), u);
      SumMonotone(map[], Sizes(m) - {u});
    }
  }

  lemma SizeZero(s: State)
    requires Size(s) <= 0 && PerAgentOk(s.agents)
    ensures s.all == [] && s.app == [] && s.other == [] && s.latest == [] && s.agents == map[]
  {
    SizesNonNegative(s.agents);
  }

  // If no key is above the threshold, every time is older than the threshold plus one slice.
  lemma OldTimes(ts: seq<int>, w: Width, th: int)
    requires BucketsOf(Above(WindowRuns.Keys(ts, w), th)) == []
    ensures forall t :: t in ts ==> t < th + w
  {
    var keys := WindowRuns.Keys(ts, w);
    BucketsOfCounts(Above(keys, th));
    AboveCounts(keys, th);
    forall t | t in ts ensures t < th + w {
      var i :| 0 <= i < |ts| && ts[i] == t;
      assert keys[i] in multiset(keys);
      assert Get([], keys[i]) == 0;
      KeyForSlice(t, w);
    }
  }

  lemma AgreeAfterExpire(ops: seq<Op>, createdAt: int, expiredAt: int, c: Config, r: Readings)
    requires ClockOrdered(ops, expiredAt) && r.InOrder() && LastReading(ops, expiredAt) <= r.check
    ensures Agree(Expired(Run(ops, createdAt, expiredAt, c), r, c), r.done - c.Span())
  {
    var hi := r.done - c.Span();
    FloorUntil(ops, createdAt, expiredAt, c, r.done, hi);
    WindowsAgree(ops, createdAt, expiredAt, c, hi);
    ExpireAgrees(Run(ops, createdAt, expiredAt, c), r, c, hi);
  }

  // No window ever counts a request that was not added.
  lemma {:induction false} NothingInvented(ops: seq<Op>, createdAt: int, expiredAt: int, c: Config, x: Which)
    ensures AtMost(WindowOf(Run(ops, createdAt, expiredAt, c), x), TimesOf(ops, x), c.windowSize)
  {
    if ops != [] {
      var init, op := ops[..|ops| - 1], ops[|ops| - 1];
      var s, th := Run(init, createdAt, expiredAt, c), ReadingOf(op.r, x) - c.Span();
      var e := WindowOf(Expired(s, op.r, c), x);
      NothingInvented(init, createdAt, expiredAt, c, x);
      WindowExpired(s, op.r, c, x, th);
      DropAtMost(WindowOf(s, x), TimesOf(init, x), c.windowSize, th);
      if op.Add? {
        WindowCounted(Expired(s, op.r, c), op.req, op.asset, c, x, op.r);
        IncrementAtMost(e, TimesOf(init, x), c.windowSize, op.req.time);
      }
    }
  }

  /** No bucket counts more than the times that fall into it. */
  ghost predicate AtMost(b: seq<Bucket>, ts: seq<int>, w: Width)
  {
    Ok(b) && forall k :: Get(b, k) <= multiset(WindowRuns.Keys(ts, w))[k]
  }

  lemma DropAtMost(b: seq<Bucket>, ts: seq<int>, w: Width, th: int)
    requires AtMost(b, ts, w)
    ensures AtMost(DropBelow(b, th), ts, w)
  {
    DropBelowKeeps(b, th);
    forall k ensures Get(DropBelow(b, th), k) <= Get(b, k) {
      GetNonNegative(b, k);
    }
  }

  lemma IncrementAtMost(b: seq<Bucket>, ts: seq<int>, w: Width, t: int)
    requires AtMost(b, ts, w)
    ensures AtMost(Increment(b, KeyFor(t, w)), ts + [t], w)
  {
    IncrementCounts(b, KeyFor(t, w));
    WindowRuns.KeysAppend(ts, t, w);
  }

  // In particular the app requests that are reported with a request are at most those ever added whose bucket
  // started no more than numWindows + 1 slices before (give or take the time one step lasts).
  lemma AppCountReal(ops: seq<Op>, createdAt: int, expiredAt: int, c: Config, slack: nat, lo: int)
    requires ClockOrdered(ops, expiredAt) && Prompt(ops, c, slack) && createdAt <= expiredAt
    requires ops != [] && ops[|ops| - 1].Add?
    requires lo == ops[|ops| - 1].r.check - c.windowSize * (c.numWindows + 1) - slack
    ensures StatsOf(Run(ops, createdAt, expiredAt, c)).app <= |Above(WindowRuns.Keys(TimesOf(ops, App), c.windowSize), lo)|
  {
    ReportsAtMost(ops, createdAt, expiredAt, c, slack, App, lo);
  }

  // ---------------------------------------------------------------- what is reported

  /** How many requests the statistics report of each kind. */
  function Reported(stats: Stats, x: Which): int
    requires !x.Agent?
  {
    match x
    case All => stats.total
    case App => stats.app
    case Other => stats.other
  }

  // A window holds at least all requests from the floor on that concern it.
  lemma SumFrom(b: seq<Bucket>, keys: seq<int>, floor: int)
    requires Tracks(b, keys, floor)
    ensures |Above(keys, floor)| <= Sum(b)
  {
    var young := DropBelow(b, floor);
    DropBelowKeeps(b, floor);
    BucketsOfCounts(Above(keys, floor));
    forall k ensures Get(young, k) + Get([], k) <= Get(b, k) {
      GetNonNegative(b, k);
    }
    SumDominates(b, young, []);
  }

  lemma SumIncrement(b: seq<Bucket>, k: int)
    requires Ok(b)
    ensures Sum(Increment(b, k)) == Sum(b) + 1
  {
    SumPut(b, k, Get(b, k) + 1);
  }

  lemma WindowSince(s: State, x: Which, lo: int)
    requires AllSince(s, lo)
    ensures NoneBefore(WindowOf(s, x), lo) && Ok(WindowOf(s, x))
  {
  }

  // In every run each number reported with a request - all, app and other - is at least that of the
  // requests of its kind in the run whose bucket starts in the span before the end of the expiry.
  lemma ReportsAtLeast(ops: seq<Op>, createdAt: int, expiredAt: int, c: Config, x: Which, floor: int)
    requires ClockOrdered(ops, expiredAt) && ops != [] && ops[|ops| - 1].Add? && !x.Agent?
    requires floor == ops[|ops| - 1].r.done - c.Span()
    ensures |Above(WindowRuns.Keys(TimesOf(ops, x), c.windowSize), floor)|
         <= Reported(StatsOf(Run(ops, createdAt, expiredAt, c)), x)
  {
    FloorUntil(ops, createdAt, expiredAt, c, ops[|ops| - 1].r.done, floor);
    WindowTracks(ops, createdAt, expiredAt, c, x, floor);
    SumFrom(WindowOf(Run(ops, createdAt, expiredAt, c), x), WindowRuns.Keys(TimesOf(ops, x), c.windowSize), floor);
  }

  // And at most that of those whose bucket started no more than numWindows + 1 slices before (give or take
  // the time one step lasts).
  lemma ReportsAtMost(ops: seq<Op>, createdAt: int, expiredAt: int, c: Config, slack: nat, x: Which, lo: int)
    requires ClockOrdered(ops, expiredAt) && Prompt(ops, c, slack) && createdAt <= expiredAt && !x.Agent?
    requires ops != [] && ops[|ops| - 1].Add?
    requires lo == ops[|ops| - 1].r.check - c.windowSize * (c.numWindows + 1) - slack
    ensures Reported(StatsOf(Run(ops, createdAt, expiredAt, c)), x)
         <= |Above(WindowRuns.Keys(TimesOf(ops, x), c.windowSize), lo)|
  {
    NoStaleCount(ops, createdAt, expiredAt, c, slack, lo);
    NothingInvented(ops, createdAt, expiredAt, c, x);
    WindowSince(Run(ops, createdAt, expiredAt, c), x, lo);
    RecentSum(WindowOf(Run(ops, createdAt, expiredAt, c), x), WindowRuns.Keys(TimesOf(ops, x), c.windowSize), lo);
  }

  // If the address expires with the request, it is exactly the number of the requests before it whose bucket
  // is in the span before the reading at which their window expires, and the request itself.
  lemma ReportsExactly(ops: seq<Op>, createdAt: int, expiredAt: int, c: Config, req: Request, asset: bool, r: Readings,
                       x: Which, th: int)
    requires ClockOrdered(ops + [Add(req, asset, r)], expiredAt) && !x.Agent?
    requires CanExpire(Run(ops, createdAt, expiredAt, c), r.check, c) && th == ReadingOf(r, x) - c.Span()
    ensures Reported(StatsOf(Run(ops + [Add(req, asset, r)], createdAt, expiredAt, c)), x)
         == |Above(WindowRuns.Keys(TimesOf(ops, x), c.windowSize), th)|
            + if x == All || asset == (x == Other) then 1 else 0
  {
    var all := ops + [Add(req, asset, r)];
    assert all[..|ops|] == ops;
    var s := Run(ops, createdAt, expiredAt, c);
    var b := WindowOf(Expired(s, r, c), x);
    WindowAfterExpire(ops, createdAt, expiredAt, c, r, x, th);
    BucketsOfCounts(Above(WindowRuns.Keys(TimesOf(ops, x), c.windowSize), th));
    WindowCounted(Expired(s, r, c), req, asset, c, x, r);
    SumIncrement(b, KeyFor(req.time, c.windowSize));
  }

  // The ratio reported is that of the numbers reported.
  lemma ReportsRatio(ops: seq<Op>, createdAt: int, expiredAt: int, c: Config)
    requires ClockOrdered(ops, expiredAt) && ops != [] && ops[|ops| - 1].Add?
    ensures var stats := StatsOf(Run(ops, createdAt, expiredAt, c));
            stats.total > 0 && stats.ratio * stats.total as real == stats.app as real
  {
    StatsSound(ops, createdAt, expiredAt, c);
    RatioIs(Sum(Run(ops, createdAt, expiredAt, c).app), Sum(Run(ops, createdAt, expiredAt, c).all));
  }

  // ---------------------------------------------------------------- the latest requests

  /** What the list of latest requests goes through in a run: the expiries that are not skipped, and the requests. */
  function LatestOps(ops: seq<Op>, createdAt: int, expiredAt: int, c: Config): seq<LatestRuns.Op>
  {
    if ops == [] then [] else
      var init, op := ops[..|ops| - 1], ops[|ops| - 1];
      LatestOps(init, createdAt, expiredAt, c)
      + (if CanExpire(Run(init, createdAt, expiredAt, c), op.r.check, c) then [LatestRuns.Expire(op.r.latest)] else [])
      + if op.Add? then [LatestRuns.Add(op.req.(isApp := !op.asset))] else []
  }

  /** The requests of a run, the newest first, each marked as app request or not. */
  function NewestFirst(ops: seq<Op>): seq<Request>
  {
    if ops == [] then [] else
      var rs, op := NewestFirst(ops[..|ops| - 1]), ops[|ops| - 1];
      if op.Add? then [op.req.(isApp := !op.asset)] + rs else rs
  }

  lemma LatestAppend(ops: seq<LatestRuns.Op>, op: LatestRuns.Op, maxSize: int, ttl: int)
    ensures LatestRuns.NewestFirst(ops + [op])
         == (if op.Add? then [op.req] else []) + LatestRuns.NewestFirst(ops)
    ensures LatestRuns.Run(ops + [op], maxSize, ttl)
         == if op.Add? then Pushed(LatestRuns.Run(ops, maxSize, ttl), op.req, maxSize)
            else Trimmed(LatestRuns.Run(ops, maxSize, ttl), op.now, ttl)
  {
    assert (ops + [op])[..|ops|] == ops;
  }

  lemma {:induction false} LatestIsRun(ops: seq<Op>, createdAt: int, expiredAt: int, c: Config)
    ensures var ls := LatestOps(ops, createdAt, expiredAt, c);
            && Run(ops, createdAt, expiredAt, c).latest == LatestRuns.Run(ls, c.keepRequests, c.Span())
            && NewestFirst(ops) == LatestRuns.NewestFirst(ls)
  {
    if ops != [] {
      var init, op := ops[..|ops| - 1], ops[|ops| - 1];
      LatestIsRun(init, createdAt, expiredAt, c);
      var ls := LatestOps(init, createdAt, expiredAt, c);
      var can := CanExpire(Run(init, createdAt, expiredAt, c), op.r.check, c);
      var mid := ls + if can then [LatestRuns.Expire(op.r.latest)] else [];
      if can {
        LatestAppend(ls, LatestRuns.Expire(op.r.latest), c.keepRequests, c.Span());
      } else {
        assert mid == ls;
      }
      if op.Add? {
        LatestAppend(mid, LatestRuns.Add(op.req.(isApp := !op.asset)), c.keepRequests, c.Span());
      } else {
        assert mid + [] == mid;
      }
    }
  }

  lemma {:induction false} LatestClock(ops: seq<Op>, createdAt: int, expiredAt: int, c: Config)
    requires ClockOrdered(ops, expiredAt)
    ensures LatestRuns.ClockAtMost(LatestOps(ops, createdAt, expiredAt, c), LastReading(ops, expiredAt))
  {
    if ops != [] {
      LatestClock(ops[..|ops| - 1], createdAt, expiredAt, c);
    }
  }

  // In every run the list of latest requests is the newest k of all requests of the address, each marked
  // as app request or not, with k at most the cap; what is missing was pushed out or is older than the span.
  lemma LatestAreNewest(ops: seq<Op>, createdAt: int, expiredAt: int, c: Config)
    requires ClockOrdered(ops, expiredAt)
    ensures var list, rs := Run(ops, createdAt, expiredAt, c).latest, NewestFirst(ops);
            && list <= rs && |list| <= LatestRuns.Cap(c.keepRequests)
            && forall i :: |list| <= i < |rs| ==> i >= LatestRuns.Cap(c.keepRequests) || LastReading(ops, expiredAt) - rs[i].time > c.Span()
  {
    var ls := LatestOps(ops, createdAt, expiredAt, c);
    LatestIsRun(ops, createdAt, expiredAt, c);
    LatestClock(ops, createdAt, expiredAt, c);
    LatestRuns.AlwaysNewest(ls, c.keepRequests, c.Span());
    LatestRuns.GoneForAReason(ls, c.keepRequests, c.Span(), LastReading(ops, expiredAt));
  }

  // And an expiry that is not skipped leaves nothing at its end that is too old.
  lemma LatestFresh(ops: seq<Op>, createdAt: int, expiredAt: int, c: Config, r: Readings)
    requires CanExpire(Run(ops, createdAt, expiredAt, c), r.check, c)
    ensures var list, list' := Run(ops, createdAt, expiredAt, c).latest, Run(ops + [Expire(r)], createdAt, expiredAt, c).latest;
            && list' <= list && (list' != [] ==> r.latest - list'[|list'| - 1].time <= c.Span())
            && forall i :: |list'| <= i < |list| ==> r.latest - list[i].time > c.Span()
  {
    assert (ops + [Expire(r)])[..|ops|] == ops;
    LatestRuns.TrimmedIsPrefix(Run(ops, createdAt, expiredAt, c).latest, r.latest, c.Span());
  }

  lemma RecentSum(b: seq<Bucket>, keys: seq<int>, lo: int)
    requires Ok(b) && NoneBefore(b, lo) && forall k :: Get(b, k) <= multiset(keys)[k]
    ensures Sum(b) <= |Above(keys, lo)|
  {
    var young := BucketsOf(Above(keys, lo));
    BucketsOfCounts(Above(keys, lo));
    AboveCounts(keys, lo);
    forall k ensures Get(b, k) + Get([], k) <= Get(young, k) {
      if k < lo {
        GetMissing(b, k);
      }
    }
    SumDominates(young, b, []);
  }

  // Within a run, too, an expiry leaves in every window exactly the young keys of all requests ever
  // added that concern it.
  lemma WindowAfterExpire(ops: seq<Op>, createdAt: int, expiredAt: int, c: Config, r: Readings, x: Which, th: int)
    requires ClockOrdered(ops, expiredAt) && r.InOrder() && LastReading(ops, expiredAt) <= r.check
    requires CanExpire(Run(ops, createdAt, expiredAt, c), r.check, c)
    requires th == ReadingOf(r, x) - c.Span()
    ensures WindowOf(Expired(Run(ops, createdAt, expiredAt, c), r, c), x)
         == BucketsOf(Above(WindowRuns.Keys(TimesOf(ops, x), c.windowSize), th))
  {
    var s := Run(ops, createdAt, expiredAt, c);
    ReadingLater(r, x);
    FloorUntil(ops, createdAt, expiredAt, c, ReadingOf(r, x), th);
    WindowTracks(ops, createdAt, expiredAt, c, x, th);
    TracksExpire(WindowOf(s, x), WindowRuns.Keys(TimesOf(ops, x), c.windowSize), th, th);
    WindowExpired(s, r, c, x, th);
  }

  lemma ReadingLater(r: Readings, x: Which)
    requires r.InOrder()
    ensures r.check <= ReadingOf(r, x) <= r.done
  {
  }

  // In particular in the window of all requests.
  lemma TotalAfterExpire(ops: seq<Op>, createdAt: int, expiredAt: int, c: Config, r: Readings, th: int)
    requires ClockOrdered(ops, expiredAt) && r.InOrder() && LastReading(ops, expiredAt) <= r.check
    requires CanExpire(Run(ops, createdAt, expiredAt, c), r.check, c)
    requires th == r.all - c.Span()
    ensures Expired(Run(ops, createdAt, expiredAt, c), r, c).all == BucketsOf(Above(WindowRuns.Keys(Times(ops), c.windowSize), th))
  {
    WindowAfterExpire(ops, createdAt, expiredAt, c, r, All, th);
    AllTimes(ops);
  }

  // An expiry that leaves nothing at all left no request of the last numWindows - 1 slices behind.
  lemma EmptyLosesNothing(ops: seq<Op>, createdAt: int, expiredAt: int, c: Config, r: Readings)
    requires ClockOrdered(ops, expiredAt) && r.InOrder() && LastReading(ops, expiredAt) <= r.check
    requires CanExpire(Run(ops, createdAt, expiredAt, c), r.check, c)
    requires Size(Expired(Run(ops, createdAt, expiredAt, c), r, c)) <= 0
    ensures var s := Expired(Run(ops, createdAt, expiredAt, c), r, c);
            s.all == [] && s.app == [] && s.other == [] && s.latest == [] && s.agents == map[]
    ensures forall t :: t in Times(ops) ==> t < r.all - c.windowSize * (c.numWindows - 1)
  {
    AgreeAfterExpire(ops, createdAt, expiredAt, c, r);
    var th := r.all - c.Span();
    TotalAfterExpire(ops, createdAt, expiredAt, c, r, th);
    SizeZero(Expired(Run(ops, createdAt, expiredAt, c), r, c));
    OldTimes(Times(ops), c.windowSize, th);
    SpanPlus(c);
  }

  // Once all requests are older than the whole span, the next expiry leaves nothing.
  lemma OldIsEmptied(ops: seq<Op>, createdAt: int, expiredAt: int, c: Config, r: Readings)
    requires ClockOrdered(ops, expiredAt) && r.InOrder() && LastReading(ops, expiredAt) <= r.check
    requires CanExpire(Run(ops, createdAt, expiredAt, c), r.check, c)
    requires forall t :: t in Times(ops) ==> 0 <= t < r.all - c.Span()
    ensures Size(Expired(Run(ops, createdAt, expiredAt, c), r, c)) == 0
  {
    AgreeAfterExpire(ops, createdAt, expiredAt, c, r);
    var th := r.all - c.Span();
    TotalAfterExpire(ops, createdAt, expiredAt, c, r, th);
    NothingAbove(Times(ops), c.windowSize, th);
    PartsEmpty(Expired(Run(ops, createdAt, expiredAt, c), r, c), r.done - c.Span());
    LatestEmptied(ops, createdAt, expiredAt, c, r.latest);
  }

  lemma {:induction false} NothingAbove(ts: seq<int>, w: Width, th: int)
    requires forall t :: t in ts ==> 0 <= t < th
    ensures Above(WindowRuns.Keys(ts, w), th) == []
  {
    if ts != [] {
      var init, last := ts[..|ts| - 1], ts[|ts| - 1];
      assert WindowRuns.Keys(ts, w)[..|ts| - 1] == WindowRuns.Keys(init, w);
      forall t | t in init ensures 0 <= t < th {
        assert t in ts;
      }
      assert last in ts;
      NothingAbove(init, w, th);
      KeyForSlice(last, w);
    }
  }

  lemma LatestEmptied(ops: seq<Op>, createdAt: int, expiredAt: int, c: Config, now: int)
    requires forall t :: t in Times(ops) ==> t < now - c.Span()
    ensures Trimmed(Run(ops, createdAt, expiredAt, c).latest, now, c.Span()) == []
  {
    LatestFromLog(ops, createdAt, expiredAt, c);
    TrimmedFrom(Run(ops, createdAt, expiredAt, c).latest, now, c.Span());
  }

  lemma NoAgents(m: map<string, seq<Bucket>>)
    requires PerAgentOk(m) && forall k :: AgentsAt(m, k) <= 0
    ensures m == map[]
  {
    if m != map[] {
      var u :| u in m;
      var k := m[u][0].key;
      assert AgentsAt(m, k) <= 0;
      forall v | v in m ensures Get(m[v], k) >= 0 {
        GetNonNegative(m[v], k);
      }
      SumMonotone(map[], CountsAt(m, k) - {u});
      GetAt(m[u], 0);
      SumWithout(CountsAt(m, k), u);
    }
  }

  // With an empty total window there is nothing in its parts either.
  lemma PartsEmpty(s: State, floor: int)
    requires s.all == [] && Agree(s, floor)
    ensures s.app == [] && s.other == [] && s.agents == map[] && SumOf(Sizes(s.agents)) == 0
  {
    forall k ensures Get(s.app, k) == 0 && Get(s.other, k) == 0 && AgentsAt(s.agents, k) <= 0 {
      GetNonNegative(s.app, k);
      GetNonNegative(s.other, k);
    }
    AllZeroEmpty(s.app);
    AllZeroEmpty(s.other);
    NoAgents(s.agents);
    assert Sizes(s.agents) == map[];
  }
}
