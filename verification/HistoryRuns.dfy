/** The table of addresses over whole runs: what is recent is never lost. */
module HistoryRuns {
  import opened Data
  import opened Buckets
  import opened Requests
  import opened History
  import RequestRuns
  import WindowRuns

  datatype Op =
    | Create(ip: Bytes, createdAt: int, expiredAt: int)   // the first part of Add
    | Add(req: Request, asset: bool, createdAt: int, expiredAt: int, r: Readings)
    | Expire(check: Bytes -> int, readings: Bytes -> Readings, done: int)

  /** The table after a run, computed as History's methods do. */
  ghost function Table(ops: seq<Op>, c: Config): map<Bytes, State>
  {
    if ops == [] then map[] else
      TableStep(Table(ops[..|ops| - 1], c), ops[|ops| - 1], c)
  }

  ghost function TableStep(t: map<Bytes, State>, op: Op, c: Config): map<Bytes, State>
  {
    match op
    case Create(ip, createdAt, expiredAt) =>
      if ip in t then t else t[ip := State([], [], [], map[], [], createdAt, expiredAt)]
    case Add(req, asset, createdAt, expiredAt, r) =>
      var s := if req.source in t then t[req.source] else State([], [], [], map[], [], createdAt, expiredAt);
      t[req.source := Counted(Expired(s, r, c), req, asset, c)]
    case Expire(check, readings, _) => ExpireTable(t, check, readings, c)
  }

  function LastReading(ops: seq<Op>): int
  {
    if ops == [] then 0 else
      match ops[|ops| - 1]
      case Create(_, _, expiredAt) => expiredAt
      case Add(_, _, _, _, r) => r.done
      case Expire(_, _, done) => done
  }

  ghost predicate InOrder(op: Op, last: int)
  {
    match op
    case Create(_, createdAt, expiredAt) => last <= createdAt <= expiredAt
    case Add(_, _, createdAt, expiredAt, r) => last <= createdAt <= expiredAt <= r.check && r.InOrder()
    case Expire(check, readings, done) =>
      last <= done && forall ip :: last <= check(ip) <= readings(ip).check && readings(ip).InOrder() && readings(ip).done <= done
  }

  ghost predicate ClockOrdered(ops: seq<Op>)
  {
    ops != [] ==> ClockOrdered(ops[..|ops| - 1]) && InOrder(ops[|ops| - 1], LastReading(ops[..|ops| - 1]))
  }

  /** All requests ever added. */
  function Log(ops: seq<Op>): seq<Request>
  {
    if ops == [] then [] else
      var log := Log(ops[..|ops| - 1]);
      match ops[|ops| - 1]
      case Add(req, _, _, _, _) => log + [req]
      case _ => log
  }

  /** The life of one table entry: when it was created and what happened to it since. */
  datatype Life = Life(createdAt: int, expiredAt: int, ops: seq<RequestRuns.Op>)
  {
    function Value(c: Config): State { RequestRuns.Run(ops, createdAt, expiredAt, c) }

    ghost predicate Ok(last: int)
    {
      RequestRuns.ClockOrdered(ops, expiredAt) && RequestRuns.LastReading(ops, expiredAt) <= last
    }

    function Then(op: RequestRuns.Op): Life { Life(createdAt, expiredAt, ops + [op]) }
  }

  ghost function Lives(ops: seq<Op>, c: Config): map<Bytes, Life>
  {
    if ops == [] then map[] else
      LivesStep(Lives(ops[..|ops| - 1], c), ops[|ops| - 1], c)
  }

  ghost function LivesStep(lives: map<Bytes, Life>, op: Op, c: Config): map<Bytes, Life>
  {
    match op
    case Create(ip, createdAt, expiredAt) =>
      if ip in lives then lives else lives[ip := Life(createdAt, expiredAt, [])]
    case Add(req, asset, createdAt, expiredAt, r) =>
      var life := if req.source in lives then lives[req.source] else Life(createdAt, expiredAt, []);
      lives[req.source := life.Then(RequestRuns.Add(req, asset, r))]
    case Expire(check, readings, _) =>
      map ip | ip in lives && !Dropped(lives[ip].Value(c), check(ip), readings(ip), c) ::
        ExpiredLife(lives[ip], check(ip), readings(ip), c)
  }

  ghost function ExpiredLife(life: Life, check: int, r: Readings, c: Config): Life
  {
    if CanExpire(life.Value(c), check, c) then life.Then(RequestRuns.Expire(r)) else life
  }

  lemma ThenValue(life: Life, op: RequestRuns.Op, last: int, c: Config)
    requires life.Ok(last)
    ensures life.Then(op).Value(c) == RequestRuns.Step(life.Value(c), op, c)
    ensures op.r.InOrder() && last <= op.r.check ==> life.Then(op).Ok(op.r.done)
    ensures RequestRuns.Times(life.Then(op).ops)
         == RequestRuns.Times(life.ops) + if op.Add? then [op.req.time] else []
  {
    assert (life.ops + [op])[..|life.ops|] == life.ops;
  }

  /** Every entry of the table is what its own run since its creation makes it. */
  ghost predicate Matches(t: map<Bytes, State>, lives: map<Bytes, Life>, last: int, c: Config)
  {
    t.Keys == lives.Keys && forall ip :: ip in lives ==> lives[ip].Ok(last) && t[ip] == lives[ip].Value(c)
  }

  lemma MatchesLater(t: map<Bytes, State>, lives: map<Bytes, Life>, last: int, later: int, c: Config)
    requires Matches(t, lives, last, c) && last <= later
    ensures Matches(t, lives, later, c)
  {
  }

  lemma MatchesOne(t: map<Bytes, State>, lives: map<Bytes, Life>, last: int, c: Config, ip: Bytes, s: State, life: Life)
    requires Matches(t, lives, last, c) && life.Ok(last) && s == life.Value(c)
    ensures Matches(t[ip := s], lives[ip := life], last, c)
  {
  }

  lemma CreateMatches(t: map<Bytes, State>, lives: map<Bytes, Life>, last: int, c: Config, op: Op)
    requires Matches(t, lives, last, c) && op.Create? && InOrder(op, last)
    ensures Matches(TableStep(t, op, c), LivesStep(lives, op, c), op.expiredAt, c)
  {
    MatchesLater(t, lives, last, op.expiredAt, c);
    if op.ip !in t {
      var life := Life(op.createdAt, op.expiredAt, []);
      MatchesOne(t, lives, op.expiredAt, c, op.ip, life.Value(c), life);
    }
  }

  lemma AddMatches(t: map<Bytes, State>, lives: map<Bytes, Life>, last: int, c: Config, op: Op)
    requires Matches(t, lives, last, c) && op.Add? && InOrder(op, last)
    ensures Matches(TableStep(t, op, c), LivesStep(lives, op, c), op.r.done, c)
  {
    var life := if op.req.source in lives then lives[op.req.source] else Life(op.createdAt, op.expiredAt, []);
    var add := RequestRuns.Add(op.req, op.asset, op.r);
    ThenValue(life, add, if op.req.source in lives then last else op.expiredAt, c);
    MatchesLater(t, lives, last, op.r.done, c);
    MatchesOne(t, lives, op.r.done, c, op.req.source, RequestRuns.Step(life.Value(c), add, c), life.Then(add));
  }

  lemma ExpireMatches(t: map<Bytes, State>, lives: map<Bytes, Life>, last: int, c: Config, op: Op)
    requires Matches(t, lives, last, c) && op.Expire? && InOrder(op, last)
    ensures Matches(TableStep(t, op, c), LivesStep(lives, op, c), op.done, c)
  {
    forall ip | ip in lives
      ensures ExpiredLife(lives[ip], op.check(ip), op.readings(ip), c).Ok(op.done)
      ensures ExpiredLife(lives[ip], op.check(ip), op.readings(ip), c).Value(c) == After(t[ip], op.check(ip), op.readings(ip), c)
    {
      assert last <= op.check(ip) <= op.readings(ip).check && op.readings(ip).done <= op.done;
      ThenValue(lives[ip], RequestRuns.Expire(op.readings(ip)), last, c);
    }
  }

  lemma {:induction false} EntriesAreRuns(ops: seq<Op>, c: Config)
    requires ClockOrdered(ops)
    ensures Matches(Table(ops, c), Lives(ops, c), LastReading(ops), c)
  {
    if ops != [] {
      var init, op := ops[..|ops| - 1], ops[|ops| - 1];
      EntriesAreRuns(init, c);
      match op
      case Create(_, _, _) => CreateMatches(Table(init, c), Lives(init, c), LastReading(init), c, op);
      case Add(_, _, _, _, _) => AddMatches(Table(init, c), Lives(init, c), LastReading(init), c, op);
      case Expire(_, _, _) => ExpireMatches(Table(init, c), Lives(init, c), LastReading(init), c, op);
    }
  }

  /** The times of all requests of one address. */
  function TimesOf(log: seq<Request>, ip: Bytes): seq<int>
  {
    if log == [] then [] else
      var ts, q := TimesOf(log[..|log| - 1], ip), log[|log| - 1];
      if q.source == ip then ts + [q.time] else ts
  }

  /** The times of the requests in the life of an address' entry, none if there is no entry. */
  ghost function LifeTimes(lives: map<Bytes, Life>, ip: Bytes): seq<int>
  {
    if ip in lives then RequestRuns.Times(lives[ip].ops) else []
  }

  /** Since the given time the lives have exactly the requests that were added, for every address. */
  ghost predicate Remembered(log: seq<Request>, lives: map<Bytes, Life>, since: int)
  {
    forall ip :: Above(LifeTimes(lives, ip), since) == Above(TimesOf(log, ip), since)
  }

  /** The span of numWindows - 1 slices. */
  ghost predicate ButOneSlice(c: Config, span: int)
  {
    span == c.windowSize * (c.numWindows - 1)
  }

  lemma {:induction false} NoneAbove(ts: seq<int>, since: int)
    requires forall i :: 0 <= i < |ts| ==> ts[i] < since
    ensures Above(ts, since) == []
  {
    if ts != [] {
      NoneAbove(ts[..|ts| - 1], since);
    }
  }

  // What an expiry of the table does to the life of one entry: it goes on, or had no recent request.
  lemma ExpiredTimes(life: Life, last: int, check: int, r: Readings, c: Config, span: int, since: int)
    requires life.Ok(last) && last <= check <= r.check && r.InOrder()
    requires ButOneSlice(c, span) && r.done - span <= since
    ensures if Dropped(life.Value(c), check, r, c) then Above(RequestRuns.Times(life.ops), since) == []
            else RequestRuns.Times(ExpiredLife(life, check, r, c).ops) == RequestRuns.Times(life.ops)
  {
    DroppedIsEmpty(life.ops, life.createdAt, life.expiredAt, c, check, r);
    if Dropped(life.Value(c), check, r, c) {
      var ts := RequestRuns.Times(life.ops);
      forall i | 0 <= i < |ts| ensures ts[i] < since {
        assert ts[i] in ts;
      }
      NoneAbove(ts, since);
    }
    ThenValue(life, RequestRuns.Expire(r), last, c);
  }

  lemma TimesAppend(log: seq<Request>, q: Request, ip: Bytes)
    ensures TimesOf(log + [q], ip) == if q.source == ip then TimesOf(log, ip) + [q.time] else TimesOf(log, ip)
  {
    assert (log + [q])[..|log|] == log;
  }

  lemma AddedTimes(lives: map<Bytes, Life>, last: int, c: Config, op: Op, ip: Bytes)
    requires op.Add? && InOrder(op, last) && forall ip :: ip in lives ==> lives[ip].Ok(last)
    ensures LifeTimes(LivesStep(lives, op, c), ip)
         == if op.req.source == ip then LifeTimes(lives, ip) + [op.req.time] else LifeTimes(lives, ip)
  {
    var q := op.req;
    var life := if q.source in lives then lives[q.source] else Life(op.createdAt, op.expiredAt, []);
    ThenValue(life, RequestRuns.Add(q, op.asset, op.r), if q.source in lives then last else op.expiredAt, c);
  }

  lemma CreateRemembers(log: seq<Request>, lives: map<Bytes, Life>, c: Config, op: Op, since: int)
    requires Remembered(log, lives, since) && op.Create?
    ensures Remembered(log, LivesStep(lives, op, c), since)
  {
    forall ip ensures LifeTimes(LivesStep(lives, op, c), ip) == LifeTimes(lives, ip) {
    }
    assert forall ip :: Above(LifeTimes(lives, ip), since) == Above(TimesOf(log, ip), since);
  }

  lemma AddRemembers(log: seq<Request>, lives: map<Bytes, Life>, last: int, c: Config, op: Op, since: int)
    requires Remembered(log, lives, since) && op.Add? && InOrder(op, last)
    requires forall ip :: ip in lives ==> lives[ip].Ok(last)
    ensures Remembered(log + [op.req], LivesStep(lives, op, c), since)
  {
    forall ip ensures Above(LifeTimes(LivesStep(lives, op, c), ip), since) == Above(TimesOf(log + [op.req], ip), since) {
      assert Above(LifeTimes(lives, ip), since) == Above(TimesOf(log, ip), since);
      TimesAppend(log, op.req, ip);
      AddedTimes(lives, last, c, op, ip);
      AboveAppend(LifeTimes(lives, ip), op.req.time, since);
      AboveAppend(TimesOf(log, ip), op.req.time, since);
    }
  }

  lemma ExpireRemembers(log: seq<Request>, lives: map<Bytes, Life>, last: int, c: Config, op: Op, span: int, since: int)
    requires Remembered(log, lives, since) && op.Expire? && InOrder(op, last)
    requires forall ip :: ip in lives ==> lives[ip].Ok(last)
    requires ButOneSlice(c, span) && op.done - span <= since
    ensures Remembered(log, LivesStep(lives, op, c), since)
  {
    var lives' := LivesStep(lives, op, c);
    forall ip ensures Above(LifeTimes(lives', ip), since) == Above(TimesOf(log, ip), since) {
      assert Above(LifeTimes(lives, ip), since) == Above(TimesOf(log, ip), since);
      if ip in lives {
        assert last <= op.check(ip) <= op.readings(ip).check && op.readings(ip).InOrder() && op.readings(ip).done <= op.done;
        ExpiredTimes(lives[ip], last, op.check(ip), op.readings(ip), c, span, since);
      }
    }
  }

  lemma {:induction false} RecentRemembered(ops: seq<Op>, c: Config, span: int, since: int)
    requires ClockOrdered(ops) && ButOneSlice(c, span) && LastReading(ops) - span <= since
    ensures Remembered(Log(ops), Lives(ops, c), since)
  {
    if ops != [] {
      var init, op := ops[..|ops| - 1], ops[|ops| - 1];
      RecentRemembered(init, c, span, since);
      EntriesAreRuns(init, c);
      match op
      case Create(_, _, _) => CreateRemembers(Log(init), Lives(init, c), c, op, since);
      case Add(_, _, _, _, _) => AddRemembers(Log(init), Lives(init, c), LastReading(init), c, op, since);
      case Expire(_, _, _) => ExpireRemembers(Log(init), Lives(init, c), LastReading(init), c, op, span, since);
    }
  }

  // An entry's thresholds are not above that of the last clock reading of the whole table.
  lemma EntryFloor(ops: seq<Op>, c: Config, ip: Bytes, floor: int)
    requires ClockOrdered(ops) && ip in Lives(ops, c) && floor == LastReading(ops) - c.Span()
    ensures var life := Lives(ops, c)[ip];
            && ip in Table(ops, c) && Table(ops, c)[ip] == life.Value(c)
            && RequestRuns.ThresholdsAtMost(life.ops, life.createdAt, life.expiredAt, c, floor)
  {
    EntriesAreRuns(ops, c);
    var life := Lives(ops, c)[ip];
    assert life.Ok(LastReading(ops));
    RequestRuns.FloorUntil(life.ops, life.createdAt, life.expiredAt, c, LastReading(ops), floor);
  }

  /** How many of the times fall into slice k. */
  function InSlice(ts: seq<int>, w: Width, k: int): nat
  {
    multiset(WindowRuns.Keys(ts, w))[k]
  }

  lemma InSliceAppend(ts: seq<int>, t: int, w: Width, k: int)
    ensures InSlice(ts + [t], w, k) == InSlice(ts, w, k) + if KeyFor(t, w) == k then 1 else 0
  {
    WindowRuns.KeysAppend(ts, t, w);
  }

  // If all times of slice k are recent, older times do not matter to it.
  lemma {:induction false} RecentSlice(ts: seq<int>, w: Width, k: int, since: int)
    requires forall t :: KeyFor(t, w) == k ==> t >= since
    ensures InSlice(Above(ts, since), w, k) == InSlice(ts, w, k)
  {
    if ts != [] {
      var init, last := ts[..|ts| - 1], ts[|ts| - 1];
      assert ts == init + [last];
      RecentSlice(init, w, k, since);
      AboveAppend(init, last, since);
      WindowRuns.KeysAppend(init, last, w);
      WindowRuns.KeysAppend(Above(init, since), last, w);
    }
  }

  /** What the table counts for an address in slice k. */
  ghost function CountAt(t: map<Bytes, State>, ip: Bytes, k: int): int
  {
    if ip in t then Get(t[ip].all, k) else 0
  }

  // In every run of the table, no request of the last numWindows - 1 slices is lost: for every address,
  // each of these slices counts exactly the requests ever added in it. (A slice that starts at 0 or
  // earlier also has times before its start, since the program rounds towards 0.)
  lemma NothingRecentLost(ops: seq<Op>, c: Config, ip: Bytes, k: int)
    requires ClockOrdered(ops)
    requires LastReading(ops) - c.windowSize * (c.numWindows - 1) <= if k > 0 then k else k - c.windowSize
    ensures CountAt(Table(ops, c), ip, k) == InSlice(TimesOf(Log(ops), ip), c.windowSize, k)
  {
    var w, since, floor := c.windowSize, if k > 0 then k else k - c.windowSize, LastReading(ops) - c.Span();
    RecentRemembered(ops, c, c.windowSize * (c.numWindows - 1), since);
    forall t | KeyFor(t, w) == k ensures t >= since {
      KeyForSlice(t, w);
    }
    RecentSlice(TimesOf(Log(ops), ip), w, k, since);
    RecentSlice(LifeTimes(Lives(ops, c), ip), w, k, since);
    RequestRuns.SpanPlus(c);
    EntriesAreRuns(ops, c);
    if ip in Lives(ops, c) {
      var life := Lives(ops, c)[ip];
      EntryFloor(ops, c, ip, floor);
      RequestRuns.WindowTracks(life.ops, life.createdAt, life.expiredAt, c, RequestRuns.All, floor);
      RequestRuns.AllTimes(life.ops);
      CountedFromFloor(life.Value(c).all, RequestRuns.Times(life.ops), w, floor, k);
    }
  }

  lemma CountedFromFloor(b: seq<Bucket>, ts: seq<int>, w: Width, floor: int, k: int)
    requires Tracks(b, WindowRuns.Keys(ts, w), floor) && floor <= k
    ensures Get(b, k) == InSlice(ts, w, k)
  {
    var keys := WindowRuns.Keys(ts, w);
    DropBelowKeeps(b, floor);
    BucketsOfCounts(Above(keys, floor));
    AboveCounts(keys, floor);
    assert Get(b, k) == Get(DropBelow(b, floor), k);
  }
}
