/**
 The table when the two parts of History.Add, the look-up and the count, interleave with expiries: a
 request that was looked up before its address is dropped is counted in an object that is in the table
 no more.
 */
module HistorySteps {
  import opened Data
  import opened Buckets
  import opened Windows
  import opened Requests
  import opened History
  import HistoryRuns

  datatype Step =
    | Look(ip: Bytes, createdAt: int, expiredAt: int)            // creates the object if there is none
    | Count(id: nat, req: Request, asset: bool, r: Readings)     // in the object that was found
    | Expire(check: Bytes -> int, readings: Bytes -> Readings, done: int)

  /** The table, with the identity of the object of each address. */
  datatype Objects = Objects(table: map<Bytes, State>, ids: map<Bytes, nat>, next: nat)

  /** Is the object still the one in the table? */
  predicate Found(o: Objects, id: nat, ip: Bytes)
  {
    ip in o.ids && o.ids[ip] == id
  }

  ghost function StepOn(o: Objects, step: Step, c: Config): Objects
  {
    match step
    case Look(ip, createdAt, expiredAt) =>
      if ip in o.table then o
      else Objects(o.table[ip := State([], [], [], map[], [], createdAt, expiredAt)], o.ids[ip := o.next], o.next + 1)
    case Count(id, req, asset, r) =>
      if Found(o, id, req.source) && req.source in o.table
      then o.(table := o.table[req.source := Counted(Expired(o.table[req.source], r, c), req, asset, c)])
      else o
    case Expire(check, readings, _) =>
      var t := ExpireTable(o.table, check, readings, c);
      Objects(t, map ip | ip in o.ids && ip in t :: o.ids[ip], o.next)
  }

  ghost function Run(steps: seq<Step>, c: Config): Objects
  {
    if steps == [] then Objects(map[], map[], 0) else StepOn(Run(steps[..|steps| - 1], c), steps[|steps| - 1], c)
  }

  /** The operation on the table that a step comes to, if any. */
  ghost function OpOf(o: Objects, step: Step): Option<HistoryRuns.Op>
  {
    match step
    case Look(ip, createdAt, expiredAt) => Some(HistoryRuns.Create(ip, createdAt, expiredAt))
    case Count(id, req, asset, r) =>
      if Found(o, id, req.source) then Some(HistoryRuns.Add(req, asset, r.check, r.check, r)) else None
    case Expire(check, readings, done) => Some(HistoryRuns.Expire(check, readings, done))
  }

  /** What the steps come to for the table: a count in an object that is gone does nothing to it. */
  ghost function Effective(steps: seq<Step>, c: Config): seq<HistoryRuns.Op>
  {
    if steps == [] then [] else
      var init := steps[..|steps| - 1];
      var op := OpOf(Run(init, c), steps[|steps| - 1]);
      if op.Some? then Effective(init, c) + [op.value] else Effective(init, c)
  }

  /** All requests, and those of them that were counted in an object that was gone. */
  function Received(steps: seq<Step>): seq<Request>
  {
    if steps == [] then [] else
      var log := Received(steps[..|steps| - 1]);
      if steps[|steps| - 1].Count? then log + [steps[|steps| - 1].req] else log
  }

  ghost function Lost(steps: seq<Step>, c: Config): seq<Request>
  {
    if steps == [] then [] else
      var init, step := steps[..|steps| - 1], steps[|steps| - 1];
      if step.Count? && !Found(Run(init, c), step.id, step.req.source) then Lost(init, c) + [step.req] else Lost(init, c)
  }

  lemma TableAppend(ops: seq<HistoryRuns.Op>, op: HistoryRuns.Op, c: Config)
    ensures HistoryRuns.Table(ops + [op], c) == HistoryRuns.TableStep(HistoryRuns.Table(ops, c), op, c)
    ensures HistoryRuns.Log(ops + [op]) == if op.Add? then HistoryRuns.Log(ops) + [op.req] else HistoryRuns.Log(ops)
  {
    assert (ops + [op])[..|ops|] == ops;
  }

  lemma StepIsOp(o: Objects, step: Step, c: Config)
    requires o.ids.Keys == o.table.Keys
    ensures var o' := StepOn(o, step, c);
            && o'.ids.Keys == o'.table.Keys
            && o'.table == if OpOf(o, step).Some? then HistoryRuns.TableStep(o.table, OpOf(o, step).value, c) else o.table
  {
  }

  lemma {:induction false} RunIsTable(steps: seq<Step>, c: Config)
    ensures Run(steps, c).table == HistoryRuns.Table(Effective(steps, c), c)
    ensures Run(steps, c).ids.Keys == Run(steps, c).table.Keys
  {
    if steps != [] {
      var init, step := steps[..|steps| - 1], steps[|steps| - 1];
      RunIsTable(init, c);
      StepIsOp(Run(init, c), step, c);
      if OpOf(Run(init, c), step).Some? {
        TableAppend(Effective(init, c), OpOf(Run(init, c), step).value, c);
      }
    }
  }

  lemma SliceAppend(log: seq<Request>, q: Request, ip: Bytes, w: Width, k: int)
    ensures Logged(log + [q], ip, w, k) == Logged(log, ip, w, k) + if q.source == ip && KeyFor(q.time, w) == k then 1 else 0
  {
    HistoryRuns.TimesAppend(log, q, ip);
    HistoryRuns.InSliceAppend(HistoryRuns.TimesOf(log, ip), q.time, w, k);
  }

  /** How many of the requests are of the address and in slice k. */
  function Logged(log: seq<Request>, ip: Bytes, w: Width, k: int): nat
  {
    HistoryRuns.InSlice(HistoryRuns.TimesOf(log, ip), w, k)
  }

  lemma {:induction false} ReceivedSplits(steps: seq<Step>, c: Config, ip: Bytes, k: int)
    ensures Logged(Received(steps), ip, c.windowSize, k)
         == Logged(HistoryRuns.Log(Effective(steps, c)), ip, c.windowSize, k) + Logged(Lost(steps, c), ip, c.windowSize, k)
  {
    if steps != [] {
      var init, step := steps[..|steps| - 1], steps[|steps| - 1];
      var ops := Effective(init, c);
      ReceivedSplits(init, c, ip, k);
      var op := OpOf(Run(init, c), step);
      if op.Some? {
        TableAppend(ops, op.value, c);
      }
      if step.Count? {
        SliceAppend(Received(init), step.req, ip, c.windowSize, k);
        SliceAppend(HistoryRuns.Log(ops), step.req, ip, c.windowSize, k);
        SliceAppend(Lost(init, c), step.req, ip, c.windowSize, k);
      }
    }
  }

  // In every interleaving the table counts, in each of the last numWindows - 1 slices, all requests of an
  // address but exactly those whose object was dropped between the look-up and the count.
  lemma OnlyLateCountsLost(steps: seq<Step>, c: Config, ip: Bytes, k: int)
    requires HistoryRuns.ClockOrdered(Effective(steps, c))
    requires HistoryRuns.LastReading(Effective(steps, c)) - c.windowSize * (c.numWindows - 1)
          <= if k > 0 then k else k - c.windowSize
    ensures HistoryRuns.CountAt(Run(steps, c).table, ip, k)
         == Logged(Received(steps), ip, c.windowSize, k) - Logged(Lost(steps, c), ip, c.windowSize, k)
  {
    RunIsTable(steps, c);
    ReceivedSplits(steps, c, ip, k);
    HistoryRuns.NothingRecentLost(Effective(steps, c), c, ip, k);
  }

  // Without an expiry in between, the look-up and the count are History.Add.
  lemma LookThenCount(o: Objects, req: Request, asset: bool, createdAt: int, expiredAt: int, r: Readings, c: Config)
    requires o.ids.Keys == o.table.Keys
    ensures var o1 := StepOn(o, Look(req.source, createdAt, expiredAt), c);
            && req.source in o1.ids
            && StepOn(o1, Count(o1.ids[req.source], req, asset, r), c).table
               == HistoryRuns.TableStep(o.table, HistoryRuns.Add(req, asset, createdAt, expiredAt, r), c)
  {
  }

  lemma RunAppend(steps: seq<Step>, step: Step, c: Config)
    ensures var o := Run(steps, c);
            && Run(steps + [step], c) == StepOn(o, step, c)
            && Effective(steps + [step], c) == Effective(steps, c) + (if OpOf(o, step).Some? then [OpOf(o, step).value] else [])
            && Lost(steps + [step], c)
               == Lost(steps, c) + if step.Count? && !Found(o, step.id, step.req.source) then [step.req] else []
  {
    assert (steps + [step])[..|steps|] == steps;
  }

  lemma ClockAppend(ops: seq<HistoryRuns.Op>, op: HistoryRuns.Op)
    requires HistoryRuns.ClockOrdered(ops) && HistoryRuns.InOrder(op, HistoryRuns.LastReading(ops))
    ensures HistoryRuns.ClockOrdered(ops + [op])
  {
    assert (ops + [op])[..|ops|] == ops;
  }

  // With one in between, a request can be lost: here its address, which has no requests yet, is dropped.
  lemma RequestMayBeLost(req: Request, asset: bool, check: Bytes -> int, readings: Bytes -> Readings)
    requires forall ip :: check(ip) == 2 && readings(ip).InOrder() && readings(ip).check == readings(ip).done == 2
    ensures var c := Config(1, 1, 1);
            var steps := [Look(req.source, 0, 0), Expire(check, readings, 2), Count(0, req, asset, readings(req.source))];
            && HistoryRuns.ClockOrdered(Effective(steps, c))
            && Run(steps, c).table == map[] && Lost(steps, c) == [req]
  {
    var c, ip := Config(1, 1, 1), req.source;
    var look, expire, count := Look(ip, 0, 0), Expire(check, readings, 2), Count(0, req, asset, readings(ip));
    RunAppend([], look, c);
    RunAppend([look], expire, c);
    RunAppend([look, expire], count, c);
    assert [] + [look] == [look] && [look] + [expire] == [look, expire] && [look, expire] + [count] == [look, expire, count];
    EmptyIsDropped(2, readings(ip), c);
    assert Run([look, expire], c).table == map[] && Run([look, expire], c).ids == map[];
    var create, drop := HistoryRuns.Create(ip, 0, 0), HistoryRuns.Expire(check, readings, 2);
    ClockAppend([], create);
    ClockAppend([create], drop);
    assert [] + [create] == [create] && Effective([look, expire, count], c) == [create] + [drop];
  }

  lemma EmptyIsDropped(check: int, r: Readings, c: Config)
    requires c.windowSize < check && c.windowSize < r.check
    ensures Dropped(State([], [], [], map[], [], 0, 0), check, r, c)
  {
    assert ExpirePerAgent(map[], r.agent, c.Span()) == map[];
    assert Sizes(map[]) == map[];
  }
}
