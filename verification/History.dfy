/** The table of all addresses with recent requests, and when an address is dropped from it. */
module History {
  import opened Data
  import opened Buckets
  import opened Sums
  import opened Windows
  import opened Requests
  import RequestRuns

  /** What an expiry of one address returns: the entries left, or the length of the latest list if it was skipped. */
  ghost function Remaining(s: State, r: Readings, c: Config): int
  {
    if CanExpire(s, r.check, c) then Size(Expired(s, r, c)) else |s.latest|
  }

  /** Does the periodic expiry, asking at its own clock reading first, drop the address? */
  ghost predicate Dropped(s: State, check: int, r: Readings, c: Config)
  {
    CanExpire(s, check, c) && Remaining(s, r, c) <= 0
  }

  function After(s: State, check: int, r: Readings, c: Config): State
  {
    if CanExpire(s, check, c) then Expired(s, r, c) else s
  }

  /** One address after the expiry, against what it held before. */
  ghost predicate ExpiresTo(before: map<Bytes, State>, after: map<Bytes, State>, ip: Bytes, check: int, r: Readings, c: Config)
  {
    && ip in before
    && (ip in after <==> !Dropped(before[ip], check, r, c))
    && (ip in after ==> after[ip] == After(before[ip], check, r, c))
  }

  ghost function ExpireTable(m: map<Bytes, State>, check: Bytes -> int, r: Bytes -> Readings, c: Config): map<Bytes, State>
  {
    map ip | ip in m && !Dropped(m[ip], check(ip), r(ip), c) :: After(m[ip], check(ip), r(ip), c)
  }

  /** The addresses still to do are as before, the others as after. */
  ghost predicate Halfway(table: map<Bytes, State>, before: map<Bytes, State>, after: map<Bytes, State>, todo: set<Bytes>)
  {
    && todo <= table.Keys * before.Keys
    && (forall ip :: ip in todo ==> table[ip] == before[ip])
    && (forall ip :: ip !in todo ==> (ip in table <==> ip in after))
    && (forall ip :: ip in table && ip !in todo ==> table[ip] == after[ip])
  }

  lemma HalfwayStep(table: map<Bytes, State>, before: map<Bytes, State>, after: map<Bytes, State>, todo: set<Bytes>,
                    ip: Bytes, next: map<Bytes, State>)
    requires Halfway(table, before, after, todo) && ip in todo
    requires next == if ip in after then table[ip := after[ip]] else table - {ip}
    ensures Halfway(next, before, after, todo - {ip})
  {
  }

  class History {
    var data: map<Bytes, State>
    const config: Config
    const isAsset: string -> bool

    constructor (config: Config, isAsset: string -> bool)
      ensures data == map[] && this.config == config && this.isAsset == isAsset
    {
      data := map[];
      this.config, this.isAsset := config, isAsset;
    }

    /** Adds a request to its address, which is created on its first request. */
    method Add(req: Request, createdAt: int, expiredAt: int, r: Readings) returns (newIP: bool)
      modifies this
      ensures newIP == (req.source !in old(data))
      ensures var s := if newIP then RequestRuns.Run([], createdAt, expiredAt, config) else old(data)[req.source];
              data == old(data)[req.source := RequestRuns.Step(s, RequestRuns.Add(req, isAsset(req.url), r), config)]
    {
      newIP := false;
      if req.source !in data {
        data := data[req.source := State([], [], [], map[], [], createdAt, expiredAt)];
        newIP := true;
      }
      data := data[req.source := Counted(Expired(data[req.source], r, config), req, isAsset(req.url), config)];
    }

    /** Expires every address, in any order, and drops those that are left with nothing. */
    method Expire(check: Bytes -> int, r: Bytes -> Readings)
      modifies this
      ensures data == ExpireTable(old(data), check, r, config)
    {
      ghost var before := data;
      ghost var after := ExpireTable(data, check, r, config);
      var todo := data.Keys;
      while todo != {}
        invariant Halfway(data, before, after, todo)
        decreases todo
      {
        var ip :| ip in todo;
        ghost var table := data;
        assert ExpiresTo(before, after, ip, check(ip), r(ip), config);
        if CanExpire(data[ip], check(ip), config) {
          var numExpired := ExpireOne(ip, r(ip));
          if numExpired <= 0 {
            data := data - {ip};
          }
        } else {
          assert data == table[ip := table[ip]];
        }
        HalfwayStep(table, before, after, todo, ip, data);
        todo := todo - {ip};
      }
    }

    method ExpireOne(ip: Bytes, r: Readings) returns (numExpired: int)
      requires ip in data
      modifies this
      ensures data == old(data)[ip := Expired(old(data)[ip], r, config)]
      ensures numExpired == Remaining(old(data)[ip], r, config)
    {
      if CanExpire(data[ip], r.check, config) {
        var s := Expired(data[ip], r, config);
        var agents := AgentsSize(s.agents);
        numExpired := |s.all| + |s.app| + |s.other| + agents + |s.latest|;
        data := data[ip := s];
      } else {
        numExpired := |data[ip].latest|;
      }
    }
  }

  method AgentsSize(m: map<string, seq<Bucket>>) returns (size: int)
    ensures size == SumOf(Sizes(m))
  {
    size := 0;
    var todo := m.Keys;
    ghost var sizes, done: set<string> := Sizes(m), {};
    while todo != {}
      invariant done !! todo && done + todo == m.Keys
      invariant size == SumOver(sizes, done)
      decreases todo
    {
      var k :| k in todo;
      SumOverAdd(sizes, done, k);
      size := size + |m[k]|;
      todo, done := todo - {k}, done + {k};
    }
    SumOverAll(sizes, done);
  }

  // An address is dropped exactly when all five of its structures are empty, and then none of the
  // requests of the last numWindows - 1 slices was its.
  lemma DroppedIsEmpty(ops: seq<RequestRuns.Op>, createdAt: int, expiredAt: int, c: Config, check: int, r: Readings)
    requires RequestRuns.ClockOrdered(ops, expiredAt) && r.InOrder()
    requires RequestRuns.LastReading(ops, expiredAt) <= check <= r.check
    ensures var s := RequestRuns.Run(ops, createdAt, expiredAt, c);
            var e := Expired(s, r, c);
            Dropped(s, check, r, c) <==>
              CanExpire(s, check, c) && e.all == [] && e.app == [] && e.other == [] && e.latest == [] && e.agents == map[]
    ensures Dropped(RequestRuns.Run(ops, createdAt, expiredAt, c), check, r, c) ==>
              forall t :: t in RequestRuns.Times(ops) ==> t < r.all - c.windowSize * (c.numWindows - 1)
  {
    var s := RequestRuns.Run(ops, createdAt, expiredAt, c);
    assert Sizes(map[]) == map[];
    if Dropped(s, check, r, c) {
      RequestRuns.EmptyLosesNothing(ops, createdAt, expiredAt, c, r);
    }
  }

  // An address all of whose requests are older than the whole span goes with the next expiry.
  lemma OldIsDropped(ops: seq<RequestRuns.Op>, createdAt: int, expiredAt: int, c: Config, check: int, r: Readings)
    requires RequestRuns.ClockOrdered(ops, expiredAt) && r.InOrder()
    requires RequestRuns.LastReading(ops, expiredAt) <= check <= r.check
    requires CanExpire(RequestRuns.Run(ops, createdAt, expiredAt, c), check, c)
    requires forall t :: t in RequestRuns.Times(ops) ==> 0 <= t < r.all - c.Span()
    ensures Dropped(RequestRuns.Run(ops, createdAt, expiredAt, c), check, r, c)
  {
    RequestRuns.OldIsEmptied(ops, createdAt, expiredAt, c, r);
  }
}
