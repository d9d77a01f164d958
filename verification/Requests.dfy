/**
 The requests of one address: three windows, the windows per user agent and the list of the latest
 requests, which an expiry thins out one after the other, each at its own reading of the clock.
 */
module Requests {
  import opened Data
  import opened Buckets
  import opened Sums
  import opened Windows

  datatype Config = Config(windowSize: Width, numWindows: int, keepRequests: int)
  {
    function Span(): int { windowSize * numWindows }
  }

  /** The clock readings of one expiry, in the order in which the code takes them. */
  datatype Readings = Readings(check: int, all: int, app: int, other: int, agent: string -> int, latest: int, done: int)
  {
    ghost predicate InOrder()
    {
      check <= all <= app <= other <= latest <= done && forall u :: other <= agent(u) <= latest
    }
  }

  datatype State = State(all: seq<Bucket>, app: seq<Bucket>, other: seq<Bucket>, agents: map<string, seq<Bucket>>,
                         latest: seq<Request>, createdAt: int, expiredAt: int)

  predicate CanExpire(s: State, now: int, c: Config)
  {
    now - s.createdAt > c.windowSize && now - s.expiredAt > c.windowSize
  }

  function Expired(s: State, r: Readings, c: Config): State
  {
    if !CanExpire(s, r.check, c) then s else
    State(DropBelow(s.all, r.all - c.Span()), DropBelow(s.app, r.app - c.Span()), DropBelow(s.other, r.other - c.Span()),
          ExpirePerAgent(s.agents, r.agent, c.Span()), Trimmed(s.latest, r.latest, c.Span()), s.createdAt, r.done)
  }

  function Counted(s: State, req: Request, asset: bool, c: Config): State
  {
    var k := KeyFor(req.time, c.windowSize);
    State(Increment(s.all, k), if asset then s.app else Increment(s.app, k), if asset then Increment(s.other, k) else s.other,
          AddPerAgent(s.agents, req.userAgent, k), Pushed(s.latest, req.(isApp := !asset), c.keepRequests),
          s.createdAt, s.expiredAt)
  }

  function StatsOf(s: State): Stats
  {
    Stats(Sum(s.all), Sum(s.app), Sum(s.other), RatioOf(Sum(s.app), Sum(s.all)))
  }

  /** How many entries all five structures have together. */
  ghost function Size(s: State): int
  {
    |s.all| + |s.app| + |s.other| + SumOf(Sizes(s.agents)) + |s.latest|
  }

  class Requests {
    const appWindow: Window
    const otherWindow: Window
    const allWindow: Window
    const userAgents: MapWindow
    const latest: RequestsWindow
    const config: Config
    const isAsset: string -> bool
    const createdAt: int
    var expiredAt: int
    ghost const Repr: set<object>  // the objects this one is made of

    ghost predicate Valid()
    {
      && Repr == {this, allWindow, appWindow, otherWindow, userAgents, latest}
      && appWindow != otherWindow && appWindow != allWindow && otherWindow != allWindow
      && (forall w :: w in {appWindow, otherWindow, allWindow} ==>
            w.windowSize == config.windowSize && w.numWindows == config.numWindows)
      && userAgents.windowSize == config.windowSize && userAgents.numWindows == config.numWindows
      && latest.maxSize == config.keepRequests && latest.ttl == config.Span()
    }

    ghost function Value(): State
      requires Valid()
      reads Repr
    {
      State(allWindow.data, appWindow.data, otherWindow.data, userAgents.data, latest.data, createdAt, expiredAt)
    }

    constructor (config: Config, isAsset: string -> bool, createdAt: int, expiredAt: int)
      ensures Valid() && fresh(Repr)
      ensures Value() == State([], [], [], map[], [], createdAt, expiredAt)
      ensures this.config == config && this.isAsset == isAsset
    {
      this.config, this.isAsset := config, isAsset;
      this.createdAt, this.expiredAt := createdAt, expiredAt;
      var all := new Window(config.windowSize, config.numWindows);
      var app := new Window(config.windowSize, config.numWindows);
      var other := new Window(config.windowSize, config.numWindows);
      var agents := new MapWindow(config.windowSize, config.numWindows);
      var list := new RequestsWindow(config.keepRequests, config.windowSize, config.numWindows);
      allWindow, appWindow, otherWindow, userAgents, latest := all, app, other, agents, list;
      Repr := {this, all, app, other, agents, list};
    }

    method CanBeExpired(now: int) returns (can: bool)
      requires Valid()
      ensures can == CanExpire(Value(), now, config)
      ensures can <==> now - createdAt > config.windowSize && now - expiredAt > config.windowSize
    {
      var timeSinceCreation := now - createdAt;
      var timeSinceLastExpire := now - expiredAt;
      can := timeSinceCreation > config.windowSize && timeSinceLastExpire > config.windowSize;
    }

    method Expire(r: Readings) returns (size: int)
      requires Valid()
      modifies Repr
      ensures Value() == Expired(old(Value()), r, config)
      ensures size == if CanExpire(old(Value()), r.check, config) then Size(Value()) else |latest.data|
      ensures if r.check - createdAt > config.windowSize && r.check - old(expiredAt) > config.windowSize
              then expiredAt == r.done && size == |allWindow.data| + |appWindow.data| + |otherWindow.data|
                                                  + SumOf(Sizes(userAgents.data)) + |latest.data|
              else Value() == old(Value()) && size == |latest.data|
    {
      var can := CanBeExpired(r.check);
      if !can {
        return |latest.data|;
      }
      var allSize := allWindow.Expire(r.all);
      var appSize := appWindow.Expire(r.app);
      var otherSize := otherWindow.Expire(r.other);
      var uaSize := userAgents.Expire(r.agent);
      var latestSize := latest.Expire(r.latest);
      size := allSize + appSize + otherSize + uaSize + latestSize;
      expiredAt := r.done;
    }

    /** Adds a request and returns the statistics that are sent to the history. */
    method Add(req: Request, r: Readings) returns (stats: Stats)
      requires Valid()
      modifies Repr
      ensures Value() == Counted(Expired(old(Value()), r, config), req, isAsset(req.url), config)
      ensures stats == StatsOf(Value())
      ensures stats.total == Sum(allWindow.data) && stats.app == Sum(appWindow.data) && stats.other == Sum(otherWindow.data)
    {
      var _ := Expire(r);
      Count(req);
      var total := allWindow.Count();
      var app := appWindow.Count();
      var other := otherWindow.Count();
      var ratio := 0.0;
      if total > 0 {
        ratio := app as real / total as real;
      }
      stats := Stats(total, app, other, ratio);
    }

    method Count(req: Request)
      requires Valid()
      modifies Repr
      ensures Value() == Counted(old(Value()), req, isAsset(req.url), config)
    {
      allWindow.Add(req.time);
      var seen: Request;
      if isAsset(req.url) {
        seen := req.(isApp := false);
        otherWindow.Add(req.time);
      } else {
        seen := req.(isApp := true);
        appWindow.Add(req.time);
      }
      latest.Add(seen);
      userAgents.Add(seen);
    }
  }
}
