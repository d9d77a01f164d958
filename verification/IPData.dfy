/** One address: its cached statistics and the decision to block it. */
module IPData {
  import opened Data
  import Global = Stats
  import R = Requests

  const RESOLVING := "resolving"

  datatype Policy = Policy(windowSize: int, minApp: int, maxApp: int, maxRatio: real, blockTTL: int, withNetworks: bool)

  datatype Details = Details(
    ip: Bytes, hostname: string, asn: ASN, stats: Stats,
    isBlocked: bool, reason: Reason, whitelisted: bool,
    createdAt: int, updatedAt: int, lastBlockAt: int, forceBlock: bool)

  const NO_STATS := Stats(0, 0, 0, 0.0)

  datatype Verdict = Verdict(d: Details, block: bool, ask: bool)

  /** Which test the address fails at the moment, if any. */
  function Failing(d: Details, p: Policy, netBlocked: bool): Reason
  {
    if d.stats.app > p.maxApp then TooManyRequests
    else if d.stats.app > p.minApp && p.maxRatio <= d.stats.ratio then TooManyAndRatio
    else if p.withNetworks && netBlocked then ByNetwork
    else Unblocked
  }

  /** The decision on an address: block it, ask for its name first, or neither. */
  function Judged(d: Details, p: Policy, now: int, rules: Rules, netBlocked: bool): Verdict
  {
    if d.hostname == RESOLVING || d.whitelisted then Verdict(d, false, false)
    else if d.updatedAt < now - p.windowSize && d.createdAt < now - p.windowSize then Verdict(d, false, false)
    else if rules(d.ip, d.hostname, d.asn) then Verdict(d.(whitelisted := true), false, false)
    else
      var reason := Failing(d, p, netBlocked);
      if reason == Unblocked then Verdict(d, false, false)
      else if d.hostname == "" then Verdict(d.(reason := reason, hostname := RESOLVING), false, true)
      else Verdict(d.(reason := reason), true, false)
  }

  /** An address after an update of its statistics, whether it was queued for blocking, and whether its name was asked for. */
  function Updated(d: Details, stats: Stats, force: bool, now: int, judgeNow: int, p: Policy, rules: Rules, netBlocked: bool): Verdict
  {
    var v := Judged(d.(stats := stats), p, judgeNow, rules, netBlocked);
    if v.block && (force || d.lastBlockAt + p.blockTTL < now)
    then Verdict(v.d.(forceBlock := force || d.forceBlock, lastBlockAt := now), true, v.ask)
    else Verdict(v.d, false, v.ask)
  }

  /** A request to update the statistics of an address. */
  datatype IPStats = IPStats(ip: Bytes, stats: Stats)

  /** What is shared by all addresses: the queue to the block worker, the requests to the resolver and to the history. */
  class Resources {
    var blockChan: seq<IPData>
    var lookups: seq<Bytes>
    var updates: seq<IPStats>

    constructor ()
      ensures blockChan == [] && lookups == [] && updates == []
    {
      blockChan, lookups, updates := [], [], [];
    }
  }

  class IPData {
    const ip: Bytes
    const asn: ASN
    const policy: Policy
    const createdAt: int
    const resources: Resources
    const requests: R.Requests
    var hostname: string
    var stats: Stats
    var isBlocked: bool
    var blockReason: Reason
    var whitelisted: bool
    var updatedAt: int
    var lastBlockAt: int
    var forceBlock: bool

    function Value(): Details
      reads this
    {
      Details(ip, hostname, asn, stats, isBlocked, blockReason, whitelisted, createdAt, updatedAt, lastBlockAt, forceBlock)
    }

    constructor (ip: Bytes, asn: ASN, createdAt: int, rules: Rules, policy: Policy, resources: Resources,
                 config: R.Config, isAsset: string -> bool, requestsAt: int, expiredAt: int)
      ensures Value() == NewDetails(ip, asn, createdAt, rules)
      ensures this.ip == ip && this.asn == asn && this.createdAt == createdAt && hostname == "" && stats == NO_STATS
      ensures !isBlocked && !forceBlock && blockReason == Unblocked && whitelisted == rules(ip, "", asn)
      ensures updatedAt == UNIX_EPOCH && lastBlockAt == 0
      ensures this.policy == policy && this.resources == resources
      ensures requests.Valid() && fresh(requests.Repr) && requests.config == config && requests.isAsset == isAsset
      ensures requests.Value() == R.State([], [], [], map[], [], requestsAt, expiredAt)
    {
      this.ip, this.asn, this.policy, this.createdAt, this.resources := ip, asn, policy, createdAt, resources;
      hostname, stats := "", NO_STATS;
      isBlocked, blockReason, forceBlock := false, Unblocked, false;
      updatedAt, lastBlockAt := UNIX_EPOCH, 0;
      whitelisted := rules(ip, "", asn);
      requests := new R.Requests(config, isAsset, requestsAt, expiredAt);
    }

    method ShouldBeBlocked(now: int, rules: Rules, netBlocked: bool) returns (decision: bool)
      modifies this, resources`lookups
      ensures var v := Judged(old(Value()), policy, now, rules, netBlocked);
              && Value() == v.d && decision == v.block
              && resources.lookups == if v.ask then old(resources.lookups) + [ip] else old(resources.lookups)
    {
      decision := false;
      if hostname == RESOLVING || whitelisted {
        return false;
      }
      var threshold := now - policy.windowSize;
      if updatedAt < threshold && createdAt < threshold {
        return false;
      }
      if rules(ip, hostname, asn) {
        whitelisted := true;
        return false;
      }
      if stats.app > policy.maxApp {
        blockReason := TooManyRequests;
        decision := true;
      } else if stats.app > policy.minApp && policy.maxRatio <= stats.ratio {
        blockReason := TooManyAndRatio;
        decision := true;
      } else if policy.withNetworks && netBlocked {
        decision := true;
        blockReason := ByNetwork;
      }
      if decision && hostname == "" {
        hostname := RESOLVING;
        resources.lookups := resources.lookups + [ip];
        return false;
      }
    }

    method Update(stats: Stats, force: bool, now: int, judgeNow: int, rules: Rules, netBlocked: bool)
      modifies this, resources`blockChan, resources`lookups
      ensures var v := Updated(old(Value()), stats, force, now, judgeNow, policy, rules, netBlocked);
              && Value() == v.d
              && resources.blockChan == (if v.block then old(resources.blockChan) + [this] else old(resources.blockChan))
              && resources.lookups == if v.ask then old(resources.lookups) + [ip] else old(resources.lookups)
      ensures this.stats == stats && isBlocked == old(isBlocked)
      ensures var queued := resources.blockChan != old(resources.blockChan);
              && lastBlockAt == (if queued then now else old(lastBlockAt))
              && (forceBlock <==> old(forceBlock) || (queued && force))
              && (queued <==>
                    && old(hostname) != "" && old(hostname) != RESOLVING
                    && !old(whitelisted) && !rules(ip, old(hostname), asn)
                    && (judgeNow - policy.windowSize <= updatedAt || judgeNow - policy.windowSize <= createdAt)
                    && (|| stats.app > policy.maxApp
                        || (stats.app > policy.minApp && policy.maxRatio <= stats.ratio)
                        || (policy.withNetworks && netBlocked))
                    && (force || old(lastBlockAt) + policy.blockTTL < now))
    {
      UpdatedExactly(Value(), stats, force, now, judgeNow, policy, rules, netBlocked);
      this.stats := stats;
      var should := ShouldBeBlocked(judgeNow, rules, netBlocked);
      if should && (force || lastBlockAt + policy.blockTTL < now) {
        if force {
          forceBlock := true;
        }
        lastBlockAt := now;
        resources.blockChan := resources.blockChan + [this];
      }
    }

    /** Sets the name and asks for an update, in a message that reports no requests. */
    method SetHostname(name: string)
      modifies this, resources`updates
      ensures Value() == old(Value()).(hostname := name)
      ensures resources.updates == old(resources.updates) + [IPStats(ip, NO_STATS)]
    {
      hostname := name;
      resources.updates := resources.updates + [IPStats(ip, NO_STATS)];
    }

    /**
     Counts a request, sends the new statistics to the history and tells under which kind the request
     is counted there; being blocked goes first.
     */
    method Add(req: Request, r: R.Readings, now: int) returns (decision: Global.Decision)
      requires requests.Valid()
      modifies this, requests.Repr, resources`updates
      ensures Value() == old(Value()).(updatedAt := now)
      ensures requests.Value()
           == R.Counted(R.Expired(old(requests.Value()), r, requests.config), req, requests.isAsset(req.url), requests.config)
      ensures resources.updates == old(resources.updates) + [IPStats(ip, R.StatsOf(requests.Value()))]
      ensures decision == if old(isBlocked) then Global.IsBlocked
                          else if old(whitelisted) then Global.IsWhitelisted else Global.IsHuman
    {
      updatedAt := now;
      var stats := requests.Add(req, r);
      resources.updates := resources.updates + [IPStats(ip, stats)];
      if isBlocked {
        return Global.IsBlocked;
      }
      if whitelisted {
        return Global.IsWhitelisted;
      }
      decision := Global.IsHuman;
    }
  }

  /** The moment to which a new address' last request is set, in nanoseconds since the zero time. */
  const UNIX_EPOCH := 62135596800000000000

  function NewDetails(ip: Bytes, asn: ASN, createdAt: int, rules: Rules): Details
  {
    Details(ip, "", asn, NO_STATS, false, Unblocked, rules(ip, "", asn), createdAt, UNIX_EPOCH, 0, false)
  }

  // An address is judged to be blocked if and only if its name is known, it is not whitelisted, was
  // active or created within the last slice, and fails one of the tests.
  lemma BlocksExactly(d: Details, p: Policy, now: int, rules: Rules, netBlocked: bool)
    ensures Judged(d, p, now, rules, netBlocked).block <==>
              && d.hostname != "" && d.hostname != RESOLVING
              && !d.whitelisted && !rules(d.ip, d.hostname, d.asn)
              && (now - p.windowSize <= d.updatedAt || now - p.windowSize <= d.createdAt)
              && (|| d.stats.app > p.maxApp
                  || (d.stats.app > p.minApp && p.maxRatio <= d.stats.ratio)
                  || (p.withNetworks && netBlocked))
  {
  }

  // And what else becomes of it: its name is asked for if and only if all else speaks for blocking it and
  // it has no name yet, it is whitelisted from the moment on the rules say so, and the reason is that
  // of the test it failed.
  lemma VerdictExactly(d: Details, p: Policy, now: int, rules: Rules, netBlocked: bool)
    ensures var v := Judged(d, p, now, rules, netBlocked);
            var active := now - p.windowSize <= d.updatedAt || now - p.windowSize <= d.createdAt;
            var many := d.stats.app > p.maxApp;
            var ratio := d.stats.app > p.minApp && p.maxRatio <= d.stats.ratio;
            && (v.ask <==>
                  && d.hostname == "" && !d.whitelisted && active && !rules(d.ip, "", d.asn)
                  && (many || ratio || (p.withNetworks && netBlocked)))
            && (v.d.hostname == if v.ask then RESOLVING else d.hostname)
            && (v.d.whitelisted <==>
                  d.whitelisted || (active && d.hostname != RESOLVING && rules(d.ip, d.hostname, d.asn)))
            && (v.block || v.ask ==>
                  v.d.reason == if many then TooManyRequests else if ratio then TooManyAndRatio else ByNetwork)
            && (!(v.block || v.ask) ==> v.d.reason == d.reason)
            && v.d == d.(hostname := v.d.hostname, whitelisted := v.d.whitelisted, reason := v.d.reason)
  {
  }

  // So an update puts an address into the queue if and only if it is judged to be blocked with the new
  // statistics, and by force or more than the block TTL after it was last put there. Then it is
  // stamped, and marked if it was by force; otherwise stamp and mark stay.
  lemma UpdatedExactly(d: Details, stats: Stats, force: bool, now: int, judgeNow: int, p: Policy, rules: Rules, netBlocked: bool)
    ensures var v := Updated(d, stats, force, now, judgeNow, p, rules, netBlocked);
            && v.d.stats == stats && v.d.isBlocked == d.isBlocked
            && v.d.lastBlockAt == (if v.block then now else d.lastBlockAt)
            && (v.d.forceBlock <==> d.forceBlock || (v.block && force))
            && (v.block <==>
                  && d.hostname != "" && d.hostname != RESOLVING
                  && !d.whitelisted && !rules(d.ip, d.hostname, d.asn)
                  && (judgeNow - p.windowSize <= d.updatedAt || judgeNow - p.windowSize <= d.createdAt)
                  && (|| stats.app > p.maxApp
                      || (stats.app > p.minApp && p.maxRatio <= stats.ratio)
                      || (p.withNetworks && netBlocked))
                  && (force || d.lastBlockAt + p.blockTTL < now))
  {
    BlocksExactly(d.(stats := stats), p, judgeNow, rules, netBlocked);
  }
}
