/** The rolling windows: buckets of one kind of request, buckets per user agent, the latest requests. */
module Windows {
  import opened Data
  import opened Buckets
  import opened Sums

  /** Removes buckets from the oldest on and stops at the first one that is young enough. */
  method ExpireBuckets(b: seq<Bucket>, threshold: int) returns (left: seq<Bucket>)
    ensures left == DropBelow(b, threshold)
  {
    left := b;
    while left != []
      invariant DropBelow(left, threshold) == DropBelow(b, threshold)
      decreases |left|
    {
      if left[0].key >= threshold {
        break;
      }
      left := left[1..];
    }
  }

  /** A rolling window of numWindows slices of windowSize nanoseconds. */
  class Window {
    var data: seq<Bucket>
    const windowSize: Width
    const numWindows: int

    constructor (windowSize: Width, numWindows: int)
      ensures data == []
      ensures this.windowSize == windowSize && this.numWindows == numWindows
    {
      data := [];
      this.windowSize, this.numWindows := windowSize, numWindows;
    }

    method Add(t: int)
      modifies this
      ensures data == Increment(old(data), KeyFor(t, windowSize))
      ensures Ok(old(data)) ==> Ok(data)
    {
      var key := KeyFor(t, windowSize);
      var val := Get(data, key);
      val := val + 1;
      if Ok(data) {
        IncrementCounts(data, key);
      }
      data := Put(data, key, val);
    }

    method Count() returns (total: int)
      ensures total == Sum(data)
    {
      total := 0;
      for i := 0 to |data|
        invariant total + Sum(data[i..]) == Sum(data)
      {
        assert data[i..][1..] == data[i + 1..];
        total := total + data[i].count;
      }
    }

    method Expire(now: int) returns (size: nat)
      modifies this
      ensures data == DropBelow(old(data), now - windowSize * numWindows)
      ensures size == |data|
      ensures Ok(old(data)) ==>
                Ok(data) && forall k :: Get(data, k) == if k >= now - windowSize * numWindows then Get(old(data), k) else 0
    {
      var threshold := now - windowSize * numWindows;
      if Ok(data) {
        DropBelowKeeps(data, threshold);
      }
      data := ExpireBuckets(data, threshold);
      size := |data|;
    }

    method Map() returns (res: map<int, int>)
      requires Ok(data)
      ensures forall k :: k in res <==> HasKey(data, k)
      ensures forall k :: k in res ==> res[k] == Get(data, k)
    {
      res := map[];
      for i := 0 to |data|
        invariant forall k :: k in res <==> exists j :: 0 <= j < i && data[j].key == k
        invariant forall k :: k in res ==> res[k] == Get(data, k)
      {
        GetAt(data, i);
        res := res[data[i].key := data[i].count];
      }
    }
  }

  /** The windows per user agent after one more request. */
  function AddPerAgent(m: map<string, seq<Bucket>>, agent: string, key: int): map<string, seq<Bucket>>
  {
    m[agent := Increment(if agent in m then m[agent] else [], key)]
  }

  /** Every agent's window expires at its own clock reading; windows that run empty are dropped. */
  function ExpirePerAgent(m: map<string, seq<Bucket>>, clock: string -> int, span: int): map<string, seq<Bucket>>
  {
    map u | u in m && DropBelow(m[u], clock(u) - span) != [] :: DropBelow(m[u], clock(u) - span)
  }

  ghost function Sizes(m: map<string, seq<Bucket>>): map<string, int>
  {
    map u | u in m :: |m[u]|
  }

  ghost function Totals(m: map<string, seq<Bucket>>): map<string, int>
  {
    map u | u in m :: Sum(m[u])
  }

  /** The number of requests in bucket k over all user agents. */
  ghost function AgentsAt(m: map<string, seq<Bucket>>, k: int): int
  {
    SumOf(CountsAt(m, k))
  }

  ghost function CountsAt(m: map<string, seq<Bucket>>, k: int): map<string, int>
  {
    map u | u in m :: Get(m[u], k)
  }

  ghost predicate PerAgentOk(m: map<string, seq<Bucket>>)
  {
    forall u :: u in m ==> Ok(m[u]) && m[u] != []
  }

  lemma ExpirePerAgentOk(m: map<string, seq<Bucket>>, clock: string -> int, span: int)
    requires PerAgentOk(m)
    ensures PerAgentOk(ExpirePerAgent(m, clock, span))
  {
    forall u | u in m ensures Ok(DropBelow(m[u], clock(u) - span)) {
      DropBelowKeeps(m[u], clock(u) - span);
    }
  }

  lemma AddPerAgentOk(m: map<string, seq<Bucket>>, agent: string, key: int)
    requires PerAgentOk(m)
    ensures PerAgentOk(AddPerAgent(m, agent, key))
  {
    var b := if agent in m then m[agent] else [];
    IncrementCounts(b, key);
    assert HasKey(Increment(b, key), key);
  }

  /** One window for each user agent, held by value. */
  class MapWindow {
    const windowSize: Width
    const numWindows: int
    var data: map<string, seq<Bucket>>

    constructor (windowSize: Width, numWindows: int)
      ensures data == map[]
      ensures this.windowSize == windowSize && this.numWindows == numWindows
    {
      data := map[];
      this.windowSize, this.numWindows := windowSize, numWindows;
    }

    method Add(req: Request)
      modifies this
      ensures data == AddPerAgent(old(data), req.userAgent, KeyFor(req.time, windowSize))
    {
      if req.userAgent !in data {
        data := data[req.userAgent := []];
      }
      data := data[req.userAgent := Increment(data[req.userAgent], KeyFor(req.time, windowSize))];
    }

    method Total() returns (total: int)
      ensures total == SumOf(Totals(data))
    {
      total := 0;
      ghost var done: map<string, int> := map[];
      var todo := data.Keys;
      while todo != {}
        invariant todo <= data.Keys && done.Keys == data.Keys - todo
        invariant forall u :: u in done ==> done[u] == Sum(data[u])
        invariant total == SumOf(done)
        decreases todo
      {
        var k :| k in todo;
        total := total + Sum(data[k]);
        SumUpdate(done, k, Sum(data[k]));
        done := done[k := Sum(data[k])];
        todo := todo - {k};
      }
      assert done == Totals(data);
    }

    method TotalMap() returns (res: map<string, int>)
      ensures res == Totals(data)
    {
      res := map[];
      var todo := data.Keys;
      while todo != {}
        invariant todo <= data.Keys && res.Keys == data.Keys - todo
        invariant forall u :: u in res ==> res[u] == Sum(data[u])
        decreases todo
      {
        var k :| k in todo;
        res := res[k := Sum(data[k])];
        todo := todo - {k};
      }
    }

    /** Expires every agent's window, in any order, each at its own clock reading. */
    method Expire(clock: string -> int) returns (count: int)
      modifies this
      ensures data == ExpirePerAgent(old(data), clock, windowSize * numWindows)
      ensures count == SumOf(Sizes(data))
    {
      count := 0;
      ghost var before, after := data, ExpirePerAgent(data, clock, windowSize * numWindows);
      var todo := data.Keys;
      while todo != {}
        invariant AgentsPartly(data, before, after, todo, count)
        decreases |todo|
      {
        var k :| k in todo;
        var left := ExpireBuckets(data[k], clock(k) - windowSize * numWindows);
        var size := |left|;
        AgentsStep(data, before, after, todo, count, k, left);
        data := if size <= 0 then data - {k} else data[k := left];
        todo := todo - {k};
        count := count + size;
      }
      AgentsDone(data, before, after, count);
    }
  }

  /** The agents still to do are as before, the others as after; the count is that of the others. */
  ghost predicate AgentsPartly(data: map<string, seq<Bucket>>, before: map<string, seq<Bucket>>, after: map<string, seq<Bucket>>,
                          todo: set<string>, count: int)
  {
    && todo <= data.Keys && after.Keys <= before.Keys && data.Keys <= before.Keys
    && (forall u :: u in todo ==> data[u] == before[u])
    && (forall u :: u !in todo ==> (u in data <==> u in after))
    && (forall u :: u in data && u !in todo ==> data[u] == after[u])
    && count == SumOver(Sizes(after), before.Keys - todo)
  }

  lemma AgentsStep(data: map<string, seq<Bucket>>, before: map<string, seq<Bucket>>, after: map<string, seq<Bucket>>,
                    todo: set<string>, count: int, k: string, left: seq<Bucket>)
    requires AgentsPartly(data, before, after, todo, count) && k in todo
    requires (k in after <==> left != []) && (k in after ==> after[k] == left)
    ensures AgentsPartly(if |left| <= 0 then data - {k} else data[k := left], before, after, todo - {k}, count + |left|)
  {
    SumOverAdd(Sizes(after), before.Keys - todo, k);
    assert before.Keys - (todo - {k}) == before.Keys - todo + {k};
  }

  lemma AgentsDone(data: map<string, seq<Bucket>>, before: map<string, seq<Bucket>>, after: map<string, seq<Bucket>>, count: int)
    requires AgentsPartly(data, before, after, {}, count)
    ensures data == after && count == SumOf(Sizes(after))
  {
    assert data == after;
    SumOverAll(Sizes(after), before.Keys);
    assert before.Keys - {} == before.Keys;
  }

  // ---------------------------------------------------------------- the latest requests

  /** The list, newest first, after one more request: the oldest one goes when it gets too long. */
  function Pushed(list: seq<Request>, r: Request, maxSize: int): seq<Request>
  {
    var l := [r] + list;
    if |l| > maxSize then l[..|l| - 1] else l
  }

  /** The list after expiry from the back, up to the first request that is not older than ttl. */
  function Trimmed(list: seq<Request>, now: int, ttl: int): seq<Request>
  {
    if list == [] || now - list[|list| - 1].time <= ttl then list else Trimmed(list[..|list| - 1], now, ttl)
  }

  class RequestsWindow {
    var data: seq<Request>
    const maxSize: int
    const ttl: int

    constructor (maxRequests: int, windowSize: int, numWindows: int)
      ensures data == [] && maxSize == maxRequests && ttl == windowSize * numWindows
    {
      data := [];
      maxSize, ttl := maxRequests, windowSize * numWindows;
    }

    method Add(r: Request)
      modifies this
      ensures data == Pushed(old(data), r, maxSize)
    {
      data := [r] + data;
      if |data| > maxSize {
        data := data[..|data| - 1];
      }
    }

    method Requests() returns (reqs: seq<Request>)
      ensures reqs == data
    {
      reqs := [];
      for i := 0 to |data|
        invariant reqs == data[..i]
      {
        reqs := reqs + [data[i]];
      }
    }

    method Expire(now: int) returns (size: nat)
      modifies this
      ensures data == Trimmed(old(data), now, ttl) && size == |data|
    {
      if |data| <= 0 {
        return 0;
      }
      while |data| > 0
        invariant Trimmed(data, now, ttl) == Trimmed(old(data), now, ttl)
        decreases |data|
      {
        if now - data[|data| - 1].time <= ttl {
          break;
        }
        data := data[..|data| - 1];
      }
      size := |data|;
    }
  }
}
