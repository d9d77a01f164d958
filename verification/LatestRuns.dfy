/** The capped list of latest requests after any run of its operations. */
module LatestRuns {
  import opened Data
  import opened Windows

  datatype Op = Add(req: Request) | Expire(now: int)

  function Run(ops: seq<Op>, maxSize: int, ttl: int): seq<Request>
  {
    if ops == [] then [] else
      var list := Run(ops[..|ops| - 1], maxSize, ttl);
      match ops[|ops| - 1]
      case Add(r) => Pushed(list, r, maxSize)
      case Expire(now) => Trimmed(list, now, ttl)
  }

  /** All requests of a run, the newest first. */
  function NewestFirst(ops: seq<Op>): seq<Request>
  {
    if ops == [] then [] else
      var rs := NewestFirst(ops[..|ops| - 1]);
      match ops[|ops| - 1]
      case Add(r) => [r] + rs
      case Expire(_) => rs
  }

  function Cap(maxSize: int): nat { if maxSize < 0 then 0 else maxSize }

  lemma {:induction false} TrimmedIsPrefix(list: seq<Request>, now: int, ttl: int)
    ensures var t := Trimmed(list, now, ttl);
            && t <= list
            && (t != [] ==> now - t[|t| - 1].time <= ttl)
            && forall i :: |t| <= i < |list| ==> now - list[i].time > ttl
  {
    if list != [] && now - list[|list| - 1].time > ttl {
      TrimmedIsPrefix(list[..|list| - 1], now, ttl);
    }
  }

  // The list is always the newest k of all requests ever added, and never longer than its cap.
  lemma {:induction false} AlwaysNewest(ops: seq<Op>, maxSize: int, ttl: int)
    ensures Run(ops, maxSize, ttl) <= NewestFirst(ops)
    ensures |Run(ops, maxSize, ttl)| <= Cap(maxSize)
  {
    if ops != [] {
      AlwaysNewest(ops[..|ops| - 1], maxSize, ttl);
      var list := Run(ops[..|ops| - 1], maxSize, ttl);
      match ops[|ops| - 1]
      case Add(r) =>
      case Expire(now) =>
        TrimmedIsPrefix(list, now, ttl);
    }
  }

  ghost predicate ClockAtMost(ops: seq<Op>, now: int)
  {
    forall i :: 0 <= i < |ops| && ops[i].Expire? ==> ops[i].now <= now
  }

  /** Requests arrive in the order of their times. */
  ghost predicate InTimeOrder(rs: seq<Request>)
  {
    forall i, j :: 0 <= i < j < |rs| ==> rs[i].time >= rs[j].time
  }

  function Fresh(rs: seq<Request>, now: int, ttl: int): nat
  {
    if rs == [] then 0 else Fresh(rs[1..], now, ttl) + if now - rs[0].time <= ttl then 1 else 0
  }

  lemma {:induction false} FreshIsPrefix(rs: seq<Request>, now: int, ttl: int, m: nat)
    requires m <= |rs|
    requires forall i :: 0 <= i < m ==> now - rs[i].time <= ttl
    requires forall i :: m <= i < |rs| ==> now - rs[i].time > ttl
    ensures Fresh(rs, now, ttl) == m
  {
    if rs != [] {
      FreshIsPrefix(rs[1..], now, ttl, if m == 0 then 0 else m - 1);
    }
  }

  // What is not in the list any more was pushed out by newer requests or is too old by now.
  lemma {:induction false} GoneForAReason(ops: seq<Op>, maxSize: int, ttl: int, now: int)
    requires ClockAtMost(ops, now)
    ensures var rs := NewestFirst(ops);
            forall i :: |Run(ops, maxSize, ttl)| <= i < |rs| ==> i >= Cap(maxSize) || now - rs[i].time > ttl
  {
    if ops != [] {
      var init := ops[..|ops| - 1];
      assert forall i :: 0 <= i < |init| ==> init[i] == ops[i];
      GoneForAReason(init, maxSize, ttl, now);
      AlwaysNewest(init, maxSize, ttl);
      var list := Run(init, maxSize, ttl);
      match ops[|ops| - 1]
      case Add(r) =>
        var rs, rs' := NewestFirst(init), NewestFirst(ops);
        assert forall i :: 0 < i < |rs'| ==> rs'[i] == rs[i - 1];
      case Expire(at) =>
        assert ops[|ops| - 1].now <= now;
        TrimmedIsPrefix(list, at, ttl);
        assert forall i :: 0 <= i < |list| ==> list[i] == NewestFirst(init)[i];
    }
  }

  // With arrivals in time order an expiry leaves exactly the newest min(cap, number still fresh).
  lemma ExactAfterExpire(ops: seq<Op>, maxSize: int, ttl: int, now: int)
    requires ClockAtMost(ops, now) && InTimeOrder(NewestFirst(ops))
    ensures var rs := NewestFirst(ops);
            var young := Fresh(rs, now, ttl);
            var k := if young < Cap(maxSize) then young else Cap(maxSize);
            k <= |rs| && Run(ops + [Expire(now)], maxSize, ttl) == rs[..k]
  {
    var rs, list := NewestFirst(ops), Run(ops, maxSize, ttl);
    AlwaysNewest(ops, maxSize, ttl);
    assert list == rs[..|list|];
    GoneForAReason(ops, maxSize, ttl, now);
    TrimExact(rs, |list|, Cap(maxSize), now, ttl);
    RunExpire(ops, now, maxSize, ttl);
  }

  lemma RunExpire(ops: seq<Op>, now: int, maxSize: int, ttl: int)
    ensures Run(ops + [Expire(now)], maxSize, ttl) == Trimmed(Run(ops, maxSize, ttl), now, ttl)
  {
    assert (ops + [Expire(now)])[..|ops|] == ops;
  }

  lemma TrimExact(rs: seq<Request>, n: nat, cap: nat, now: int, ttl: int)
    requires n <= |rs| && n <= cap && InTimeOrder(rs)
    requires forall i :: n <= i < |rs| ==> i >= cap || now - rs[i].time > ttl
    ensures var young := Fresh(rs, now, ttl);
            var k := if young < cap then young else cap;
            k <= |rs| && Trimmed(rs[..n], now, ttl) == rs[..k]
  {
    var t := Trimmed(rs[..n], now, ttl);
    TrimmedIsPrefix(rs[..n], now, ttl);
    var m := FreshPrefix(rs, now, ttl);
    FreshIsPrefix(rs, now, ttl, m);
    assert t == rs[..|t|];
    if t != [] {
      assert t[|t| - 1] == rs[|t| - 1];
    }
    if |t| < n {
      assert rs[..n][|t|] == rs[|t|];
    }
    if |t| < |rs| {
      assert |t| >= cap || now - rs[|t|].time > ttl;
    }
  }

  // In time order the fresh requests come first.
  lemma {:induction false} FreshPrefix(rs: seq<Request>, now: int, ttl: int) returns (m: nat)
    requires InTimeOrder(rs)
    ensures m <= |rs|
    ensures forall i :: 0 <= i < m ==> now - rs[i].time <= ttl
    ensures forall i :: m <= i < |rs| ==> now - rs[i].time > ttl
  {
    m := 0;
    while m < |rs| && now - rs[m].time <= ttl
      invariant m <= |rs| && forall i :: 0 <= i < m ==> now - rs[i].time <= ttl
    {
      m := m + 1;
    }
  }
}
