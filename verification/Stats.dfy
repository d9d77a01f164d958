/** The global statistics: one slot of counters per time slice, running totals, and the copies of finished slots. */
module Stats {
  import Buckets

  datatype Decision = IsBlocked | IsHuman | IsWhitelisted

  datatype Counters = Counters(total: int, blocked: int, human: int, whitelisted: int)
  {
    function Count(d: Decision): Counters
    {
      match d
      case IsBlocked => Counters(total + 1, blocked + 1, human, whitelisted)
      case IsWhitelisted => Counters(total + 1, blocked, human, whitelisted + 1)
      case IsHuman => Counters(total + 1, blocked, human + 1, whitelisted)
    }

    function Plus(c: Counters): Counters
    {
      Counters(total + c.total, blocked + c.blocked, human + c.human, whitelisted + c.whitelisted)
    }

    function Minus(c: Counters): Counters
    {
      Counters(total - c.total, blocked - c.blocked, human - c.human, whitelisted - c.whitelisted)
    }

    /** Every request is of exactly one kind. */
    predicate Balanced()
    {
      total == blocked + human + whitelisted && 0 <= blocked && 0 <= human && 0 <= whitelisted
    }
  }

  const ZERO := Counters(0, 0, 0, 0)

  /** The counters of the slice that starts at the given time. */
  datatype Slot = Slot(time: int, counters: Counters)

  type Width = Buckets.Width

  /** Rounds a time down to the start of its slice. */
  function Truncate(t: int, w: Width): int
  {
    t - t % w
  }

  // A slice starts at a multiple of its width, at most at the time and less than one width before it.
  lemma TruncateIs(t: int, w: Width)
    ensures Truncate(t, w) <= t < Truncate(t, w) + w
    ensures Truncate(t, w) % w == 0
  {
    var q := t / w;
    assert Truncate(t, w) == q * w;
    Buckets.MultipleOf(q, w);
  }

  predicate Sorted(m: seq<Slot>)
  {
    forall i, j :: 0 <= i < j < |m| ==> m[i].time < m[j].time
  }

  predicate Has(m: seq<Slot>, k: int)
  {
    exists i :: 0 <= i < |m| && m[i].time == k
  }

  /** The counters of slot k, zeros if it does not exist. */
  function Get(m: seq<Slot>, k: int): Counters
  {
    if m == [] then ZERO else if m[0].time == k then m[0].counters else Get(m[1..], k)
  }

  function Put(m: seq<Slot>, k: int, c: Counters): seq<Slot>
  {
    if m == [] || k < m[0].time then [Slot(k, c)] + m
    else if k == m[0].time then [Slot(k, c)] + m[1..]
    else [m[0]] + Put(m[1..], k, c)
  }

  function Sum(m: seq<Slot>): Counters
  {
    if m == [] then ZERO else m[0].counters.Plus(Sum(m[1..]))
  }

  /** The state: running totals, slots in time order, and the stored copies by slice start. */
  datatype State = State(totals: Counters, slots: seq<Slot>, stored: map<int, Slot>)

  const EMPTY := State(ZERO, [], map[])

  function Added(s: State, d: Decision, t: int, w: Width, writeOk: bool): State
  {
    var k := Truncate(t, w);
    var stored :=
      if !Has(s.slots, k) && s.slots != [] && writeOk then
        var newest := s.slots[|s.slots| - 1];
        s.stored[newest.time := newest]
      else s.stored;
    State(s.totals.Count(d), Put(s.slots, k, Get(s.slots, k).Count(d)), stored)
  }

  /** Takes slots off from the oldest on, and their counters off the totals, up to the first young one. */
  function Expired(s: State, th: int): State
    decreases |s.slots|
  {
    if s.slots == [] || s.slots[0].time > th then s
    else Expired(State(s.totals.Minus(s.slots[0].counters), s.slots[1..], s.stored), th)
  }

  class StatsWindows {
    var totals: Counters
    var slots: seq<Slot>
    var stored: map<int, Slot>  // the persisted copies, in the key-value store
    const windowSize: Width
    const numWindows: int

    ghost function Value(): State
      reads this
    {
      State(totals, slots, stored)
    }

    constructor (windowSize: Width, numWindows: int)
      ensures Value() == EMPTY && this.windowSize == windowSize && this.numWindows == numWindows
    {
      totals, slots, stored := ZERO, [], map[];
      this.windowSize, this.numWindows := windowSize, numWindows;
    }

    method Add(d: Decision, t: int, writeOk: bool)
      modifies this
      ensures Value() == Added(old(Value()), d, t, windowSize, writeOk)
    {
      var k := Truncate(t, windowSize);
      var stats := ZERO;
      if !Has(slots, k) {
        if |slots| > 0 && writeOk {
          var newest := slots[|slots| - 1];
          stored := stored[newest.time := newest];
        }
        GetMissing(slots, k);
      } else {
        stats := Get(slots, k);
      }
      match d {
        case IsBlocked =>
          totals := totals.(blocked := totals.blocked + 1);
          stats := stats.(blocked := stats.blocked + 1);
        case IsWhitelisted =>
          totals := totals.(whitelisted := totals.whitelisted + 1);
          stats := stats.(whitelisted := stats.whitelisted + 1);
        case IsHuman =>
          stats := stats.(human := stats.human + 1);
          totals := totals.(human := totals.human + 1);
      }
      stats := stats.(total := stats.total + 1);
      totals := totals.(total := totals.total + 1);
      slots := Put(slots, k, stats);
    }

    method Expire(now: int)
      modifies this
      ensures Value() == Expired(old(Value()), now - windowSize * numWindows)
    {
      var threshold := now - windowSize * numWindows;
      while slots != []
        invariant Expired(Value(), threshold) == Expired(old(Value()), threshold)
        decreases |slots|
      {
        if slots[0].time > threshold {
          break;
        }
        totals := totals.Minus(slots[0].counters);
        slots := slots[1..];
      }
    }
  }

  // ---------------------------------------------------------------- the ordered map

  lemma {:induction false} GetMissing(m: seq<Slot>, k: int)
    requires !Has(m, k)
    ensures Get(m, k) == ZERO
  {
    if m != [] {
      assert m[0].time != k;
      forall i | 0 <= i < |m[1..]| ensures m[1..][i].time != k {
        assert m[1..][i] == m[i + 1];
      }
      GetMissing(m[1..], k);
    }
  }

  lemma {:induction false} GetAt(m: seq<Slot>, i: nat)
    requires Sorted(m) && i < |m|
    ensures Get(m, m[i].time) == m[i].counters
  {
    if i > 0 {
      assert m[0].time < m[i].time;
      GetAt(m[1..], i - 1);
      assert m[i] == m[1..][i - 1];
    }
  }

  lemma {:induction false} PutSum(m: seq<Slot>, k: int, c: Counters)
    requires Sorted(m)
    ensures Sum(Put(m, k, c)) == Sum(m).Minus(Get(m, k)).Plus(c)
  {
    var p := Put(m, k, c);
    if m == [] {
    } else if k < m[0].time {
      assert p[1..] == m;
      assert !Has(m, k);
      GetMissing(m, k);
    } else if k == m[0].time {
      assert p[1..] == m[1..];
    } else {
      PutSum(m[1..], k, c);
      assert p[1..] == Put(m[1..], k, c);
    }
  }

  lemma InCons(x: Slot, m: seq<Slot>)
    requires m != []
    ensures x in m <==> x == m[0] || x in m[1..]
  {
  }

  // Put changes slot k and nothing else, and keeps the slots in order.
  lemma {:induction false} PutHolds(m: seq<Slot>, k: int, c: Counters)
    requires Sorted(m)
    ensures forall x :: x in Put(m, k, c) <==> x == Slot(k, c) || (x in m && x.time != k)
  {
    var p := Put(m, k, c);
    if m == [] {
    } else if k < m[0].time {
      assert p[1..] == m;
    } else if k == m[0].time {
      assert p[1..] == m[1..];
    } else {
      PutHolds(m[1..], k, c);
      assert p[0] == m[0] && p[1..] == Put(m[1..], k, c);
      forall x ensures x in p <==> x == Slot(k, c) || (x in m && x.time != k) {
        InCons(x, m);
        InCons(x, p);
      }
    }
  }

  lemma {:induction false} PutPlaces(m: seq<Slot>, k: int, c: Counters)
    requires Sorted(m)
    ensures Sorted(Put(m, k, c))
    ensures forall x :: x in Put(m, k, c) <==> x == Slot(k, c) || (x in m && x.time != k)
  {
    PutHolds(m, k, c);
    if m != [] && k > m[0].time {
      PutPlaces(m[1..], k, c);
      forall x | x in Put(m[1..], k, c) ensures m[0].time < x.time {
        assert x == Slot(k, c) || x in m[1..];
      }
      SortedCons(m[0], Put(m[1..], k, c));
    }
  }

  lemma SortedCons(x: Slot, m: seq<Slot>)
    requires Sorted(m) && forall y :: y in m ==> x.time < y.time
    ensures Sorted([x] + m)
  {
  }

  lemma NewestAfterPut(m: seq<Slot>, k: int, c: Counters)
    requires Sorted(m)
    ensures var p := Put(m, k, c);
            p != [] && p[|p| - 1].time == if m == [] || m[|m| - 1].time < k then k else m[|m| - 1].time
  {
    var p := Put(m, k, c);
    PutPlaces(m, k, c);
    assert Slot(k, c) in p;
    assert p[|p| - 1] in p;
    if m != [] && m[|m| - 1].time != k {
      assert m[|m| - 1] in p;
    }
  }

  lemma {:induction false} ExpiredKeeps(s: State, th: int)
    requires Sorted(s.slots)
    ensures Sorted(Expired(s, th).slots) && Expired(s, th).stored == s.stored
    ensures forall x :: x in Expired(s, th).slots <==> x in s.slots && x.time > th
    decreases |s.slots|
  {
    if s.slots != [] && s.slots[0].time <= th {
      ExpiredKeeps(State(s.totals.Minus(s.slots[0].counters), s.slots[1..], s.stored), th);
      forall x ensures x in Expired(s, th).slots <==> x in s.slots && x.time > th {
        InCons(x, s.slots);
      }
    }
  }

  // ---------------------------------------------------------------- runs

  datatype Op = Add(d: Decision, t: int, writeOk: bool) | Expire(threshold: int)

  function Step(s: State, op: Op, w: Width): State
  {
    match op
    case Add(d, t, writeOk) => Added(s, d, t, w, writeOk)
    case Expire(th) => Expired(s, th)
  }

  function Run(ops: seq<Op>, w: Width): State
  {
    if ops == [] then EMPTY else Step(Run(ops[..|ops| - 1], w), ops[|ops| - 1], w)
  }

  /** The books are in order: the totals are the sums over the slots in all four fields. */
  ghost predicate Accounted(s: State)
  {
    && Sorted(s.slots)
    && s.totals == Sum(s.slots)
    && forall x :: x in s.slots ==> x.counters.Balanced()
  }

  lemma {:induction false} SumBalanced(m: seq<Slot>)
    requires forall x :: x in m ==> x.counters.Balanced()
    ensures Sum(m).Balanced()
  {
    if m != [] {
      SumBalanced(m[1..]);
      assert m[0] in m;
    }
  }

  lemma AccountedBalanced(s: State)
    requires Accounted(s)
    ensures s.totals.Balanced()
  {
    SumBalanced(s.slots);
  }

  lemma {:induction false} GetBalanced(m: seq<Slot>, k: int)
    requires forall x :: x in m ==> x.counters.Balanced()
    ensures Get(m, k).Balanced()
  {
    if m != [] {
      assert m[0] in m;
      GetBalanced(m[1..], k);
    }
  }

  lemma AddAccounted(s: State, d: Decision, t: int, w: Width, writeOk: bool)
    requires Accounted(s)
    ensures Accounted(Added(s, d, t, w, writeOk))
  {
    var k := Truncate(t, w);
    var c := Get(s.slots, k).Count(d);
    PutPlaces(s.slots, k, c);
    PutSum(s.slots, k, c);
    GetBalanced(s.slots, k);
    CountOnce(s.totals, Get(s.slots, k), d);
    assert c.Balanced();
  }

  lemma CountOnce(a: Counters, g: Counters, d: Decision)
    ensures a.Minus(g).Plus(g.Count(d)) == a.Count(d)
    ensures g.Balanced() ==> g.Count(d).Balanced()
  {
  }

  lemma {:induction false} ExpireAccounted(s: State, th: int)
    requires Accounted(s)
    ensures Accounted(Expired(s, th))
    decreases |s.slots|
  {
    if s.slots != [] && s.slots[0].time <= th {
      ExpireAccounted(State(s.totals.Minus(s.slots[0].counters), s.slots[1..], s.stored), th);
    }
  }

  // In every run the running totals are the sums over the live slots, every request is counted as
  // exactly one kind, globally and in each slot, and no counter goes negative.
  lemma {:induction false} TotalsAddUp(ops: seq<Op>, w: Width)
    ensures Accounted(Run(ops, w)) && Run(ops, w).totals.Balanced()
  {
    if ops != [] {
      var s, op := Run(ops[..|ops| - 1], w), ops[|ops| - 1];
      TotalsAddUp(ops[..|ops| - 1], w);
      if op.Add? {
        AddAccounted(s, op.d, op.t, w, op.writeOk);
      } else {
        ExpireAccounted(s, op.threshold);
      }
    }
    AccountedBalanced(Run(ops, w));
  }

  // ---------------------------------------------------------------- what the counters count

  /** How many requests of one kind fell into slice k. */
  function Number(ops: seq<Op>, w: Width, k: int, d: Decision): nat
  {
    if ops == [] then 0 else
      var op := ops[|ops| - 1];
      Number(ops[..|ops| - 1], w, k, d) + if op.Add? && op.d == d && Truncate(op.t, w) == k then 1 else 0
  }

  function Tally(ops: seq<Op>, w: Width, k: int): Counters
  {
    var blocked, human, whitelisted := Number(ops, w, k, IsBlocked), Number(ops, w, k, IsHuman), Number(ops, w, k, IsWhitelisted);
    Counters(blocked + human + whitelisted, blocked, human, whitelisted)
  }

  lemma RunSorted(ops: seq<Op>, w: Width)
    ensures Sorted(Run(ops, w).slots)
  {
    TotalsAddUp(ops, w);
  }

  lemma {:induction false} GetPut(m: seq<Slot>, k: int, c: Counters, j: int)
    requires Sorted(m)
    ensures Get(Put(m, k, c), j) == if j == k then c else Get(m, j)
  {
    if m != [] && k > m[0].time {
      GetPut(m[1..], k, c, j);
      assert Put(m, k, c)[1..] == Put(m[1..], k, c);
    } else if m != [] && k == m[0].time {
      assert Put(m, k, c)[1..] == m[1..];
    } else {
      assert Put(m, k, c)[1..] == m;
    }
  }

  lemma {:induction false} GetExpired(s: State, th: int, k: int)
    requires Sorted(s.slots)
    ensures Get(Expired(s, th).slots, k) == if k > th then Get(s.slots, k) else ZERO
    decreases |s.slots|
  {
    if s.slots != [] && s.slots[0].time <= th {
      GetExpired(State(s.totals.Minus(s.slots[0].counters), s.slots[1..], s.stored), th, k);
    } else if k <= th {
      GetMissing(s.slots, k);
    }
  }

  // Slots after all thresholds so far hold the numbers of all requests ever added in their slice.
  lemma {:induction false} SlotsTally(ops: seq<Op>, w: Width, floor: int, k: int)
    requires k > floor && forall i :: 0 <= i < |ops| && ops[i].Expire? ==> ops[i].threshold <= floor
    ensures Get(Run(ops, w).slots, k) == Tally(ops, w, k)
  {
    if ops != [] {
      var init, op := ops[..|ops| - 1], ops[|ops| - 1];
      var s := Run(init, w);
      assert forall i :: 0 <= i < |init| ==> init[i] == ops[i];
      SlotsTally(init, w, floor, k);
      RunSorted(init, w);
      match op
      case Add(d, t, _) =>
        GetPut(s.slots, Truncate(t, w), Get(s.slots, Truncate(t, w)).Count(d), k);
      case Expire(th) =>
        assert ops[|ops| - 1].threshold <= floor;
        GetExpired(s, th, k);
    }
  }

  // Right after an expiry the counters of every slice are the numbers of all requests of each kind ever
  // added in it if the slice is young enough, and zero otherwise; the totals are their sums.
  lemma ExactAfterExpire(ops: seq<Op>, w: Width, th: int, k: int)
    requires forall i :: 0 <= i < |ops| && ops[i].Expire? ==> ops[i].threshold <= th
    ensures var s := Expired(Run(ops, w), th);
            Get(s.slots, k) == (if k > th then Tally(ops, w, k) else ZERO) && s.totals == Sum(s.slots)
  {
    TotalsAddUp(ops, w);
    GetExpired(Run(ops, w), th, k);
    ExpireAccounted(Run(ops, w), th);
    if k > th {
      SlotsTally(ops, w, th, k);
    }
  }

  /** How many requests of one kind fell into slices after the threshold. */
  function NumberAfter(ops: seq<Op>, w: Width, th: int, d: Decision): nat
  {
    if ops == [] then 0 else
      var op := ops[|ops| - 1];
      NumberAfter(ops[..|ops| - 1], w, th, d) + if op.Add? && op.d == d && Truncate(op.t, w) > th then 1 else 0
  }

  function TallyAfter(ops: seq<Op>, w: Width, th: int): Counters
  {
    var blocked, human, whitelisted :=
      NumberAfter(ops, w, th, IsBlocked), NumberAfter(ops, w, th, IsHuman), NumberAfter(ops, w, th, IsWhitelisted);
    Counters(blocked + human + whitelisted, blocked, human, whitelisted)
  }

  /** The sum over the slots after the threshold. */
  function SumAfter(m: seq<Slot>, th: int): Counters
  {
    if m == [] then ZERO
    else if m[0].time > th then m[0].counters.Plus(SumAfter(m[1..], th)) else SumAfter(m[1..], th)
  }

  lemma {:induction false} SumAfterAll(m: seq<Slot>, th: int)
    requires forall x :: x in m ==> x.time > th
    ensures SumAfter(m, th) == Sum(m)
  {
    if m != [] {
      assert m[0] in m;
      SumAfterAll(m[1..], th);
    }
  }

  lemma {:induction false} SumAfterPut(m: seq<Slot>, k: int, c: Counters, th: int)
    requires Sorted(m)
    ensures SumAfter(Put(m, k, c), th) == if k > th then SumAfter(m, th).Minus(Get(m, k)).Plus(c) else SumAfter(m, th)
  {
    var p := Put(m, k, c);
    if m == [] || k < m[0].time {
      assert p[1..] == m;
      assert !Has(m, k);
      GetMissing(m, k);
    } else if k == m[0].time {
      assert p[1..] == m[1..];
    } else {
      SumAfterPut(m[1..], k, c, th);
      assert p[1..] == Put(m[1..], k, c);
    }
  }

  lemma {:induction false} SumAfterExpired(s: State, th: int, floor: int)
    requires th <= floor
    ensures SumAfter(Expired(s, th).slots, floor) == SumAfter(s.slots, floor)
    decreases |s.slots|
  {
    if s.slots != [] && s.slots[0].time <= th {
      SumAfterExpired(State(s.totals.Minus(s.slots[0].counters), s.slots[1..], s.stored), th, floor);
    }
  }

  lemma SumAfterCount(m: seq<Slot>, k: int, d: Decision, th: int)
    requires Sorted(m)
    ensures SumAfter(Put(m, k, Get(m, k).Count(d)), th) == if k > th then SumAfter(m, th).Count(d) else SumAfter(m, th)
  {
    SumAfterPut(m, k, Get(m, k).Count(d), th);
    CountOnce(SumAfter(m, th), Get(m, k), d);
  }

  lemma TallyLast(ops: seq<Op>, w: Width, th: int)
    requires ops != []
    ensures var init, op := ops[..|ops| - 1], ops[|ops| - 1];
            TallyAfter(ops, w, th)
            == if op.Add? && Truncate(op.t, w) > th then TallyAfter(init, w, th).Count(op.d) else TallyAfter(init, w, th)
  {
  }

  lemma StepTallyAfter(s: State, op: Op, w: Width, th: int)
    requires Sorted(s.slots) && (op.Expire? ==> op.threshold <= th)
    ensures SumAfter(Step(s, op, w).slots, th)
         == if op.Add? && Truncate(op.t, w) > th then SumAfter(s.slots, th).Count(op.d) else SumAfter(s.slots, th)
  {
    match op
    case Add(d, t, writeOk) =>
      SumAfterCount(s.slots, Truncate(t, w), d, th);
    case Expire(at) =>
      SumAfterExpired(s, at, th);
  }

  lemma {:induction false} SlotsTallyAfter(ops: seq<Op>, w: Width, floor: int)
    requires forall i :: 0 <= i < |ops| && ops[i].Expire? ==> ops[i].threshold <= floor
    ensures SumAfter(Run(ops, w).slots, floor) == TallyAfter(ops, w, floor)
  {
    if ops != [] {
      var init, op := ops[..|ops| - 1], ops[|ops| - 1];
      assert forall i :: 0 <= i < |init| ==> init[i] == ops[i];
      SlotsTallyAfter(init, w, floor);
      RunSorted(init, w);
      StepTallyAfter(Run(init, w), op, w, floor);
      TallyLast(ops, w, floor);
    }
  }

  // So right after an expiry the totals are the numbers of all requests of each kind ever added in the slices
  // after the threshold.
  lemma TotalsAfterExpire(ops: seq<Op>, w: Width, th: int)
    requires forall i :: 0 <= i < |ops| && ops[i].Expire? ==> ops[i].threshold <= th
    ensures Expired(Run(ops, w), th).totals == TallyAfter(ops, w, th)
  {
    var s := Run(ops, w);
    TotalsAddUp(ops, w);
    ExpireAccounted(s, th);
    ExpiredKeeps(s, th);
    SlotsTallyAfter(ops, w, th);
    SumAfterExpired(s, th, th);
    SumAfterAll(Expired(s, th).slots, th);
  }

  // ---------------------------------------------------------------- what is stored

  /** The start of the newest slot. */
  function Newest(m: seq<Slot>): int
    requires m != []
  {
    m[|m| - 1].time
  }

  /** Every slot but the newest has a stored copy with its final counters and start. */
  ghost predicate FinishedStored(s: State)
  {
    forall x :: x in s.slots && x.time != Newest(s.slots) ==> IsStored(s.stored, x)
  }

  ghost predicate IsStored(stored: map<int, Slot>, x: Slot)
  {
    x.time in stored && stored[x.time] == x
  }

  lemma NewestIsLast(m: seq<Slot>, x: Slot)
    requires Sorted(m) && x in m
    ensures x.time <= Newest(m)
    ensures x.time == Newest(m) ==> x == m[|m| - 1]
  {
  }

  /** What is stored when the counters of slot k change: the newest slot, if k is a new one and the write succeeds. */
  lemma StoredByAdd(s: State, d: Decision, t: int, w: Width, writeOk: bool)
    ensures var k, s' := Truncate(t, w), Added(s, d, t, w, writeOk);
            && s'.slots == Put(s.slots, k, Get(s.slots, k).Count(d))
            && s'.stored == if Has(s.slots, k) || s.slots == [] || !writeOk then s.stored
                            else s.stored[Newest(s.slots) := s.slots[|s.slots| - 1]]
  {
  }

  // A request in the newest slice or a later one: what is finished was the newest before, and has to be
  // stored just now or to have been before.
  lemma LateAddStored(s: State, d: Decision, t: int, w: Width, writeOk: bool)
    requires Sorted(s.slots) && FinishedStored(s)
    requires s.slots == [] || Newest(s.slots) <= Truncate(t, w)
    ensures FinishedStored(Added(s, d, t, w, writeOk)) <==>
              || s.slots == [] || Newest(s.slots) == Truncate(t, w)
              || writeOk || IsStored(s.stored, s.slots[|s.slots| - 1])
  {
    var k, s' := Truncate(t, w), Added(s, d, t, w, writeOk);
    var c := Get(s.slots, k).Count(d);
    StoredByAdd(s, d, t, w, writeOk);
    PutPlaces(s.slots, k, c);
    NewestAfterPut(s.slots, k, c);
    forall x | x in s'.slots && x.time != Newest(s'.slots)
      ensures x in s.slots && (x.time != Newest(s.slots) || x == s.slots[|s.slots| - 1])
      ensures x.time != Newest(s.slots) ==> IsStored(s'.stored, x)
    {
      NewestIsLast(s.slots, x);
    }
    if s.slots != [] && Newest(s.slots) < k {
      assert s.slots[|s.slots| - 1] in s.slots && s.slots[|s.slots| - 1] in s'.slots;
      if Has(s.slots, k) {
        HasNewest(s.slots, k);
      }
    }
  }

  lemma HasNewest(m: seq<Slot>, k: int)
    requires Sorted(m) && Has(m, k)
    ensures k <= Newest(m)
  {
  }

  // A request before the newest slot, into a slot that exists: what may be stored of it is out of date.
  lemma KnownSlotNotStored(s: State, d: Decision, t: int, w: Width, writeOk: bool)
    requires Sorted(s.slots) && FinishedStored(s)
    requires s.slots != [] && Truncate(t, w) < Newest(s.slots) && Has(s.slots, Truncate(t, w))
    ensures !FinishedStored(Added(s, d, t, w, writeOk))
  {
    var k, s' := Truncate(t, w), Added(s, d, t, w, writeOk);
    var c := Get(s.slots, k).Count(d);
    StoredByAdd(s, d, t, w, writeOk);
    PutPlaces(s.slots, k, c);
    NewestAfterPut(s.slots, k, c);
    var i :| 0 <= i < |s.slots| && s.slots[i].time == k;
    GetAt(s.slots, i);
    assert s.slots[i] in s.slots && IsStored(s.stored, s.slots[i]);
    assert Slot(k, c) in s'.slots && !IsStored(s'.stored, Slot(k, c));
  }

  // Into a slot that is gone: it is finished, and stored only if a copy with just these counters is
  // left from an earlier life of the slice.
  lemma GoneSlotStored(s: State, d: Decision, t: int, w: Width, writeOk: bool)
    requires Sorted(s.slots) && FinishedStored(s)
    requires s.slots != [] && Truncate(t, w) < Newest(s.slots) && !Has(s.slots, Truncate(t, w))
    ensures FinishedStored(Added(s, d, t, w, writeOk)) <==> IsStored(s.stored, Slot(Truncate(t, w), ZERO.Count(d)))
  {
    var k, s' := Truncate(t, w), Added(s, d, t, w, writeOk);
    var c := Get(s.slots, k).Count(d);
    StoredByAdd(s, d, t, w, writeOk);
    GetMissing(s.slots, k);
    PutPlaces(s.slots, k, c);
    NewestAfterPut(s.slots, k, c);
    assert Slot(k, c) in s'.slots;
    assert IsStored(s'.stored, Slot(k, c)) <==> IsStored(s.stored, Slot(k, c));
    if IsStored(s.stored, Slot(k, c)) {
      forall x | x in s'.slots && x.time != Newest(s'.slots) ensures IsStored(s'.stored, x) {
        assert x == Slot(k, c) || x in s.slots;
      }
    }
  }

  // Counting a request keeps the finished slots stored if and only if it falls into the newest slot; or
  // into a later one, and the newest is stored now or has been before; or into a slice without a slot
  // before the newest one that has the very same stored copy.
  lemma AddKeepsStored(s: State, d: Decision, t: int, w: Width, writeOk: bool)
    requires Sorted(s.slots) && FinishedStored(s)
    ensures var k := Truncate(t, w);
            FinishedStored(Added(s, d, t, w, writeOk)) <==>
              || s.slots == [] || Newest(s.slots) == k
              || (Newest(s.slots) < k && (writeOk || IsStored(s.stored, s.slots[|s.slots| - 1])))
              || (k < Newest(s.slots) && !Has(s.slots, k) && IsStored(s.stored, Slot(k, ZERO.Count(d))))
  {
    if s.slots == [] || Newest(s.slots) <= Truncate(t, w) {
      LateAddStored(s, d, t, w, writeOk);
    } else if Has(s.slots, Truncate(t, w)) {
      KnownSlotNotStored(s, d, t, w, writeOk);
    } else {
      GoneSlotStored(s, d, t, w, writeOk);
    }
  }

  lemma ExpireKeepsStored(s: State, th: int)
    requires Sorted(s.slots) && FinishedStored(s)
    ensures FinishedStored(Expired(s, th))
  {
    ExpiredKeeps(s, th);
    var left := Expired(s, th).slots;
    if left != [] {
      assert left[|left| - 1] in left;
      NewestIsLast(s.slots, left[|left| - 1]);
      assert s.slots[|s.slots| - 1] in s.slots;
      NewestIsLast(left, s.slots[|s.slots| - 1]);
    }
  }

  /** The times of the requests never decrease, and every write to the store succeeds. */
  ghost predicate InOrder(ops: seq<Op>)
  {
    && (forall i, j :: 0 <= i < j < |ops| && ops[i].Add? && ops[j].Add? ==> ops[i].t <= ops[j].t)
    && (forall i :: 0 <= i < |ops| && ops[i].Add? ==> ops[i].writeOk)
  }

  lemma TruncateMonotone(t: int, u: int, w: Width)
    requires t <= u
    ensures Truncate(t, w) <= Truncate(u, w)
  {
    var a, b := t / w, u / w;
    assert Truncate(t, w) == w * a && Truncate(u, w) == w * b;
    assert w * (a - b) == w * a - w * b;
    if a - b >= 1 {
      Buckets.Grows(w, a - b);
    } else if b - a >= 1 {
      Buckets.Grows(w, b - a);
    }
  }

  lemma {:induction false} SlotsNotLater(ops: seq<Op>, w: Width, t: int)
    requires forall i :: 0 <= i < |ops| && ops[i].Add? ==> ops[i].t <= t
    ensures forall x :: x in Run(ops, w).slots ==> x.time <= Truncate(t, w)
  {
    if ops != [] {
      var init, op := ops[..|ops| - 1], ops[|ops| - 1];
      var s := Run(init, w);
      assert forall i :: 0 <= i < |init| ==> init[i] == ops[i];
      SlotsNotLater(init, w, t);
      TotalsAddUp(init, w);
      match op
      case Add(d, u, _) =>
        PutPlaces(s.slots, Truncate(u, w), Get(s.slots, Truncate(u, w)).Count(d));
        assert ops[|ops| - 1].t <= t;
        TruncateMonotone(u, t, w);
      case Expire(th) =>
        ExpiredKeeps(s, th);
    }
  }

  lemma NewestNotLater(ops: seq<Op>, w: Width, t: int)
    requires forall i :: 0 <= i < |ops| && ops[i].Add? ==> ops[i].t <= t
    ensures var slots := Run(ops, w).slots; slots == [] || Newest(slots) <= Truncate(t, w)
  {
    SlotsNotLater(ops, w, t);
    var slots := Run(ops, w).slots;
    if slots != [] {
      assert slots[|slots| - 1] in slots;
    }
  }

  lemma InOrderInit(ops: seq<Op>)
    requires InOrder(ops) && ops != []
    ensures var init, op := ops[..|ops| - 1], ops[|ops| - 1];
            && InOrder(init)
            && (op.Add? ==> op.writeOk && forall i :: 0 <= i < |init| && init[i].Add? ==> init[i].t <= op.t)
  {
  }

  // With request times that never decrease, every slot but the newest is stored with its final counters.
  lemma {:induction false} FinishedAreStored(ops: seq<Op>, w: Width)
    requires InOrder(ops)
    ensures FinishedStored(Run(ops, w))
  {
    if ops != [] {
      var init, op := ops[..|ops| - 1], ops[|ops| - 1];
      var s := Run(init, w);
      InOrderInit(ops);
      FinishedAreStored(init, w);
      TotalsAddUp(init, w);
      match op
      case Add(d, t, _) =>
        NewestNotLater(init, w, t);
        LateAddStored(s, d, t, w, true);
      case Expire(th) =>
        ExpireKeepsStored(s, th);
    }
  }
}
