/** The table of networks over whole runs of requests, ticks and removals. */
module NetworksRuns {
  import opened Data
  import opened Buckets
  import opened Network
  import opened Networks
  import NetworkRuns
  import WindowRuns

  datatype Op =
    | Handle(req: Request, asset: bool)
    | Tick(clock: Bytes -> Readings)
    | Remove(network: Bytes)   // the timer of a network ran out

  /** The table after a run, computed as the methods of Networks do. */
  function Run(ops: seq<Op>, w: Width, span: int): map<Bytes, Net>
  {
    if ops == [] then map[] else
      var m := Run(ops[..|ops| - 1], w, span);
      match ops[|ops| - 1]
      case Handle(req, asset) => WithRequest(m, req, asset, w)
      case Tick(clock) => ExpireAll(m, clock, span)
      case Remove(network) => m - {network}
  }

  /** What happened to each network in the table since it was created. */
  function Lives(ops: seq<Op>): map<Bytes, seq<NetworkRuns.Op>>
  {
    if ops == [] then map[] else
      var m := Lives(ops[..|ops| - 1]);
      match ops[|ops| - 1]
      case Handle(req, asset) =>
        var c := req.asn.network;
        m[c := (if c in m then m[c] else []) + [NetworkRuns.Handle(req, asset)]]
      case Tick(clock) => map c | c in m :: m[c] + [NetworkRuns.Expire(clock(c))]
      case Remove(network) => m - {network}
  }

  // The data of a network are what its own requests and expiries since its creation make them.
  lemma {:induction false} EntriesAreRuns(ops: seq<Op>, w: Width, span: int)
    ensures Run(ops, w, span).Keys == Lives(ops).Keys
    ensures forall c :: c in Lives(ops) ==> Run(ops, w, span)[c] == NetworkRuns.Run(Lives(ops)[c], w, span)
  {
    if ops != [] {
      var init, op := ops[..|ops| - 1], ops[|ops| - 1];
      EntriesAreRuns(init, w, span);
      var lives, lives' := Lives(init), Lives(ops);
      forall c | c in lives' ensures c in Run(ops, w, span) && Run(ops, w, span)[c] == NetworkRuns.Run(lives'[c], w, span) {
        var life := if c in lives then lives[c] else [];
        match op
        case Handle(req, asset) => NetworkRuns.RunAppend(life, NetworkRuns.Handle(req, asset), w, span);
        case Tick(clock) => NetworkRuns.RunAppend(life, NetworkRuns.Expire(clock(c)), w, span);
        case Remove(_) =>
      }
    }
  }

  /** Every expiry reads its clocks in order. */
  ghost predicate ClockOrdered(ops: seq<Op>)
  {
    forall i :: 0 <= i < |ops| && ops[i].Tick? ==> forall c :: ops[i].clock(c).InOrder()
  }

  // In every run the books of every network are in order, its map of times and addresses is a bijection,
  // and it is filed under its own name.
  lemma {:induction false} EveryNetworkSound(ops: seq<Op>, w: Width, span: int)
    requires ClockOrdered(ops)
    ensures AllSound(Run(ops, w, span))
  {
    if ops != [] {
      var init, op := ops[..|ops| - 1], ops[|ops| - 1];
      assert forall i :: 0 <= i < |init| ==> init[i] == ops[i];
      EveryNetworkSound(init, w, span);
      var m := Run(init, w, span);
      match op
      case Handle(req, asset) =>
        HandledAllSound(m, req, asset, w);
      case Tick(clock) =>
        assert ops[|ops| - 1].Tick?;
        ExpiredAllSound(m, clock, span);
      case Remove(_) =>
    }
  }

  // After every tick of every run, and at any other time, the groups conserve requests: by system, by
  // network and overall the same number is counted, every network is in one group of each kind, and all
  // mean ratios are ratios.
  lemma EveryTickConserves(ops: seq<Op>, w: Width, span: int, order: seq<Bytes>)
    requires ClockOrdered(ops) && Lists(order, Run(ops, w, span))
    ensures AllSound(Run(ops, w, span))
    ensures Conserved(Visits(Run(ops, w, span), order)) && |Visits(Run(ops, w, span), order)| == |Run(ops, w, span)|
  {
    EveryNetworkSound(ops, w, span);
    TableConserves(Run(ops, w, span), order);
  }

  ghost predicate ReadAtMost(ops: seq<Op>, c: Bytes, x: NetworkRuns.Which, now: int)
  {
    forall i :: 0 <= i < |ops| && ops[i].Tick? ==> NetworkRuns.ReadingOf(ops[i].clock(c), x) <= now
  }

  lemma {:induction false} LifeInOrder(ops: seq<Op>, c: Bytes, x: NetworkRuns.Which, now: int)
    requires ClockOrdered(ops) && ReadAtMost(ops, c, x, now) && c in Lives(ops)
    ensures forall i :: 0 <= i < |Lives(ops)[c]| && Lives(ops)[c][i].Expire? ==>
              Lives(ops)[c][i].r.InOrder() && NetworkRuns.ReadingOf(Lives(ops)[c][i].r, x) <= now
  {
    var init, op := ops[..|ops| - 1], ops[|ops| - 1];
    assert forall i :: 0 <= i < |init| ==> init[i] == ops[i];
    if c in Lives(init) {
      LifeInOrder(init, c, x, now);
    }
    if op.Tick? {
      assert ops[|ops| - 1].Tick? && op.clock(c).InOrder();
    }
  }

  // And each network counts in it exactly its requests since its creation whose slice is young enough.
  lemma TickCounts(ops: seq<Op>, w: Width, span: int, clock: Bytes -> Readings, c: Bytes, x: NetworkRuns.Which, th: int)
    requires ClockOrdered(ops) && clock(c).InOrder() && c in Lives(ops)
    requires th == NetworkRuns.ReadingOf(clock(c), x) - span
    requires ReadAtMost(ops, c, x, NetworkRuns.ReadingOf(clock(c), x))
    ensures c in Run(ops, w, span)
    ensures NetworkRuns.CounterOf(ExpireAll(Run(ops, w, span), clock, span)[c], x)
         == |Above(WindowRuns.Keys(NetworkRuns.TimesOf(Lives(ops)[c], x), w), th)|
  {
    EntriesAreRuns(ops, w, span);
    LifeInOrder(ops, c, x, NetworkRuns.ReadingOf(clock(c), x));
    NetworkRuns.CountersAfterExpire(Lives(ops)[c], w, span, clock(c), x, th);
  }
}
