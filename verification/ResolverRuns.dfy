/** The resolver in every interleaving of its workers. */
module ResolverRuns {
  import opened Data
  import opened Resolver

  // ---------------------------------------------------------------- where the lookups are

  /** How often lookup id occurs in the list. */
  function In(q: seq<Lookup>, id: nat): nat
  {
    if q == [] then 0 else In(q[1..], id) + if q[0].id == id then 1 else 0
  }

  predicate Holds(x: Worker, id: nat)
  {
    (x.Reading? || x.Asking?) && x.rip.id == id
  }

  /** How many workers have lookup id. */
  function With(ws: seq<Worker>, id: nat): nat
  {
    if ws == [] then 0 else With(ws[1..], id) + if Holds(ws[0], id) then 1 else 0
  }

  function Places(s: State, id: nat): nat
  {
    In(s.queue, id) + With(s.workers, id) + In(s.delivered, id) + In(s.dropped, id)
  }

  /** Every submitted lookup is in exactly one place, once: queued, with a worker, delivered or dropped. */
  ghost predicate OnePlace(s: State)
  {
    forall id: nat :: Places(s, id) == if id < |s.submitted| then 1 else 0
  }

  lemma {:induction false} InAppend(q: seq<Lookup>, x: Lookup, id: nat)
    ensures In(q + [x], id) == In(q, id) + if x.id == id then 1 else 0
  {
    if q == [] {
      assert q + [x] == [x];
    } else {
      InAppend(q[1..], x, id);
      assert (q + [x])[1..] == q[1..] + [x];
    }
  }

  lemma {:induction false} InRemove(q: seq<Lookup>, i: nat, id: nat)
    requires i < |q|
    ensures In(q, id) == In(q[..i] + q[i + 1..], id) + if q[i].id == id then 1 else 0
  {
    if i == 0 {
      assert q[..0] + q[1..] == q[1..];
    } else {
      InRemove(q[1..], i - 1, id);
      assert (q[..i] + q[i + 1..])[1..] == q[1..][..i - 1] + q[1..][i..];
    }
  }

  lemma {:induction false} WithSet(ws: seq<Worker>, w: nat, x: Worker, id: nat)
    requires w < |ws|
    ensures With(ws[w := x], id) == With(ws, id) - (if Holds(ws[w], id) then 1 else 0) + if Holds(x, id) then 1 else 0
  {
    if w == 0 {
      assert ws[0 := x][1..] == ws[1..];
    } else {
      WithSet(ws[1..], w - 1, x, id);
      assert ws[w := x][1..] == ws[1..][w - 1 := x];
    }
  }

  // Resolving again puts the lookup into the queue or drops it: one of the two.
  lemma RequeuedPlace(s: State, rip: Lookup, maxTries: int, pubOk: bool, id: nat)
    ensures Places(Requeued(s, rip, maxTries, pubOk), id) == Places(s, id) + if rip.id == id then 1 else 0
    ensures Requeued(s, rip, maxTries, pubOk).submitted == s.submitted
  {
    var again := rip.(tries := rip.tries + 1, err := "");
    InAppend(s.dropped, again, id);
    InAppend(s.queue, again, id);
  }

  lemma ReadMovesOne(s: State, w: nat, fails: bool, pubOk: bool, maxTries: int, id: nat)
    requires Enabled(s, Read(w, fails, pubOk))
    ensures Places(Next(s, Read(w, fails, pubOk), maxTries), id) == Places(s, id)
  {
    var rip := s.workers[w].rip;
    if !fails && rip.ip in s.cache && s.cache[rip.ip] != "" {
      WithSet(s.workers, w, Idle, id);
      InAppend(s.delivered, rip.(host := s.cache[rip.ip]), id);
    } else if !fails && rip.ip !in s.cache {
      WithSet(s.workers, w, Asking(rip), id);
    } else {
      WithSet(s.workers, w, Idle, id);
      RequeuedPlace(Set(s, w, Idle), rip, maxTries, pubOk, id);
    }
  }

  lemma AnswerMovesOne(s: State, w: nat, name: Option<string>, pubOk: bool, maxTries: int, id: nat)
    requires Enabled(s, Answer(w, name, pubOk))
    ensures Places(Next(s, Answer(w, name, pubOk), maxTries), id) == Places(s, id)
  {
    var rip := s.workers[w].rip;
    if name.None? {
      WithSet(s.workers, w, Idle, id);
      RequeuedPlace(Set(s, w, Idle), rip.(err := "not found"), maxTries, pubOk, id);
    } else {
      WithSet(s.workers, w, Caching(rip.ip, name.value), id);
      InAppend(s.delivered, rip.(host := name.value), id);
    }
  }

  lemma StepMovesOne(s: State, step: Step, maxTries: int, id: nat)
    requires Enabled(s, step)
    ensures Places(Next(s, step, maxTries), id) == Places(s, id) + if step.Submit? && id == |s.submitted| then 1 else 0
  {
    match step
    case Submit(ip, pubOk) =>
      RequeuedPlace(s.(submitted := s.submitted + [ip]), Lookup(|s.submitted|, ip, "", "", 0), maxTries, pubOk, id);
    case Lose(i) =>
      InRemove(s.queue, i, id);
      InAppend(s.dropped, s.queue[i], id);
    case Receive(w) =>
      WithSet(s.workers, w, Reading(s.queue[0]), id);
    case Read(w, fails, pubOk) =>
      ReadMovesOne(s, w, fails, pubOk, maxTries, id);
    case Answer(w, name, pubOk) =>
      AnswerMovesOne(s, w, name, pubOk, maxTries, id);
    case Write(w, ok) =>
      WithSet(s.workers, w, Idle, id);
    case Evict(ip) =>
  }

  lemma StepKeepsPlace(s: State, step: Step, maxTries: int)
    requires Enabled(s, step) && OnePlace(s)
    ensures OnePlace(Next(s, step, maxTries))
  {
    forall id: nat ensures Places(Next(s, step, maxTries), id) == if id < |Next(s, step, maxTries).submitted| then 1 else 0 {
      StepMovesOne(s, step, maxTries, id);
    }
  }

  // ---------------------------------------------------------------- what is delivered, and how often it was tried

  /** The lookup is for the address it was submitted with. */
  predicate IsSubmitted(s: State, rip: Lookup)
  {
    rip.id < |s.submitted| && s.submitted[rip.id] == rip.ip
  }

  ghost predicate Waiting(s: State, rip: Lookup, maxTries: int)
  {
    && rip.err == "" && IsSubmitted(s, rip)
    && rip.id in s.published && s.published[rip.id] == rip.tries <= maxTries
  }

  /** Lookups under way have no error and as many tries as publications; what is delivered
      or cached DNS once gave, and each is for the address it was submitted with. */
  ghost predicate Sound(s: State, maxTries: int)
  {
    && (forall r :: r in s.queue ==> Waiting(s, r, maxTries))
    && (forall x :: x in s.workers && (x.Reading? || x.Asking?) ==> Waiting(s, x.rip, maxTries))
    && (forall x :: x in s.workers && x.Caching? ==> (x.ip, x.host) in s.answers)
    && (forall ip :: ip in s.cache ==> (ip, s.cache[ip]) in s.answers)
    && (forall d :: d in s.delivered ==> d.err == "" && IsSubmitted(s, d) && (d.ip, d.host) in s.answers)
    && (forall id :: id in s.published ==> s.published[id] <= maxTries && id < |s.submitted|)
  }

  // A lookup that is nowhere else can be resolved again without disturbing the others.
  lemma RequeuedSound(s: State, rip: Lookup, maxTries: int, pubOk: bool)
    requires Sound(s, maxTries) && IsSubmitted(s, rip)
    requires rip.tries == if rip.id in s.published then s.published[rip.id] else 0
    requires forall r :: r in s.queue ==> r.id != rip.id
    requires forall x :: x in s.workers && (x.Reading? || x.Asking?) ==> x.rip.id != rip.id
    ensures Sound(Requeued(s, rip, maxTries, pubOk), maxTries)
  {
  }

  lemma {:induction false} InCounts(q: seq<Lookup>, r: Lookup)
    requires r in q
    ensures In(q, r.id) >= 1
  {
    if q[0] != r {
      assert r in q[1..];
      InCounts(q[1..], r);
    }
  }

  lemma {:induction false} WithCounts(ws: seq<Worker>, x: Worker)
    requires x in ws && (x.Reading? || x.Asking?)
    ensures With(ws, x.rip.id) >= 1
  {
    if ws[0] != x {
      assert x in ws[1..];
      WithCounts(ws[1..], x);
    }
  }

  // A lookup a worker holds is in no other worker and not in the queue.
  lemma HeldOnce(s: State, w: nat)
    requires OnePlace(s) && w < |s.workers| && (s.workers[w].Reading? || s.workers[w].Asking?)
    ensures var id, ws := s.workers[w].rip.id, s.workers[w := Idle];
            && (forall r :: r in s.queue ==> r.id != id)
            && (forall x :: x in ws && (x.Reading? || x.Asking?) ==> x.rip.id != id)
  {
    var id, ws := s.workers[w].rip.id, s.workers[w := Idle];
    WithSet(s.workers, w, Idle, id);
    assert Places(s, id) <= 1;
    WithCounts(s.workers, s.workers[w]);
    forall r | r in s.queue ensures r.id != id {
      InCounts(s.queue, r);
    }
    forall x | x in ws && (x.Reading? || x.Asking?) ensures x.rip.id != id {
      WithCounts(ws, x);
    }
  }

  lemma SetSound(s: State, w: nat, x: Worker, maxTries: int)
    requires Sound(s, maxTries) && w < |s.workers|
    requires x.Reading? || x.Asking? ==> Waiting(s, x.rip, maxTries)
    requires x.Caching? ==> (x.ip, x.host) in s.answers
    ensures Sound(Set(s, w, x), maxTries)
  {
    forall y | y in s.workers[w := x] ensures y == x || y in s.workers {
      var i :| 0 <= i < |s.workers| && s.workers[w := x][i] == y;
      if i != w {
        assert y == s.workers[i];
      }
    }
  }

  lemma StepKeepsSound(s: State, step: Step, maxTries: int)
    requires Enabled(s, step) && OnePlace(s) && Sound(s, maxTries)
    ensures Sound(Next(s, step, maxTries), maxTries)
  {
    match step
    case Submit(ip, pubOk) =>
      SubmitSound(s, ip, maxTries, pubOk);
    case Lose(i) =>
      LoseSound(s, i, maxTries);
    case Receive(w) =>
      assert s.queue[0] in s.queue;
      SetSound(s, w, Reading(s.queue[0]), maxTries);
      TailSound(Set(s, w, Reading(s.queue[0])), maxTries);
    case Read(w, fails, pubOk) =>
      ReadSound(s, w, fails, pubOk, maxTries);
    case Answer(w, name, pubOk) =>
      AnswerSound(s, w, name, pubOk, maxTries);
    case Write(w, ok) =>
      assert s.workers[w] in s.workers;
      SetSound(s, w, Idle, maxTries);
    case Evict(ip) =>
  }

  lemma TailSound(s: State, maxTries: int)
    requires Sound(s, maxTries) && s.queue != []
    ensures Sound(s.(queue := s.queue[1..]), maxTries)
  {
    var s' := s.(queue := s.queue[1..]);
    assert forall r :: r in s'.queue ==> Waiting(s, r, maxTries);
    assert forall r :: Waiting(s, r, maxTries) ==> Waiting(s', r, maxTries);
  }

  lemma LoseSound(s: State, i: nat, maxTries: int)
    requires Sound(s, maxTries) && i < |s.queue|
    ensures Sound(Next(s, Lose(i), maxTries), maxTries)
  {
    var left := s.queue[..i] + s.queue[i + 1..];
    forall r | r in left ensures r in s.queue {
      var j :| 0 <= j < |left| && left[j] == r;
      assert r == s.queue[if j < i then j else j + 1];
    }
    var s' := Next(s, Lose(i), maxTries);
    assert forall r :: r in s'.queue ==> Waiting(s, r, maxTries);
    assert forall r :: Waiting(s, r, maxTries) ==> Waiting(s', r, maxTries);
  }

  lemma SubmitSound(s: State, ip: Bytes, maxTries: int, pubOk: bool)
    requires Sound(s, maxTries)
    ensures Sound(Next(s, Submit(ip, pubOk), maxTries), maxTries)
  {
    RequeuedSound(s.(submitted := s.submitted + [ip]), Lookup(|s.submitted|, ip, "", "", 0), maxTries, pubOk);
  }

  lemma ReadSound(s: State, w: nat, fails: bool, pubOk: bool, maxTries: int)
    requires Enabled(s, Read(w, fails, pubOk)) && OnePlace(s) && Sound(s, maxTries)
    ensures Sound(Next(s, Read(w, fails, pubOk), maxTries), maxTries)
  {
    var rip := s.workers[w].rip;
    assert s.workers[w] in s.workers && Waiting(s, rip, maxTries);
    SetSound(s, w, Idle, maxTries);
    SetSound(s, w, Asking(rip), maxTries);
    HeldOnce(s, w);
    RequeuedSound(Set(s, w, Idle), rip, maxTries, pubOk);
  }

  lemma AnswerSound(s: State, w: nat, name: Option<string>, pubOk: bool, maxTries: int)
    requires Enabled(s, Answer(w, name, pubOk)) && OnePlace(s) && Sound(s, maxTries)
    ensures Sound(Next(s, Answer(w, name, pubOk), maxTries), maxTries)
  {
    var rip := s.workers[w].rip;
    assert s.workers[w] in s.workers && Waiting(s, rip, maxTries);
    if name.None? {
      SetSound(s, w, Idle, maxTries);
      HeldOnce(s, w);
      RequeuedSound(Set(s, w, Idle), rip.(err := "not found"), maxTries, pubOk);
    } else {
      var s' := s.(answers := s.answers + {(rip.ip, name.value)});
      SetSound(s', w, Caching(rip.ip, name.value), maxTries);
    }
  }

  // ---------------------------------------------------------------- runs

  ghost predicate IsRun(states: seq<State>, steps: seq<Step>, maxTries: int)
  {
    && |states| == |steps| + 1
    && forall i :: 0 <= i < |steps| ==> Enabled(states[i], steps[i]) && states[i + 1] == Next(states[i], steps[i], maxTries)
  }

  // A run without its last step is a run, and the last step leads to its last state.
  lemma RunInit(states: seq<State>, steps: seq<Step>, maxTries: int)
    requires IsRun(states, steps, maxTries) && steps != []
    ensures var n := |steps| - 1;
            && IsRun(states[..n + 1], steps[..n], maxTries) && states[..n + 1][0] == states[0] && states[..n + 1][n] == states[n]
            && Enabled(states[n], steps[n]) && states[n + 1] == Next(states[n], steps[n], maxTries)
  {
  }

  /** Nothing is under way, and what the cache holds from before DNS once gave. */
  ghost predicate Starts(s: State)
  {
    && s.queue == [] && s.delivered == [] && s.dropped == [] && s.submitted == [] && s.published == map[]
    && (forall i :: 0 <= i < |s.workers| ==> s.workers[i].Idle?)
    && forall ip :: ip in s.cache ==> (ip, s.cache[ip]) in s.answers
  }

  // The initial state of the resolver is one, whatever the cache held before.
  lemma InitialStarts(workers: nat, cache: map<Bytes, string>, answers: set<(Bytes, string)>)
    requires forall ip :: ip in cache ==> (ip, cache[ip]) in answers
    ensures Starts(Initial(workers, cache, answers))
  {
  }

  lemma {:induction false} AllIdle(ws: seq<Worker>, maxTries: int)
    requires forall i :: 0 <= i < |ws| ==> ws[i].Idle?
    ensures WorkerSum(ws, maxTries) == 0
    ensures forall id :: With(ws, id) == 0
  {
    if ws != [] {
      AllIdle(ws[1..], maxTries);
    }
  }

  // In every interleaving each lookup is in exactly one place, is published at most maxTries times, and
  // what is delivered has no error and a name that DNS once gave for the address that was submitted.
  lemma {:induction false} EveryRunSound(states: seq<State>, steps: seq<Step>, maxTries: int)
    requires IsRun(states, steps, maxTries) && Starts(states[0])
    ensures OnePlace(states[|steps|]) && Sound(states[|steps|], maxTries)
  {
    if steps == [] {
      AllIdle(states[0].workers, maxTries);
    } else {
      var n := |steps| - 1;
      EveryRunSound(states[..n + 1], steps[..n], maxTries);
      StepKeepsPlace(states[n], steps[n], maxTries);
      StepKeepsSound(states[n], steps[n], maxTries);
    }
  }

  // ---------------------------------------------------------------- why a lookup is dropped

  /** Every publication succeeds, and the queue loses nothing. */
  predicate Reliable(step: Step)
  {
    !step.Lose? && (step.Submit? || step.Read? || step.Answer? ==> step.pubOk)
  }

  function MostTries(maxTries: int): nat { if maxTries < 0 then 0 else maxTries }

  /** All lookups that have been dropped had been published as often as is allowed. */
  ghost predicate AllUsedUp(s: State, maxTries: int)
  {
    forall d :: d in s.dropped ==> d.tries == MostTries(maxTries) + 1 && Publications(s, d.id) == MostTries(maxTries)
  }

  lemma RequeuedUsedUp(s: State, rip: Lookup, maxTries: int)
    requires AllUsedUp(s, maxTries) && rip.tries == Publications(s, rip.id) && 0 <= rip.tries <= MostTries(maxTries)
    requires forall d :: d in s.dropped ==> d.id != rip.id
    ensures AllUsedUp(Requeued(s, rip, maxTries, true), maxTries)
  {
    RequeuedExactly(s, rip, maxTries, true);
  }

  // A lookup that a worker has is not among the dropped ones, and a new one is not either.
  lemma NotDropped(s: State, w: nat)
    requires OnePlace(s) && w < |s.workers| && (s.workers[w].Reading? || s.workers[w].Asking?)
    ensures forall d :: d in s.dropped ==> d.id != s.workers[w].rip.id
  {
    var id := s.workers[w].rip.id;
    assert s.workers[w] in s.workers && Places(s, id) <= 1;
    WithCounts(s.workers, s.workers[w]);
    forall d | d in s.dropped ensures d.id != id {
      InCounts(s.dropped, d);
    }
  }

  lemma NewNotDropped(s: State)
    requires OnePlace(s)
    ensures forall d :: d in s.dropped ==> d.id != |s.submitted|
  {
    assert Places(s, |s.submitted|) == 0;
    forall d | d in s.dropped ensures d.id != |s.submitted| {
      InCounts(s.dropped, d);
    }
  }

  lemma StepUsedUp(s: State, step: Step, maxTries: int)
    requires Enabled(s, step) && Reliable(step) && OnePlace(s) && Sound(s, maxTries) && AllUsedUp(s, maxTries)
    ensures AllUsedUp(Next(s, step, maxTries), maxTries)
  {
    match step
    case Submit(ip, _) =>
      NewNotDropped(s);
      RequeuedUsedUp(s.(submitted := s.submitted + [ip]), Lookup(|s.submitted|, ip, "", "", 0), maxTries);
    case Read(w, _, _) =>
      assert s.workers[w] in s.workers && Waiting(s, s.workers[w].rip, maxTries);
      NotDropped(s, w);
      RequeuedUsedUp(Set(s, w, Idle), s.workers[w].rip, maxTries);
    case Answer(w, _, _) =>
      assert s.workers[w] in s.workers && Waiting(s, s.workers[w].rip, maxTries);
      NotDropped(s, w);
      RequeuedUsedUp(Set(s, w, Idle), s.workers[w].rip.(err := "not found"), maxTries);
    case _ =>
  }

  // If every publication succeeds and the queue loses nothing, in every interleaving only those lookups are
  // dropped that have been published maxTries times and then failed once more.
  lemma {:induction false} DroppedUsedUp(states: seq<State>, steps: seq<Step>, maxTries: int)
    requires IsRun(states, steps, maxTries) && Starts(states[0])
    requires forall i :: 0 <= i < |steps| ==> Reliable(steps[i])
    ensures AllUsedUp(states[|steps|], maxTries)
  {
    if steps != [] {
      var n := |steps| - 1;
      RunInit(states, steps, maxTries);
      assert forall i :: 0 <= i < n ==> steps[..n][i] == steps[i];
      DroppedUsedUp(states[..n + 1], steps[..n], maxTries);
      EveryRunSound(states[..n + 1], steps[..n], maxTries);
      assert Reliable(steps[n]);
      StepUsedUp(states[n], steps[n], maxTries);
    }
  }

  // ---------------------------------------------------------------- an empty name in the cache

  // A look into the cache ends the try, with neither a result nor a question to DNS, if and only if it
  // fails or finds an empty name.
  lemma ReadInVain(s: State, w: nat, fails: bool, pubOk: bool, maxTries: int)
    requires Enabled(s, Read(w, fails, pubOk))
    ensures var ip, s' := s.workers[w].rip.ip, Next(s, Read(w, fails, pubOk), maxTries);
            s'.delivered == s.delivered && s'.workers[w].Idle? <==> fails || (ip in s.cache && s.cache[ip] == "")
  {
  }

  /** The cache has an empty name for the address, and no worker is asking DNS for it. */
  ghost predicate OnlyEmpty(s: State, ip: Bytes)
  {
    && ip in s.cache && s.cache[ip] == ""
    && forall x :: x in s.workers && x.Asking? ==> x.rip.ip != ip
  }

  /** Every lookup of the address that is delivered in the second state was in the first. */
  ghost predicate NothingNew(s: State, s': State, ip: Bytes)
  {
    forall d :: d in s'.delivered && d.ip == ip ==> d in s.delivered
  }

  lemma StepOnlyEmpty(s: State, step: Step, maxTries: int, ip: Bytes)
    requires Enabled(s, step) && OnlyEmpty(s, ip)
    requires var s' := Next(s, step, maxTries); ip in s'.cache && s'.cache[ip] == ""
    ensures OnlyEmpty(Next(s, step, maxTries), ip) && NothingNew(s, Next(s, step, maxTries), ip)
  {
    var s' := Next(s, step, maxTries);
    if step.Read? || step.Answer? {
      assert s.workers[step.w] in s.workers;
    }
    forall x | x in s'.workers && x.Asking? ensures x.rip.ip != ip {
      var i :| 0 <= i < |s'.workers| && s'.workers[i] == x;
      if s.workers[i] == x {
        assert x in s.workers;
      }
    }
  }

  // As long as an empty name stays in the cache, no lookup of its address is delivered, once nobody asks
  // DNS for it any more: every try is in vain until there are none left.
  lemma {:induction false} EmptyNameDeliversNothing(states: seq<State>, steps: seq<Step>, maxTries: int, ip: Bytes)
    requires IsRun(states, steps, maxTries) && OnlyEmpty(states[0], ip)
    requires forall i :: 0 <= i < |states| ==> ip in states[i].cache && states[i].cache[ip] == ""
    ensures OnlyEmpty(states[|steps|], ip) && NothingNew(states[0], states[|steps|], ip)
  {
    if steps != [] {
      var n := |steps| - 1;
      RunInit(states, steps, maxTries);
      EmptyNameDeliversNothing(states[..n + 1], steps[..n], maxTries, ip);
      assert states[n + 1] == Next(states[n], steps[n], maxTries);
      StepOnlyEmpty(states[n], steps[n], maxTries, ip);
    }
  }

  // ---------------------------------------------------------------- termination

  /** How far a lookup can still go: six stages for every try it has left. */
  function Rank(rip: Lookup, stage: nat, maxTries: int): nat
  {
    stage + if rip.tries < maxTries then 6 * (maxTries - rip.tries) else 0
  }

  function WorkerRank(x: Worker, maxTries: int): nat
  {
    match x
    case Idle => 0
    case Reading(rip) => Rank(rip, 4, maxTries)
    case Asking(rip) => Rank(rip, 3, maxTries)
    case Caching(_, _) => 1
  }

  function QueueSum(q: seq<Lookup>, maxTries: int): nat
  {
    if q == [] then 0 else Rank(q[0], 5, maxTries) + QueueSum(q[1..], maxTries)
  }

  function WorkerSum(ws: seq<Worker>, maxTries: int): nat
  {
    if ws == [] then 0 else WorkerRank(ws[0], maxTries) + WorkerSum(ws[1..], maxTries)
  }

  function Work(s: State, maxTries: int): nat
  {
    QueueSum(s.queue, maxTries) + WorkerSum(s.workers, maxTries)
  }

  lemma {:induction false} QueueSumAppend(q: seq<Lookup>, x: Lookup, maxTries: int)
    ensures QueueSum(q + [x], maxTries) == QueueSum(q, maxTries) + Rank(x, 5, maxTries)
  {
    if q == [] {
      assert q + [x] == [x];
    } else {
      QueueSumAppend(q[1..], x, maxTries);
      assert (q + [x])[1..] == q[1..] + [x];
    }
  }

  lemma {:induction false} QueueSumRemove(q: seq<Lookup>, i: nat, maxTries: int)
    requires i < |q|
    ensures QueueSum(q, maxTries) == QueueSum(q[..i] + q[i + 1..], maxTries) + Rank(q[i], 5, maxTries)
  {
    if i == 0 {
      assert q[..0] + q[1..] == q[1..];
    } else {
      QueueSumRemove(q[1..], i - 1, maxTries);
      assert (q[..i] + q[i + 1..])[1..] == q[1..][..i - 1] + q[1..][i..];
    }
  }

  lemma {:induction false} WorkerSumSet(ws: seq<Worker>, w: nat, x: Worker, maxTries: int)
    requires w < |ws|
    ensures WorkerSum(ws[w := x], maxTries) == WorkerSum(ws, maxTries) - WorkerRank(ws[w], maxTries) + WorkerRank(x, maxTries)
  {
    if w == 0 {
      assert ws[0 := x][1..] == ws[1..];
    } else {
      WorkerSumSet(ws[1..], w - 1, x, maxTries);
      assert ws[w := x][1..] == ws[1..][w - 1 := x];
    }
  }

  // Resolving again costs less than half a try, and what is left is one try less.
  lemma RequeuedWork(s: State, rip: Lookup, maxTries: int, pubOk: bool)
    ensures Work(Requeued(s, rip, maxTries, pubOk), maxTries)
         <= Work(s, maxTries) + if rip.tries < maxTries then 6 * (maxTries - rip.tries) - 1 else 0
  {
    QueueSumAppend(s.queue, rip.(tries := rip.tries + 1, err := ""), maxTries);
  }

  // Every step but a submission and the expiry of a cache entry uses up some of the work left.
  lemma StepUsesWork(s: State, step: Step, maxTries: int)
    requires Enabled(s, step) && !step.Submit? && !step.Evict?
    ensures Work(Next(s, step, maxTries), maxTries) < Work(s, maxTries)
  {
    match step
    case Lose(i) =>
      QueueSumRemove(s.queue, i, maxTries);
    case Receive(w) =>
      WorkerSumSet(s.workers, w, Reading(s.queue[0]), maxTries);
    case Read(w, _, pubOk) =>
      WorkerSumSet(s.workers, w, Idle, maxTries);
      WorkerSumSet(s.workers, w, Asking(s.workers[w].rip), maxTries);
      RequeuedWork(Set(s, w, Idle), s.workers[w].rip, maxTries, pubOk);
    case Answer(w, name, pubOk) =>
      var rip := s.workers[w].rip;
      WorkerSumSet(s.workers, w, Idle, maxTries);
      WorkerSumSet(s.workers, w, Caching(rip.ip, if name.Some? then name.value else ""), maxTries);
      RequeuedWork(Set(s, w, Idle), rip.(err := "not found"), maxTries, pubOk);
    case Write(w, _) =>
      WorkerSumSet(s.workers, w, Idle, maxTries);
  }

  function Submissions(steps: seq<Step>): nat
  {
    if steps == [] then 0 else Submissions(steps[..|steps| - 1]) + if steps[|steps| - 1].Submit? then 1 else 0
  }

  function Moves(steps: seq<Step>): nat
  {
    if steps == [] then 0
    else Moves(steps[..|steps| - 1]) + if steps[|steps| - 1].Submit? || steps[|steps| - 1].Evict? then 0 else 1
  }

  function Budget(submissions: nat, maxTries: nat): nat
  {
    if submissions == 0 then 0 else Budget(submissions - 1, maxTries) + 6 * maxTries
  }

  lemma {:induction false} BudgetIs(submissions: nat, maxTries: nat)
    ensures Budget(submissions, maxTries) == 6 * maxTries * submissions
  {
    if submissions > 0 {
      BudgetIs(submissions - 1, maxTries);
      var a := 6 * maxTries;
      assert a * submissions == a * (submissions - 1) + a;
    }
  }

  lemma StepWork(s: State, step: Step, maxTries: nat)
    requires Enabled(s, step)
    ensures Work(Next(s, step, maxTries), maxTries) + (if step.Submit? || step.Evict? then 0 else 1)
         <= Work(s, maxTries) + if step.Submit? then 6 * maxTries else 0
  {
    if step.Submit? {
      RequeuedWork(s.(submitted := s.submitted + [step.ip]), Lookup(|s.submitted|, step.ip, "", "", 0), maxTries, step.pubOk);
    } else if !step.Evict? {
      StepUsesWork(s, step, maxTries);
    }
  }

  // One more step needs no more than it adds to the budget.
  lemma StepInBudget(s: State, steps: seq<Step>, step: Step, maxTries: nat)
    requires Enabled(s, step) && Moves(steps) + Work(s, maxTries) <= Budget(Submissions(steps), maxTries)
    ensures Moves(steps + [step]) + Work(Next(s, step, maxTries), maxTries) <= Budget(Submissions(steps + [step]), maxTries)
  {
    assert (steps + [step])[..|steps|] == steps;
    StepWork(s, step, maxTries);
  }

  lemma {:induction false} MovesInBudget(states: seq<State>, steps: seq<Step>, maxTries: nat)
    requires IsRun(states, steps, maxTries) && Starts(states[0])
    ensures Moves(steps) + Work(states[|steps|], maxTries) <= Budget(Submissions(steps), maxTries)
  {
    if steps == [] {
      AllIdle(states[0].workers, maxTries);
    } else {
      var n := |steps| - 1;
      RunInit(states, steps, maxTries);
      MovesInBudget(states[..n + 1], steps[..n], maxTries);
      StepInBudget(states[n], steps[..n], steps[n], maxTries);
      assert steps == steps[..n] + [steps[n]];
    }
  }

  // So all workers together make at most 6 * maxTries moves for each submitted lookup.
  lemma MovesBounded(states: seq<State>, steps: seq<Step>, maxTries: nat)
    requires IsRun(states, steps, maxTries) && Starts(states[0])
    ensures Moves(steps) <= 6 * maxTries * Submissions(steps)
  {
    MovesInBudget(states, steps, maxTries);
    BudgetIs(Submissions(steps), maxTries);
  }
}
