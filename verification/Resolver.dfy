/** The resolver: workers that take addresses from a queue and look up their names, in a cache first. */
module Resolver {
  import opened Data

  /** A lookup on its way. The id tells submissions apart. */
  datatype Lookup = Lookup(id: nat, ip: Bytes, host: string, err: string, tries: int)

  /** Where a worker stands: it has taken a lookup, has missed the cache, or has yet to fill the cache. */
  datatype Worker = Idle | Reading(rip: Lookup) | Asking(rip: Lookup) | Caching(ip: Bytes, host: string)

  datatype State = State(
    queue: seq<Lookup>, workers: seq<Worker>, delivered: seq<Lookup>, dropped: seq<Lookup>,
    cache: map<Bytes, string>,
    submitted: seq<Bytes>,          // the addresses of all lookups so far, by id
    answers: set<(Bytes, string)>,  // every name DNS ever gave, with its address
    published: map<nat, nat>)       // how often each lookup went into the queue

  datatype Step =
    | Submit(ip: Bytes, pubOk: bool)
    | Lose(i: nat)                       // the queue drops a message
    | Receive(w: nat)
    | Read(w: nat, fails: bool, pubOk: bool)
    | Answer(w: nat, name: Option<string>, pubOk: bool)
    | Write(w: nat, ok: bool)
    | Evict(ip: Bytes)                   // a cache entry expires

  /** Resolve: one more try, unless there have been enough. */
  function Requeued(s: State, rip: Lookup, maxTries: int, pubOk: bool): State
  {
    var again := rip.(tries := rip.tries + 1, err := "");
    if again.tries > maxTries then s.(dropped := s.dropped + [again])
    else
      var s' := s.(published := s.published[rip.id := 1 + if rip.id in s.published then s.published[rip.id] else 0]);
      if pubOk then s'.(queue := s.queue + [again]) else s'.(dropped := s.dropped + [again])
  }

  function Delivered(s: State, rip: Lookup, host: string): State
  {
    s.(delivered := s.delivered + [rip.(host := host)])
  }

  function Set(s: State, w: nat, x: Worker): State
    requires w < |s.workers|
  {
    s.(workers := s.workers[w := x])
  }

  predicate Enabled(s: State, step: Step)
  {
    match step
    case Submit(_, _) => true
    case Lose(i) => i < |s.queue|
    case Receive(w) => w < |s.workers| && s.workers[w].Idle? && s.queue != []
    case Read(w, _, _) => w < |s.workers| && s.workers[w].Reading?
    case Answer(w, _, _) => w < |s.workers| && s.workers[w].Asking?
    case Write(w, _) => w < |s.workers| && s.workers[w].Caching?
    case Evict(ip) => ip in s.cache
  }

  function Next(s: State, step: Step, maxTries: int): State
    requires Enabled(s, step)
  {
    match step
    case Submit(ip, pubOk) =>
      Requeued(s.(submitted := s.submitted + [ip]), Lookup(|s.submitted|, ip, "", "", 0), maxTries, pubOk)
    case Lose(i) =>
      s.(queue := s.queue[..i] + s.queue[i + 1..], dropped := s.dropped + [s.queue[i]])
    case Receive(w) =>
      Set(s, w, Reading(s.queue[0])).(queue := s.queue[1..])
    case Read(w, fails, pubOk) =>
      var rip := s.workers[w].rip;
      if !fails && rip.ip in s.cache && s.cache[rip.ip] != "" then Delivered(Set(s, w, Idle), rip, s.cache[rip.ip])
      else if !fails && rip.ip !in s.cache then Set(s, w, Asking(rip))
      else Requeued(Set(s, w, Idle), rip, maxTries, pubOk)
    case Answer(w, name, pubOk) =>
      var rip := s.workers[w].rip;
      if name.None? then Requeued(Set(s, w, Idle), rip.(err := "not found"), maxTries, pubOk)
      else Delivered(Set(s, w, Caching(rip.ip, name.value)), rip, name.value).(answers := s.answers + {(rip.ip, name.value)})
    case Write(w, ok) =>
      var worker := s.workers[w];
      Set(s, w, Idle).(cache := if ok then s.cache[worker.ip := worker.host] else s.cache)
    case Evict(ip) =>
      s.(cache := s.cache - {ip})
  }

  /** The object behind a lookup; a lookup that goes through the queue is copied. */
  class IPResolv {
    const id: nat
    const ip: Bytes
    var host: string
    var err: string
    var tries: int

    constructor (id: nat, ip: Bytes)
      ensures Value() == Lookup(id, ip, "", "", 0)
    {
      this.id, this.ip, host, err, tries := id, ip, "", "", 0;
    }

    function Value(): Lookup
      reads this
    {
      Lookup(id, ip, host, err, tries)
    }
  }

  class Resolver {
    var state: State
    const maxTries: int

    constructor (maxTries: int, workers: nat, cache: map<Bytes, string>, answers: set<(Bytes, string)>)
      ensures state == Initial(workers, cache, answers) && this.maxTries == maxTries
    {
      state := Initial(workers, cache, answers);
      this.maxTries := maxTries;
    }

    /** Puts a lookup into the queue once more, with its error cleared, until its tries are used up. */
    method Resolve(rip: IPResolv, pubOk: bool)
      modifies this, rip
      ensures state == Requeued(old(state), old(rip.Value()), maxTries, pubOk)
      ensures rip.Value() == old(rip.Value()).(tries := old(rip.tries) + 1, err := "")
      ensures var goes := old(rip.tries) < maxTries && pubOk;
              && state.queue == (if goes then old(state.queue) + [rip.Value()] else old(state.queue))
              && state.dropped == (if goes then old(state.dropped) else old(state.dropped) + [rip.Value()])
    {
      RequeuedExactly(state, rip.Value(), maxTries, pubOk);
      rip.tries := rip.tries + 1;
      rip.err := "";
      if rip.tries > maxTries {
        state := state.(dropped := state.dropped + [rip.Value()]);
        return;
      }
      var n := if rip.id in state.published then state.published[rip.id] else 0;
      state := state.(published := state.published[rip.id := 1 + n]);
      if pubOk {
        state := state.(queue := state.queue + [rip.Value()]);
      } else {
        state := state.(dropped := state.dropped + [rip.Value()]);
      }
    }

    /** A lookup that no other worker interferes with is the worker's steps one after the other. */
    method ReverseLookup(w: nat, rip: IPResolv, fails: bool, name: Option<string>, pubOk: bool, writeOk: bool)
      requires w < |state.workers| && state.workers[w] == Reading(rip.Value())
      modifies this, rip
      ensures state == Looked(old(state), w, fails, name, pubOk, writeOk, maxTries)
      ensures state.workers == old(state.workers)[w := Idle]
    {
      LookedCases(state, w, fails, name, pubOk, writeOk, maxTries);
      state := state.(workers := state.workers[w := Idle]);
      if !fails && rip.ip in state.cache {
        var resData := state.cache[rip.ip];
        if |resData| > 0 {
          Deliver(rip, resData);
          return;
        }
      }
      if !fails && rip.ip !in state.cache {
        AskDNS(w, rip, name, pubOk, writeOk);
      } else {
        Resolve(rip, pubOk);
      }
    }

    /** Sends the lookup with its name to the output channel. */
    method Deliver(rip: IPResolv, host: string)
      modifies this, rip
      ensures state == Delivered(old(state), old(rip.Value()), host)
      ensures rip.Value() == old(rip.Value()).(host := host)
    {
      rip.host := host;
      state := state.(delivered := state.delivered + [rip.Value()]);
    }

    /** The cache does not have the name: DNS is asked, and its answer delivered and then cached. */
    method AskDNS(w: nat, rip: IPResolv, name: Option<string>, pubOk: bool, writeOk: bool)
      requires w < |state.workers| && state.workers[w] == Idle
      modifies this, rip
      ensures state == Asked(old(state), w, old(rip.Value()), name, pubOk, writeOk, maxTries)
      ensures state.workers == old(state.workers)
    {
      AskedCases(state, w, rip.Value(), name, pubOk, writeOk, maxTries);
      if name.None? {
        rip.err := "not found";
        Resolve(rip, pubOk);
        return;
      }
      Deliver(rip, name.value);
      state := state.(answers := state.answers + {(rip.ip, name.value)});
      if writeOk {
        state := state.(cache := state.cache[rip.ip := name.value]);
      }
    }
  }

  // A lookup whose tries are not used up, and that can be published, is then at the end of the queue, with
  // one more try; otherwise it is dropped, and nothing else changes but the number of its publications.
  lemma RequeuedExactly(s: State, rip: Lookup, maxTries: int, pubOk: bool)
    ensures var s', again, goes := Requeued(s, rip, maxTries, pubOk), Lookup(rip.id, rip.ip, rip.host, "", rip.tries + 1),
                                   rip.tries < maxTries && pubOk;
            && s'.queue == (if goes then s.queue + [again] else s.queue)
            && s'.dropped == (if goes then s.dropped else s.dropped + [again])
            && (forall id :: Publications(s', id) == Publications(s, id) + if id == rip.id && rip.tries < maxTries then 1 else 0)
            && s' == s.(queue := s'.queue, dropped := s'.dropped, published := s'.published)
  {
  }

  /** How often the lookup has been published. */
  function Publications(s: State, id: nat): nat
  {
    if id in s.published then s.published[id] else 0
  }

  // What the steps of a lookup come to when the worker takes them one after the other.
  lemma LookedCases(s: State, w: nat, fails: bool, name: Option<string>, pubOk: bool, writeOk: bool, maxTries: int)
    requires w < |s.workers| && s.workers[w].Reading?
    ensures var rip, idle := s.workers[w].rip, Set(s, w, Idle);
            Looked(s, w, fails, name, pubOk, writeOk, maxTries)
            == if !fails && rip.ip in s.cache && s.cache[rip.ip] != "" then Delivered(idle, rip, s.cache[rip.ip])
               else if !fails && rip.ip !in s.cache then Asked(idle, w, rip, name, pubOk, writeOk, maxTries)
               else Requeued(idle, rip, maxTries, pubOk)
  {
    var rip := s.workers[w].rip;
    assert Set(Set(s, w, Asking(rip)), w, Idle) == Set(s, w, Idle);
  }

  lemma AskedCases(s: State, w: nat, rip: Lookup, name: Option<string>, pubOk: bool, writeOk: bool, maxTries: int)
    requires w < |s.workers| && s.workers[w] == Idle
    ensures Asked(s, w, rip, name, pubOk, writeOk, maxTries)
         == if name.None? then Requeued(s, rip.(err := "not found"), maxTries, pubOk)
            else Delivered(s, rip, name.value).(answers := s.answers + {(rip.ip, name.value)},
                                                cache := if writeOk then s.cache[rip.ip := name.value] else s.cache)
  {
    assert Set(Set(s, w, Asking(rip)), w, Idle) == s;
    if name.Some? {
      assert Set(Set(Set(s, w, Asking(rip)), w, Caching(rip.ip, name.value)), w, Idle) == s;
    }
  }

  /** The resolver when it starts, with what the cache and DNS have given so far. */
  function Initial(workers: nat, cache: map<Bytes, string>, answers: set<(Bytes, string)>): State
  {
    State([], seq(workers, _ => Idle), [], [], cache, [], answers, map[])
  }

  /** All steps of one worker for the lookup it has taken. */
  function Looked(s: State, w: nat, fails: bool, name: Option<string>, pubOk: bool, writeOk: bool, maxTries: int): State
    requires w < |s.workers| && s.workers[w].Reading?
  {
    var s1 := Next(s, Read(w, fails, pubOk), maxTries);
    if s1.workers[w].Asking? then Asked(Set(s1, w, Idle), w, s1.workers[w].rip, name, pubOk, writeOk, maxTries) else s1
  }

  function Asked(s: State, w: nat, rip: Lookup, name: Option<string>, pubOk: bool, writeOk: bool, maxTries: int): State
    requires w < |s.workers|
  {
    var s2 := Next(Set(s, w, Asking(rip)), Answer(w, name, pubOk), maxTries);
    if s2.workers[w].Caching? then Next(s2, Write(w, writeOk), maxTries) else s2
  }
}
