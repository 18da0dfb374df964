/** The signing-key cache: a freshness check, a lock, the same check again, one fetch. */
module JwksRefresh {
  import opened Basics

  const TTL := 24 * 3600

  /** `stamp`: when the cached document was fetched. */
  datatype Cache = Cache(doc: string, stamp: int)

  predicate Fresh(cache: Option<Cache>, now: int) {
    cache.Some? && now - cache.value.stamp < TTL
  }

  // ---------------------------------------------------------------- many callers

  datatype Pc = Idle | Queued(force: bool) | Fetching(force: bool, start: int)

  /** A finished fetch; `stamp` is None when it failed or was cancelled. */
  datatype Fetch = Fetch(force: bool, start: int, stamp: Option<int>)

  /** A document handed out at `at`, and when it had been fetched. */
  datatype Served = Served(force: bool, at: int, stamp: int, doc: string)

  datatype System = System(clock: int, cache: Option<Cache>, lock: Option<nat>, callers: map<nat, Pc>,
                           fetches: seq<Fetch>, served: seq<Served>)

  datatype Event =
    | Tick(seconds: nat)
    | Call(caller: nat, force: bool)
    | Acquire(caller: nat)
    | Finish(caller: nat, answer: Result<string, string>)
    | CancelQueued(caller: nat)

  function PcOf(s: System, c: nat): Pc {
    if c in s.callers then s.callers[c] else Idle
  }

  function Serve(s: System, force: bool): System
    requires s.cache.Some?
  {
    s.(served := s.served + [Served(force, s.clock, s.cache.value.stamp, s.cache.value.doc)])
  }

  function Apply(s: System, e: Event): System {
    match e
    case Tick(n) => s.(clock := s.clock + n)
    case Call(c, force) =>
      if !PcOf(s, c).Idle? then s
      else if !force && Fresh(s.cache, s.clock) then Serve(s, force)
      else s.(callers := s.callers[c := Queued(force)])
    case Acquire(c) =>
      if !PcOf(s, c).Queued? || s.lock.Some? then s
      else
        var force := PcOf(s, c).force;
        if !force && Fresh(s.cache, s.clock) then Serve(s.(callers := s.callers[c := Idle]), force)
        else s.(lock := Some(c), callers := s.callers[c := Fetching(force, s.clock)])
    case Finish(c, answer) =>
      if !PcOf(s, c).Fetching? then s
      else
        var Fetching(force, start) := PcOf(s, c);
        var out := s.(lock := None, callers := s.callers[c := Idle]);
        if answer.Err? then out.(fetches := s.fetches + [Fetch(force, start, None)])
        else
          Serve(out.(cache := Some(Cache(answer.value, s.clock)),
                     fetches := s.fetches + [Fetch(force, start, Some(s.clock))]), force)
    case CancelQueued(c) =>
      if PcOf(s, c).Queued? then s.(callers := s.callers[c := Idle]) else s
  }

  function Begin(clock: int): System {
    System(clock, None, None, map[], [], [])
  }

  function Run(s: System, trace: seq<Event>): System {
    if trace == [] then s else Apply(Run(s, trace[..|trace| - 1]), trace[|trace| - 1])
  }

  // ---------------------------------------------------------------- one caller among others

  predicate Others(trace: seq<Event>, c: nat) {
    forall e :: e in trace ==> e.Tick? || e.caller != c
  }

  lemma {:induction false} OthersLeave(s: System, trace: seq<Event>, c: nat)
    requires Others(trace, c)
    ensures PcOf(Run(s, trace), c) == PcOf(s, c)
  {
    if trace != [] {
      assert trace[|trace| - 1] in trace;
      OthersLeave(s, trace[..|trace| - 1], c);
    }
  }

  /** What a call is waiting for: the lock, then the endpoint's answer. */
  function AtLock(s: System, c: nat, force: bool, waiting: seq<Event>): System {
    Run(Apply(s, Call(c, force)), waiting)
  }

  function AtAnswer(s: System, c: nat, force: bool, waiting: seq<Event>, during: seq<Event>): System {
    Run(Apply(AtLock(s, c, force, waiting), Acquire(c)), during)
  }

  class KeySet {
    var clock: int
    var cache: Option<Cache>
    var lock: Option<nat>
    var callers: map<nat, Pc>
    var fetches: seq<Fetch>
    var served: seq<Served>

    function View(): System
      reads this
    {
      System(clock, cache, lock, callers, fetches, served)
    }

    constructor (clock: int)
      ensures View() == Begin(clock)
    {
      this.clock, cache, lock, callers, fetches, served := clock, None, None, map[], [], [];
    }

    /** The caller is suspended; everybody else moves. */
    method Suspend(others: seq<Event>)
      modifies this
      ensures View() == Run(old(View()), others)
    {
      var s := Run(View(), others);
      clock, cache, lock, callers, fetches, served := s.clock, s.cache, s.lock, s.callers, s.fetches, s.served;
    }

    /** The endpoint has answered: the lock goes in any case, only a success is stored. */
    method Conclude(c: nat, answer: Result<string, string>) returns (r: Result<string, string>)
      requires PcOf(View(), c).Fetching?
      modifies this
      ensures View() == Apply(old(View()), Finish(c, answer)) && r == answer
    {
      var Fetching(force, start) := callers[c];
      lock, callers := None, callers[c := Idle];
      if answer.Err? {
        fetches := fetches + [Fetch(force, start, None)];
        return answer;
      }
      cache, fetches := Some(Cache(answer.value, clock)), fetches + [Fetch(force, start, Some(clock))];
      served := served + [Served(force, clock, clock, answer.value)];
      return answer;
    }

    /** One whole call of `c`, with anything happening in its two waits: `waiting` until the lock
        is free, `during` the request. It takes the steps of the protocol below in their order,
        and returns what is cached at the check that succeeds, or else the endpoint's answer. */
    method FetchJwks(c: nat, force: bool, waiting: seq<Event>, during: seq<Event>, answer: Result<string, string>)
      returns (r: Result<string, string>)
      requires PcOf(View(), c).Idle? && Others(waiting, c) && Others(during, c)
      requires force || !Fresh(cache, clock) ==> AtLock(View(), c, force, waiting).lock.None?
      modifies this
      ensures var first := !force && Fresh(old(cache), old(clock));
        var there := AtLock(old(View()), c, force, waiting);
        var second := !first && !force && Fresh(there.cache, there.clock);
        && (first ==> View() == Apply(old(View()), Call(c, force)) && r == Ok(old(cache).value.doc))
        && (second ==> View() == Apply(there, Acquire(c)) && r == Ok(there.cache.value.doc))
        && (!first && !second ==>
              View() == Apply(AtAnswer(old(View()), c, force, waiting, during), Finish(c, answer)) && r == answer)
      ensures PcOf(View(), c).Idle? && (r.Ok? ==> cache.Some? && r == Ok(cache.value.doc) && Fresh(cache, clock))
    {
      if !force && Fresh(cache, clock) {
        served := served + [Served(force, clock, cache.value.stamp, cache.value.doc)];
        return Ok(cache.value.doc);
      }
      callers := callers[c := Queued(force)];
      OthersLeave(View(), waiting, c);
      Suspend(waiting);
      lock := Some(c);
      if !force && Fresh(cache, clock) {
        lock, callers := None, callers[c := Idle];
        served := served + [Served(force, clock, cache.value.stamp, cache.value.doc)];
        return Ok(cache.value.doc);
      }
      callers := callers[c := Fetching(force, clock)];
      OthersLeave(View(), during, c);
      Suspend(during);
      r := Conclude(c, answer);
    }
  }

  // ---------------------------------------------------------------- the invariant

  /** Stale when a fetch that nobody forced began. */
  predicate StartedStale(s: System, pc: Pc)
    requires pc.Fetching?
  {
    && pc.start <= s.clock
    && (!pc.force && s.cache.Some? ==> pc.start - s.cache.value.stamp >= TTL)
  }

  predicate Spaced(a: Fetch, b: Fetch) {
    a.stamp.Some? && b.stamp.Some? ==>
      && a.stamp.value <= b.stamp.value
      && (!b.force ==> b.start >= a.stamp.value + TTL && b.stamp.value >= a.stamp.value + TTL)
  }

  ghost predicate Inv(s: System) {
    && (forall c: nat :: PcOf(s, c).Fetching? <==> s.lock == Some(c))
    && (forall c: nat :: PcOf(s, c).Fetching? ==> StartedStale(s, PcOf(s, c)))
    && (s.cache.Some? ==> s.cache.value.stamp <= s.clock)
    && (forall f :: f in s.fetches && f.stamp.Some? ==> s.cache.Some? && f.stamp.value <= s.cache.value.stamp)
    && (forall i, j :: 0 <= i < j < |s.fetches| ==> Spaced(s.fetches[i], s.fetches[j]))
    && (forall v :: v in s.served ==> v.stamp <= v.at && (v.at - v.stamp < TTL))
  }

  lemma FinishKeepsInv(s: System, c: nat, answer: Result<string, string>)
    requires Inv(s) && PcOf(s, c).Fetching?
    ensures Inv(Apply(s, Finish(c, answer)))
  {
  }

  lemma StepKeepsInv(s: System, e: Event)
    requires Inv(s)
    ensures Inv(Apply(s, e))
  {
    var s' := Apply(s, e);
    match e
    case Finish(c, answer) => if PcOf(s, c).Fetching? { FinishKeepsInv(s, c, answer); }
    case _ =>
      forall c: nat ensures PcOf(s', c).Fetching? <==> s'.lock == Some(c)
               ensures PcOf(s', c).Fetching? ==> StartedStale(s', PcOf(s', c)) {
        assert PcOf(s, c).Fetching? <==> s.lock == Some(c);
      }
  }

  lemma {:induction false} RunKeepsInv(clock: int, trace: seq<Event>)
    ensures Inv(Run(Begin(clock), trace))
  {
    if trace != [] {
      RunKeepsInv(clock, trace[..|trace| - 1]);
      StepKeepsInv(Run(Begin(clock), trace[..|trace| - 1]), trace[|trace| - 1]);
    }
  }

  // ---------------------------------------------------------------- main results

  /** Never two fetches at once, under any interleaving of callers, failures and cancellations. */
  lemma SingleFlight(clock: int, trace: seq<Event>, c: nat, d: nat)
    requires var s := Run(Begin(clock), trace); PcOf(s, c).Fetching? && PcOf(s, d).Fetching?
    ensures c == d
  {
    RunKeepsInv(clock, trace);
    var s := Run(Begin(clock), trace);
    assert s.lock == Some(c) && s.lock == Some(d);
  }

  /** A fetch nobody forced begins a full TTL after every earlier success, so two successes of
      which the later is unforced are stamped a TTL apart: one per window, however many callers
      were waiting when the cache expired. */
  lemma OneUnforcedRefreshPerWindow(clock: int, trace: seq<Event>, i: nat, j: nat)
    requires var s := Run(Begin(clock), trace);
      && i < j < |s.fetches| && s.fetches[i].stamp.Some? && s.fetches[j].stamp.Some? && !s.fetches[j].force
    ensures var s := Run(Begin(clock), trace);
      && s.fetches[j].start >= s.fetches[i].stamp.value + TTL
      && s.fetches[j].stamp.value >= s.fetches[i].stamp.value + TTL
  {
    RunKeepsInv(clock, trace);
    var s := Run(Begin(clock), trace);
    assert Spaced(s.fetches[i], s.fetches[j]);
  }

  /** An unforced fetch in flight began stale, and whatever is handed out is younger than TTL. */
  lemma NothingStaleIsServed(clock: int, trace: seq<Event>)
    ensures var s := Run(Begin(clock), trace);
      && (forall v :: v in s.served ==> 0 <= v.at - v.stamp < TTL)
      && (forall c: nat :: PcOf(s, c).Fetching? && !PcOf(s, c).force && s.cache.Some? ==>
            PcOf(s, c).start >= s.cache.value.stamp + TTL)
  {
    RunKeepsInv(clock, trace);
    var s := Run(Begin(clock), trace);
    assert forall c: nat :: PcOf(s, c).Fetching? ==> StartedStale(s, PcOf(s, c));
  }

  /** The document a successful end of a fetch brings, and when. */
  function Brings(s: System, e: Event): Option<Cache> {
    if e.Finish? && PcOf(s, e.caller).Fetching? && e.answer.Ok? then Some(Cache(e.answer.value, s.clock)) else None
  }

  /** The latest successful answer of a trace, forced or not. */
  function LatestAnswer(s: System, trace: seq<Event>): Option<Cache> {
    if trace == [] then None
    else
      var brought := Brings(Run(s, trace[..|trace| - 1]), trace[|trace| - 1]);
      if brought.Some? then brought else LatestAnswer(s, trace[..|trace| - 1])
  }

  /** In every run the cache holds the latest answer, stamped when it came. */
  lemma {:induction false} CacheIsLatestAnswer(clock: int, trace: seq<Event>)
    ensures Run(Begin(clock), trace).cache == LatestAnswer(Begin(clock), trace)
  {
    if trace != [] {
      CacheIsLatestAnswer(clock, trace[..|trace| - 1]);
    }
  }

  /** Every document handed out is the latest answer there was at that moment. */
  lemma {:induction false} ServedIsLatestAnswer(clock: int, trace: seq<Event>, i: nat) returns (k: nat)
    requires i < |Run(Begin(clock), trace).served|
    ensures var v := Run(Begin(clock), trace).served[i];
      && k <= |trace| && v.at == Run(Begin(clock), trace[..k]).clock
      && LatestAnswer(Begin(clock), trace[..k]) == Some(Cache(v.doc, v.stamp))
  {
    var front := trace[..|trace| - 1];
    CacheIsLatestAnswer(clock, trace);
    if i < |Run(Begin(clock), front).served| {
      k := ServedIsLatestAnswer(clock, front, i);
      assert front[..k] == trace[..k];
    } else {
      k := |trace|;
      assert trace[..k] == trace;
    }
  }

  lemma IdleStays(s: System, e: Event, c: nat)
    requires PcOf(s, c).Idle? && s.lock != Some(c) && !(e.Call? && e.caller == c)
    ensures PcOf(Apply(s, e), c).Idle? && Apply(s, e).lock != Some(c)
  {
  }

  /** A caller cancelled while it waits for the lock is out, and the lock never comes to it, until
      it calls again. */
  lemma {:induction false} CancelledStaysOut(s: System, c: nat, trace: seq<Event>)
    requires PcOf(s, c).Queued? && s.lock != Some(c)
    requires forall e :: e in trace ==> !(e.Call? && e.caller == c)
    ensures var s' := Run(Apply(s, CancelQueued(c)), trace);
      PcOf(s', c).Idle? && s'.lock != Some(c)
  {
    if trace != [] {
      assert trace[|trace| - 1] in trace;
      CancelledStaysOut(s, c, trace[..|trace| - 1]);
      IdleStays(Run(Apply(s, CancelQueued(c)), trace[..|trace| - 1]), trace[|trace| - 1], c);
    }
  }

  /** Within TTL of a success nobody sends a request unless told to: however many callers were
      waiting for the lock when it landed, and whatever fails or is cancelled meanwhile. */
  lemma {:induction false} SuccessServesTheWaiters(s: System, trace: seq<Event>)
    requires Inv(s) && s.cache.Some? && Run(s, trace).clock - s.cache.value.stamp < TTL
    ensures var s' := Run(s, trace);
      && Inv(s') && s.clock <= s'.clock && Fresh(s'.cache, s'.clock) && s'.cache.value.stamp >= s.cache.value.stamp
      && s.fetches <= s'.fetches
      && (forall i :: |s.fetches| <= i < |s'.fetches| ==> s'.fetches[i].force)
      && (forall c: nat :: PcOf(s', c).Fetching? ==> PcOf(s', c).force)
  {
    if trace != [] {
      var before := Run(s, trace[..|trace| - 1]);
      ClockNeverGoesBack(before, trace[|trace| - 1]);
      SuccessServesTheWaiters(s, trace[..|trace| - 1]);
      StepKeepsInv(before, trace[|trace| - 1]);
    }
  }

  lemma ClockNeverGoesBack(s: System, e: Event)
    ensures s.clock <= Apply(s, e).clock
  {
  }
}
