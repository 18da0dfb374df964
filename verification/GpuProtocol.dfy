/** Any number of concurrent `orchestrate` calls over one lock, under an adversary that
    schedules, times out and cancels. One event is the code between two suspension points. */
module GpuProtocol {
  import opened Basics
  import opened OrchestrationLock

  /** What the runtime may do. `inline`: `wait_for` runs `acquire` in the calling task.
      `lateTimeout`, `lateCancel`: a timeout, or an outside cancellation, can surface after
      `acquire` has succeeded and before the caller sets `acquired`. */
  datatype Env = Env(inline: bool, lateTimeout: bool, lateCancel: bool)

  datatype Outcome = NotStarted | Returned | Failed | GpuBusy | PipelineTimeout | Cancelled | ReleaseError

  datatype Pc = Outside(outcome: Outcome) | Waiting | Granted | Region

  /** One task; the counters describe its latest `orchestrate` call. */
  datatype Call = Call(pc: Pc, entered: nat, taken: nat, freed: nat)

  datatype System = System(lock: LockState, calls: seq<Call>, takes: nat, frees: nat)

  datatype Event =
    | Enter
    | Grant
    | GrantThenCancelled(byTimeout: bool)
    | QueueTimeout
    | QueueCancel
    | Proceed
    | LateTimeout
    | LateCancel
    | Finish(how: Outcome)

  datatype Move = Move(call: nat, event: Event)

  function RunnerOf(env: Env, t: nat): Runner {
    if env.inline then Caller(t) else Child(t)
  }

  function Init(n: nat): System {
    System(FREE, seq(n, _ => Call(Outside(NotStarted), 0, 0, 0)), 0, 0)
  }

  /** Leave `orchestrate` with the lock as `l`. */
  function Exit(s: System, t: nat, l: LockState, took: nat, outcome: Outcome): System
    requires t < |s.calls|
  {
    var c := s.calls[t];
    var freed := if (s.lock.locked || took == 1) && !l.locked then 1 else 0;
    System(l, s.calls[t := Call(Outside(outcome), c.entered, c.taken + took, c.freed + freed)],
           s.takes + took, s.frees + freed)
  }

  /** None when the event is not enabled. */
  function Step(env: Env, s: System, m: Move): Option<System> {
    var t := m.call;
    if t >= |s.calls| then None else
    var c := s.calls[t];
    match m.event
    case Enter =>
      if c.pc.Outside? then Some(s.(calls := s.calls[t := Call(Waiting, 0, 0, 0)])) else None
    case Grant =>
      if c.pc.Waiting? && !s.lock.locked then
        Some(System(AfterAcquire(s.lock, RunnerOf(env, t), Took),
                    s.calls[t := c.(pc := Granted, taken := c.taken + 1)], s.takes + 1, s.frees))
      else None
    case GrantThenCancelled(byTimeout) =>
      if c.pc.Waiting? && !s.lock.locked then
        var l := AfterAcquire(s.lock, RunnerOf(env, t), TookThenCancelled);
        Some(if byTimeout then Exit(s, t, OnLateTimeout(l, t), 1, GpuBusy) else Exit(s, t, l, 1, Cancelled))
      else None
    case QueueTimeout =>
      if c.pc.Waiting? then
        var l := AfterAcquire(s.lock, RunnerOf(env, t), CancelledInQueue);
        Some(Exit(s, t, OnLateTimeout(l, t), 0, GpuBusy))
      else None
    case QueueCancel =>
      if c.pc.Waiting? then
        Some(Exit(s, t, AfterAcquire(s.lock, RunnerOf(env, t), CancelledInQueue), 0, Cancelled))
      else None
    case Proceed =>
      if c.pc.Granted? then
        Some(s.(calls := s.calls[t := c.(pc := Region, entered := c.entered + 1)]))
      else None
    case LateTimeout =>
      if c.pc.Granted? && env.lateTimeout then
        Some(Exit(s, t, OnLateTimeout(s.lock, t), 0, GpuBusy))
      else None
    case LateCancel =>
      if c.pc.Granted? && env.lateCancel then Some(Exit(s, t, s.lock, 0, Cancelled)) else None
    case Finish(how) =>
      if c.pc.Region? && how in {Returned, Failed, PipelineTimeout, Cancelled} then
        Some(Exit(s, t, FREE, 0, if s.lock.locked then how else ReleaseError))
      else None
  }

  function Run(env: Env, s: System, trace: seq<Move>): Option<System>
    decreases trace
  {
    if trace == [] then Some(s) else
    match Step(env, s, trace[0])
    case None => None
    case Some(s') => Run(env, s', trace[1..])
  }

  ghost predicate Reachable(env: Env, n: nat, s: System) {
    exists trace :: Run(env, Init(n), trace) == Some(s)
  }

  // ---------------------------------------------------------------- the invariant

  /** The runtime never strands a hold: late surprises are either impossible, or are timeouts
      that the owner check in the handler can see. */
  predicate Leakproof(env: Env) {
    !env.lateCancel && (env.inline || !env.lateTimeout)
  }

  predicate Holds(c: Call) {
    c.pc.Granted? || c.pc.Region?
  }

  predicate CallOk(env: Env, c: Call) {
    match c.pc
    case Waiting => c.entered == c.taken == c.freed == 0
    case Granted => c.entered == c.freed == 0 && c.taken == 1
    case Region => c.entered == c.taken == 1 && c.freed == 0
    case Outside(o) =>
      && c.entered <= c.taken <= 1
      && (c.entered == 1 || Leakproof(env) ==> c.freed == c.taken)
      && (o == NotStarted ==> c.taken == c.freed == 0)
      && (o == GpuBusy ==> c.entered == 0)
      && (o in {Returned, Failed, PipelineTimeout} ==> c.entered == c.taken == c.freed == 1)
      && o != ReleaseError
  }

  ghost predicate Inv(env: Env, s: System) {
    && Coupled(s.lock)
    && s.takes == s.frees + (if s.lock.locked then 1 else 0)
    && (forall t :: 0 <= t < |s.calls| ==> CallOk(env, s.calls[t]))
    && (forall t :: 0 <= t < |s.calls| && Holds(s.calls[t]) ==> s.lock.owner == Some(RunnerOf(env, t)))
    && (s.lock.locked && Leakproof(env) ==>
          s.lock.owner.value.call < |s.calls| && Holds(s.calls[s.lock.owner.value.call]))
    && (s.lock.locked ==> s.lock.owner.value == RunnerOf(env, s.lock.owner.value.call))
  }

  /** One call record and the lock change together; every other record stays. */
  lemma UpdateKeepsInv(env: Env, s: System, t: nat, l: LockState, c: Call, took: nat, freed: nat)
    requires Inv(env, s) && t < |s.calls| && CallOk(env, c) && Coupled(l)
    requires took + (if s.lock.locked then 1 else 0) == freed + (if l.locked then 1 else 0)
    requires Holds(c) ==> l.owner == Some(RunnerOf(env, t))
    requires l == s.lock || !s.lock.locked || s.lock.owner == Some(RunnerOf(env, t))
    requires l.locked ==> l.owner.value == RunnerOf(env, l.owner.value.call)
    requires l.locked && l != s.lock ==> l.owner.value.call == t && Holds(c)
    requires l.locked && l == s.lock && l.owner.value.call == t && Leakproof(env) ==> Holds(c)
    ensures Inv(env, System(l, s.calls[t := c], s.takes + took, s.frees + freed))
  {
  }

  lemma ExitKeepsInv(env: Env, s: System, t: nat, l: LockState, took: nat, outcome: Outcome)
    requires Inv(env, s) && t < |s.calls|
    requires took == 0 || (took == 1 && s.calls[t].pc.Waiting? && !s.lock.locked && l == FREE)
    requires outcome != NotStarted && outcome != ReleaseError
    requires var c := s.calls[t];
      match c.pc
      case Waiting =>
        && outcome in {GpuBusy, Cancelled}
        && (l == s.lock || (l == FREE && s.lock.owner == Some(RunnerOf(env, t)) && !Leakproof(env)))
      case Granted => (l == FREE || (l == s.lock && !Leakproof(env))) && outcome in {GpuBusy, Cancelled}
      case Region => l == FREE && outcome != GpuBusy
      case Outside(_) => false
    ensures Inv(env, Exit(s, t, l, took, outcome))
  {
  }

  lemma StepKeepsInv(env: Env, s: System, m: Move)
    requires Inv(env, s) && Step(env, s, m).Some?
    ensures Inv(env, Step(env, s, m).value)
  {
    var t := m.call;
    var c := s.calls[t];
    assert CallOk(env, c);
    assert Holds(c) ==> s.lock.owner == Some(RunnerOf(env, t));
    match m.event
    case Enter => UpdateKeepsInv(env, s, t, s.lock, Call(Waiting, 0, 0, 0), 0, 0);
    case Grant =>
      UpdateKeepsInv(env, s, t, AfterAcquire(s.lock, RunnerOf(env, t), Took),
                     c.(pc := Granted, taken := c.taken + 1), 1, 0);
    case GrantThenCancelled(byTimeout) =>
      ExitKeepsInv(env, s, t, FREE, 1, if byTimeout then GpuBusy else Cancelled);
    case QueueTimeout => ExitKeepsInv(env, s, t, OnLateTimeout(s.lock, t), 0, GpuBusy);
    case QueueCancel => ExitKeepsInv(env, s, t, s.lock, 0, Cancelled);
    case Proceed => UpdateKeepsInv(env, s, t, s.lock, c.(pc := Region, entered := c.entered + 1), 0, 0);
    case LateTimeout => ExitKeepsInv(env, s, t, OnLateTimeout(s.lock, t), 0, GpuBusy);
    case LateCancel => ExitKeepsInv(env, s, t, s.lock, 0, Cancelled);
    case Finish(how) => ExitKeepsInv(env, s, t, FREE, 0, how);
  }

  lemma {:induction false} RunKeepsInv(env: Env, s: System, trace: seq<Move>)
    requires Inv(env, s) && Run(env, s, trace).Some?
    ensures Inv(env, Run(env, s, trace).value)
    ensures |Run(env, s, trace).value.calls| == |s.calls|
    decreases trace
  {
    if trace != [] {
      StepKeepsInv(env, s, trace[0]);
      RunKeepsInv(env, Step(env, s, trace[0]).value, trace[1..]);
    }
  }

  // ---------------------------------------------------------------- main results

  /** In every reachable state, whatever the runtime does: one call at most between grant and
      release; the lock is held iff an owner is recorded; takes and frees differ by the hold. */
  lemma MutualExclusion(env: Env, n: nat, s: System)
    requires Reachable(env, n, s)
    ensures forall t, u :: 0 <= t < u < |s.calls| ==> !(Holds(s.calls[t]) && Holds(s.calls[u]))
    ensures s.lock.locked <==> s.lock.owner.Some?
    ensures s.takes - s.frees == if s.lock.locked then 1 else 0
    ensures forall t :: 0 <= t < |s.calls| && s.calls[t].pc.Region? ==> s.lock.owner == Some(RunnerOf(env, t))
  {
    var trace :| Run(env, Init(n), trace) == Some(s);
    RunKeepsInv(env, Init(n), trace);
  }

  /** The last thing that happened to call `t`. */
  function LastMove(trace: seq<Move>, t: nat): Option<Event> {
    if trace == [] then None
    else
      var later := LastMove(trace[1..], t);
      if later.Some? then later else if trace[0].call == t then Some(trace[0].event) else None
  }

  /** How the caller learns of an ending: GPUBusy for every timeout of the wait, a cancellation
      for every outside cancellation, and what the pipeline did for the rest. */
  predicate Tells(o: Outcome, e: Event) {
    && o != NotStarted && o != ReleaseError
    && (o == GpuBusy <==> e in {QueueTimeout, LateTimeout, GrantThenCancelled(true)})
    && (o == Cancelled <==> e in {QueueCancel, LateCancel, GrantThenCancelled(false), Finish(Cancelled)})
    && (o == Returned <==> e == Finish(Returned))
    && (o == Failed <==> e == Finish(Failed))
    && (o == PipelineTimeout <==> e == Finish(PipelineTimeout))
  }

  lemma StepTells(env: Env, s: System, m: Move)
    requires Inv(env, s) && Step(env, s, m).Some?
    ensures var pc := Step(env, s, m).value.calls[m.call].pc;
      && (pc.Outside? <==> m.event !in {Enter, Grant, Proceed})
      && (pc.Outside? ==> Tells(pc.outcome, m.event))
  {
  }

  lemma {:induction false} RunTells(env: Env, s: System, trace: seq<Move>, t: nat)
    requires Inv(env, s) && Run(env, s, trace).Some? && t < |s.calls|
    ensures t < |Run(env, s, trace).value.calls|
    ensures var (pc, last) := (Run(env, s, trace).value.calls[t].pc, LastMove(trace, t));
      if last.None? then pc == s.calls[t].pc
      else (pc.Outside? <==> last.value !in {Enter, Grant, Proceed}) && (pc.Outside? ==> Tells(pc.outcome, last.value))
    decreases trace
  {
    if trace != [] {
      var s' := Step(env, s, trace[0]).value;
      StepKeepsInv(env, s, trace[0]);
      StepTells(env, s, trace[0]);
      RunTells(env, s', trace[1..], t);
    }
  }

  /** In every run of any number of calls: a call is outside exactly when it never moved or its
      last move was an ending, and then its outcome is that of this ending: GPUBusy exactly for a
      timeout of the wait, Cancelled exactly for an outside cancellation, and returned, failed or
      timed out exactly when the pipeline was. */
  lemma OutcomeTellsEnding(env: Env, n: nat, trace: seq<Move>, t: nat)
    requires Run(env, Init(n), trace).Some? && t < n
    ensures t < |Run(env, Init(n), trace).value.calls|
    ensures var (pc, last) := (Run(env, Init(n), trace).value.calls[t].pc, LastMove(trace, t));
      if last.None? then pc == Outside(NotStarted)
      else (pc.Outside? <==> last.value !in {Enter, Grant, Proceed}) && (pc.Outside? ==> Tells(pc.outcome, last.value))
  {
    RunTells(env, Init(n), trace, t);
  }

  /** A call that ends GPUBusy never entered the pipeline; one that returned, failed or timed
      out inside it entered, took and freed exactly once; no release ever raises. */
  lemma OutcomeAccounting(env: Env, n: nat, s: System, t: nat)
    requires Reachable(env, n, s) && t < |s.calls| && s.calls[t].pc.Outside?
    ensures var c := s.calls[t];
      match c.pc.outcome
      case NotStarted => c.entered == c.taken == c.freed == 0
      case GpuBusy => c.entered == 0
      case Cancelled => c.entered == 1 ==> c.taken == c.freed == 1
      case ReleaseError => false
      case _ => c.entered == c.taken == c.freed == 1
    ensures Leakproof(env) ==> s.calls[t].freed == s.calls[t].taken
  {
    var trace :| Run(env, Init(n), trace) == Some(s);
    RunKeepsInv(env, Init(n), trace);
    assert CallOk(env, s.calls[t]);
  }

  /** A step touches no other call, and frees the lock only when the stepping call's own
      runner is the recorded owner; another call's hold is left bit for bit. */
  lemma ReleasesOnlyOwnHold(env: Env, n: nat, s: System, m: Move)
    requires Reachable(env, n, s) && Step(env, s, m).Some?
    ensures var s' := Step(env, s, m).value;
      && (forall u :: 0 <= u < |s.calls| && u != m.call ==> s'.calls[u] == s.calls[u])
      && (s.lock.locked && s'.lock != s.lock ==> s.lock.owner == Some(RunnerOf(env, m.call)) && s'.lock == FREE)
      && (s.lock.locked && s.lock.owner.Some? && s.lock.owner.value.call != m.call ==> s'.lock == s.lock)
  {
    var trace :| Run(env, Init(n), trace) == Some(s);
    RunKeepsInv(env, Init(n), trace);
  }

  predicate AllOutside(s: System) {
    forall t :: 0 <= t < |s.calls| ==> s.calls[t].pc.Outside?
  }

  /** The lock is free with no owner whenever nobody is inside `orchestrate`, in every
      reachable state of every number of tasks, exactly in the leakproof environments. */
  lemma LockComesBackExactlyWhen(env: Env)
    ensures Leakproof(env) <==> forall n: nat, s :: Reachable(env, n, s) && AllOutside(s) ==> s.lock == FREE
  {
    if Leakproof(env) {
      forall n: nat, s | Reachable(env, n, s) && AllOutside(s)
        ensures s.lock == FREE
      {
        var trace :| Run(env, Init(n), trace) == Some(s);
        RunKeepsInv(env, Init(n), trace);
      }
    } else {
      var s := StrandedHold(env);
      assert Reachable(env, 1, s) && AllOutside(s) && s.lock != FREE;
    }
  }

  /** One task, three events: the hold outlives the call. With `wait_for` wrapping `acquire`
      in its own task (CPython before 3.12) the owner check does not recognise the caller. */
  lemma StrandedHold(env: Env) returns (s: System)
    requires !Leakproof(env)
    ensures Reachable(env, 1, s) && AllOutside(s)
    ensures s.lock == LockState(true, Some(RunnerOf(env, 0)))
  {
    var late := if env.lateCancel then LateCancel else LateTimeout;
    var s0 := Init(1);
    var s1 := Step(env, s0, Move(0, Enter)).value;
    var s2 := Step(env, s1, Move(0, Grant)).value;
    s := Step(env, s2, Move(0, late)).value;
    var t3 := [Move(0, late)];
    var t2 := [Move(0, Grant)] + t3;
    var t1 := [Move(0, Enter)] + t2;
    assert t1[1..] == t2 && t2[1..] == t3 && t3[1..] == [];
    assert Run(env, s2, t3) == Some(s);
    assert Run(env, s1, t2) == Some(s);
    assert Run(env, s0, t1) == Some(s);
  }

  predicate NobodyHolds(s: System) {
    forall t :: 0 <= t < |s.calls| ==> !Holds(s.calls[t])
  }

  /** The lock keeps its owner, and nobody gets past the grant, at every step of the trace. */
  predicate Survives(env: Env, s: System, trace: seq<Move>)
    requires Run(env, s, trace).Some?
    decreases trace
  {
    trace == [] ||
    (var s' := Step(env, s, trace[0]).value;
     s'.lock == s.lock && NobodyHolds(s') && Survives(env, s', trace[1..]))
  }

  /** A hold stranded with nobody inside outlives whatever follows exactly when it is recorded
      for a wrapped runner, or the task it is recorded for never queues again and times out. */
  lemma {:induction false} StrandedHoldStaysExactlyWhen(env: Env, s: System, trace: seq<Move>)
    requires Inv(env, s) && s.lock.locked && NobodyHolds(s) && Run(env, s, trace).Some?
    ensures Survives(env, s, trace) <==>
              s.lock.owner.value.Child? || Move(s.lock.owner.value.call, QueueTimeout) !in trace
    decreases trace
  {
    if trace != [] {
      assert trace == [trace[0]] + trace[1..];
      var s' := Step(env, s, trace[0]).value;
      StepKeepsInv(env, s, trace[0]);
      if s'.lock == s.lock {
        StrandedHoldStaysExactlyWhen(env, s', trace[1..]);
      }
    }
  }
}
