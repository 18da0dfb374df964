/** The process-wide GPU lock: an asyncio lock plus the task that took it. */
module OrchestrationLock {
  import opened Basics

  /** The asyncio task a coroutine runs in. `asyncio.wait_for` either awaits `acquire` inside
      the calling task or wraps it in a task of its own; the two never compare equal. */
  datatype Runner = Caller(call: nat) | Child(call: nat)

  datatype LockState = LockState(locked: bool, owner: Option<Runner>)

  const FREE := LockState(false, None)

  /** Held iff an owner is recorded: what every suspension point must find. */
  predicate Coupled(l: LockState) {
    l.locked <==> l.owner.Some?
  }

  /** How the awaited inner `acquire` ends: it took the lock, it took it and was then
      cancelled (BPO-31647), or it was cancelled while still queued. */
  datatype InnerAcquire = Took | TookThenCancelled | CancelledInQueue

  /** The `except CancelledError` branch of `acquire`. */
  function OnCancelled(l: LockState): LockState {
    if l.locked && l.owner.None? then l.(locked := false) else l
  }

  function AfterAcquire(l: LockState, runner: Runner, inner: InnerAcquire): LockState {
    match inner
    case Took => LockState(true, Some(runner))
    case TookThenCancelled => OnCancelled(l.(locked := true))
    case CancelledInQueue => OnCancelled(l)
  }

  /** The caller's `except TimeoutError` branch: release only what this call itself holds. */
  function OnLateTimeout(l: LockState, call: nat): LockState {
    if l.owner == Some(Caller(call)) then FREE else l
  }

  class Lock {
    var locked: bool
    var ownerTask: Option<Runner>

    function State(): LockState
      reads this
    {
      LockState(locked, ownerTask)
    }

    constructor ()
      ensures State() == FREE
    {
      locked, ownerTask := false, None;
    }

    /** `inner` is the adversary's choice; an inner lock is only ever granted while free. A
        cancelled acquire leaves a coupled lock exactly as it was found, whoever holds it. */
    method Acquire(current: Runner, inner: InnerAcquire) returns (acquired: bool)
      requires inner.CancelledInQueue? || !locked
      modifies this
      ensures acquired <==> inner.Took?
      ensures State() == AfterAcquire(old(State()), current, inner)
      ensures Coupled(old(State())) ==> Coupled(State())
      ensures Coupled(old(State())) && !acquired ==> State() == old(State())
    {
      locked := if inner.CancelledInQueue? then locked else true;
      if inner.Took? {
        ownerTask := Some(current);
        return true;
      }
      if locked && ownerTask.None? {
        locked := false;
      }
      return false;
    }

    /** False when the inner lock raises RuntimeError because nobody held it. */
    method Release() returns (ok: bool)
      modifies this
      ensures State() == FREE
      ensures ok == old(locked)
    {
      ownerTask := None;
      ok := locked;
      locked := false;
    }

    method HeldByCurrentTask(current: Runner) returns (held: bool)
      ensures held <==> State().owner == Some(current)
    {
      held := ownerTask.Some? && ownerTask.value == current;
    }

    /** What `orchestrate` does when the wait for `acquire` raises TimeoutError. */
    method ReleaseIfMine(call: nat)
      modifies this
      ensures State() == OnLateTimeout(old(State()), call)
      ensures old(State()).owner != Some(Caller(call)) ==> State() == old(State())
    {
      var held := HeldByCurrentTask(Caller(call));
      if held {
        var _ := Release();
      }
    }
  }
}
