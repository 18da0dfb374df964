/** Handlers against the purge, however operations overlap: what the two time guards buy. */
module UploadDeadline {
  import opened Sessions
  import opened UploadLifecycle

  /** The two guards never hold together and one of them always does. */
  lemma GuardsAreComplements(s: System, id: nat)
    requires id in s.sessions
    ensures Open(s, id) <==> !Overdue(s, id)
  {
  }

  /** A handler commits no later than its session's expiry plus grace. */
  predicate TimelyStep(s: System, e: Event) {
    e.Commit? && e.task in s.flights && !s.flights[e.task].op.Purge? && s.flights[e.task].op.id in s.sessions ==>
      Open(s, s.flights[e.task].op.id)
  }

  predicate Timely(s: System, trace: seq<Event>) {
    trace == [] ||
    (Timely(s, trace[..|trace| - 1]) && TimelyStep(Run(s, trace[..|trace| - 1]), trace[|trace| - 1]))
  }

  /** No purge over a consumed row, no handler over an expired one. */
  predicate NoClash(log: seq<Status>) {
    forall i :: 0 <= i < |log| - 1 ==>
      !(log[i].Consumed? && log[i + 1].Expired?) && (log[i].Expired? ==> log[i + 1].Expired?)
  }

  ghost predicate ClashFree(s: System) {
    && Logged(s)
    && (forall id :: id in s.sessions ==> NoClash(s.sessions[id].log))
    && (forall id :: id in s.sessions && StatusOf(s, id).Expired? ==> Overdue(s, id))
    && (forall t :: t in s.flights ==> Ids(s.flights[t].op) <= s.sessions.Keys)
    && (forall t :: t in s.flights && s.flights[t].op.Purge? ==> Takes(s, s.flights[t].op.ids))
  }

  /** Overdue rows that no handler can have consumed since. */
  predicate Takes(s: System, ids: set<nat>)
    requires Logged(s)
  {
    forall id :: id in ids ==> id in s.sessions && Overdue(s, id) && !StatusOf(s, id).Consumed?
  }

  lemma LogExtends(log: seq<Status>, next: Status)
    requires log != [] && NoClash(log)
    requires !(log[|log| - 1].Consumed? && next.Expired?) && (log[|log| - 1].Expired? ==> next.Expired?)
    ensures NoClash(log + [next])
  {
  }

  /** A status written where it cannot clash, to rows that other purges in flight do not hold. */
  lemma SetStatusClashFree(s: System, ids: set<nat>, status: Status)
    requires ClashFree(s) && ids <= s.sessions.Keys
    requires forall id :: id in ids ==> if status.Expired? then Overdue(s, id) && !StatusOf(s, id).Consumed? else Open(s, id)
    ensures ClashFree(s.(sessions := SetStatus(s, ids, status)))
  {
    var s' := s.(sessions := SetStatus(s, ids, status));
    forall id | id in s'.sessions ensures NoClash(s'.sessions[id].log) {
      assert NoClash(s.sessions[id].log);
      if id in ids {
        LogExtends(s.sessions[id].log, status);
      }
    }
    forall t | t in s'.flights && s'.flights[t].op.Purge? ensures Takes(s', s'.flights[t].op.ids) {
      assert Takes(s, s.flights[t].op.ids);
    }
  }

  lemma FewerFlightsClashFree(s: System, s': System)
    requires ClashFree(s) && FewerFlights(s, s') && s'.clock >= s.clock && s'.grace == s.grace
    ensures ClashFree(s')
  {
  }

  lemma CommitClashFree(s: System, task: nat)
    requires ClashFree(s) && TimelyStep(s, Commit(task)) && task in s.flights && s.flights[task].done
    ensures ClashFree(Apply(s, Commit(task)))
  {
    var op := s.flights[task].op;
    var landed := s.(flights := s.flights - {task});
    FewerFlightsClashFree(s, landed);
    if op.Purge? {
      assert Takes(s, op.ids);
      SetStatusClashFree(landed, op.ids, Expired);
    } else {
      assert op.id in s.sessions;
      SetStatusClashFree(landed, {op.id}, Landed(op));
    }
    CommitWrites(s, task);
    SameForClashes(landed.(sessions := SetStatus(landed, Ids(op), Landed(op))), Apply(s, Commit(task)));
  }

  lemma SameForClashes(s: System, s': System)
    requires ClashFree(s) && s'.sessions == s.sessions && s'.flights == s.flights && s'.clock == s.clock && s'.grace == s.grace
    ensures ClashFree(s')
  {
  }

  lemma CreateClashFree(s: System, e: Event)
    requires ClashFree(s) && e.Create?
    ensures ClashFree(Apply(s, e))
  {
  }

  lemma CheckClashFree(s: System, e: Event)
    requires ClashFree(s) && e.Check?
    ensures ClashFree(Apply(s, e))
  {
  }

  lemma QuietKeepsClashFree(s: System, e: Event)
    requires ClashFree(s) && !e.Check? && !e.Create?
    requires e.Commit? && e.task in s.flights ==> !s.flights[e.task].done
    ensures ClashFree(Apply(s, e))
  {
    QuietEvents(s, e);
    FewerFlightsClashFree(s, Apply(s, e));
  }

  lemma StepKeepsClashFree(s: System, e: Event)
    requires ClashFree(s) && TimelyStep(s, e)
    ensures ClashFree(Apply(s, e))
  {
    if e.Commit? && e.task in s.flights && s.flights[e.task].done {
      CommitClashFree(s, e.task);
    } else if e.Create? {
      CreateClashFree(s, e);
    } else if e.Check? {
      CheckClashFree(s, e);
    } else {
      QuietKeepsClashFree(s, e);
    }
  }

  /** However operations overlap, on one session or many: if every handler commits in time, no
      purge ever overwrites a consumed row and no handler ever overwrites an expired one. */
  lemma {:induction false} TimelyHandlersNeverClash(s: System, trace: seq<Event>)
    requires ClashFree(s) && Timely(s, trace)
    ensures ClashFree(Run(s, trace))
  {
    if trace != [] {
      TimelyHandlersNeverClash(s, trace[..|trace| - 1]);
      StepKeepsClashFree(Run(s, trace[..|trace| - 1]), trace[|trace| - 1]);
    }
  }

  /** A purge that runs while the handler is still at work. */
  lemma PurgeComesFirst(op: Op, checked: int, w: int, grace: int, expiresAt: int) returns (trace: seq<Event>)
    requires !op.Purge? && checked <= w && w > expiresAt + grace
    ensures var s := Run(InFlight(op, checked, grace, expiresAt), trace);
      && Quiet(trace) && s.clock == w && op.id in s.sessions && 0 in s.flights
      && s.sessions[op.id].log == LogBefore(op) + [Expired] && s.flights[0] == Flight(op, true)
  {
    var s, later := InFlight(op, checked, grace, expiresAt), InFlight(op, w, grace, expiresAt);
    var wait := [Tick(w - checked)];
    RunOne(s, wait[0]);
    assert Run(s, wait) == later;
    RunConcat(s, wait, Steps(1, Purge({op.id})));
    assert Candidates(later) == {op.id};
    RunsThrough(later, 1, Purge({op.id}));
    SetOne(later, op.id, KindOf(op), expiresAt, LogBefore(op), Expired);
    trace := wait + Steps(1, Purge({op.id}));
  }

  /** The time bound is exact: from the beginning, an upload or a start checked in time and
      committed at `w` can be made to overwrite an expired row precisely when `w` is past the
      deadline. */
  lemma LateCommitClashesExactlyWhen(op: Op, checked: int, w: int, grace: int, expiresAt: int)
    requires !op.Purge? && checked <= expiresAt + grace && checked <= w
    ensures var s := Run(Begin(Issued(checked, grace, expiresAt), grace), ToInFlight(op, checked, grace, expiresAt));
      w > expiresAt + grace <==>
        exists trace :: Quiet(trace) && Run(s, trace).clock == w && Clashes(Apply(Run(s, trace), Commit(0)), op.id)
  {
    InFlightIsReachable(op, checked, grace, expiresAt);
    var s := InFlight(op, checked, grace, expiresAt);
    if w > expiresAt + grace {
      var trace := PurgeComesFirst(op, checked, w, grace, expiresAt);
      CommitWrites(Run(s, trace), 0);
      var log := LogBefore(op) + [Expired] + [Landed(op)];
      assert Apply(Run(s, trace), Commit(0)).sessions[op.id].log == log;
      assert log[|log| - 2].Expired? && !log[|log| - 1].Expired?;
    } else {
      forall trace | Quiet(trace) && Run(s, trace).clock == w
        ensures !Clashes(Apply(Run(s, trace), Commit(0)), op.id)
      {
        QuietIsTimely(s, trace);
        TimelyHandlersNeverClash(s, trace);
        StepKeepsClashFree(Run(s, trace), Commit(0));
      }
    }
  }

  predicate Clashes(s: System, id: nat) {
    id in s.sessions && !NoClash(s.sessions[id].log)
  }

  /** Only the clock and purges move: nobody else commits and no new handler starts. */
  predicate Quiet(trace: seq<Event>) {
    forall e :: e in trace ==>
      || e.Tick? || (e.Check? && e.op.Purge? && e.task != 0)
      || (e.Work? && e.task != 0) || (e.Commit? && e.task != 0)
  }

  lemma {:induction false} QuietIsTimely(s: System, trace: seq<Event>)
    requires Quiet(trace) && 0 in s.flights && forall t :: t in s.flights && t != 0 ==> s.flights[t].op.Purge?
    ensures Timely(s, trace)
    ensures var s' := Run(s, trace);
      && s'.sessions.Keys == s.sessions.Keys && 0 in s'.flights && s'.flights[0] == s.flights[0]
      && (forall t :: t in s'.flights && t != 0 ==> s'.flights[t].op.Purge?)
      && (forall id :: id in s.sessions ==> s'.sessions[id].expiresAt == s.sessions[id].expiresAt)
      && s'.grace == s.grace
  {
    if trace != [] {
      var last := trace[|trace| - 1];
      assert last in trace;
      QuietIsTimely(s, trace[..|trace| - 1]);
    }
  }
}
