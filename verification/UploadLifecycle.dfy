/** Upload sessions under four handlers and the purge. Every operation checks the row, does its
    work on disk, and commits, in separate steps that other operations may come between. */
module UploadLifecycle {
  import opened Basics
  import opened Sessions

  datatype Kind = Audio | Image

  /** `log`: every status the committed row has had, oldest first. */
  datatype Session = Session(kind: Kind, expiresAt: int, log: seq<Status>)

  datatype Op = Upload(id: nat, kind: Kind) | Start(id: nat) | Purge(ids: set<nat>)

  /** `done`: the file was stored, was read, or the directories were removed. */
  datatype Flight = Flight(op: Op, done: bool)

  /** `disk`: sessions whose whole `original.bin` is there. `transcripts`: sessions whose start
      committed a transcription row, in commit order. */
  datatype System = System(clock: int, grace: int, sessions: map<nat, Session>, flights: map<nat, Flight>,
                           disk: set<nat>, transcripts: seq<nat>)

  datatype Event =
    | Tick(seconds: nat)
    | Create(id: nat, kind: Kind, ttl: nat)
    | Check(task: nat, op: Op)
    | Work(task: nat)
    | Commit(task: nat)
    | Drop(task: nat)

  function StatusOf(s: System, id: nat): Status
    requires id in s.sessions && s.sessions[id].log != []
  {
    s.sessions[id].log[|s.sessions[id].log| - 1]
  }

  /** The handlers' guard: `now > expires_at + grace` is refused. */
  predicate Open(s: System, id: nat)
    requires id in s.sessions
  {
    !(s.clock > s.sessions[id].expiresAt + s.grace)
  }

  /** The purge's guard: `expires_at < now - grace`. */
  predicate Overdue(s: System, id: nat)
    requires id in s.sessions
  {
    s.sessions[id].expiresAt < s.clock - s.grace
  }

  predicate Logged(s: System) {
    forall id :: id in s.sessions ==> s.sessions[id].log != []
  }

  function Candidates(s: System): set<nat>
    requires Logged(s)
  {
    set id | id in s.sessions && StatusOf(s, id) in {Requested, Uploaded} && Overdue(s, id)
  }

  predicate CheckOk(s: System, op: Op)
    requires Logged(s)
  {
    match op
    case Upload(id, kind) => id in s.sessions && StatusOf(s, id).Requested? && Open(s, id) && s.sessions[id].kind == kind
    case Start(id) => id in s.sessions && StatusOf(s, id).Uploaded? && Open(s, id) && s.sessions[id].kind.Audio?
    case Purge(ids) => ids == Candidates(s)
  }

  function Ids(op: Op): set<nat> {
    if op.Purge? then op.ids else {op.id}
  }

  /** UPDATE ... WHERE id IN ids: no status guard. */
  function SetStatus(s: System, ids: set<nat>, status: Status): map<nat, Session> {
    map id | id in s.sessions ::
      if id in ids then s.sessions[id].(log := s.sessions[id].log + [status]) else s.sessions[id]
  }

  function DoWork(s: System, op: Op): (set<nat>, bool) {
    match op
    case Upload(id, kind) => (if kind.Audio? then s.disk + {id} else s.disk, true)
    case Start(id) => (s.disk, id in s.disk)
    case Purge(ids) => (s.disk - ids, true)
  }

  function DoCommit(s: System, op: Op): System {
    match op
    case Upload(id, _) => s.(sessions := SetStatus(s, {id}, Uploaded))
    case Start(id) =>
      s.(sessions := SetStatus(s, {id}, Consumed), transcripts := s.transcripts + [id], disk := s.disk - {id})
    case Purge(ids) => s.(sessions := SetStatus(s, ids, Expired))
  }

  /** Failure or cancellation: the transaction rolls back. A start removes the directory in any
      case; an upload leaves its file only if it was stored to the end. */
  function DoDrop(s: System, f: Flight): System {
    match f.op
    case Upload(id, kind) => if kind.Audio? && !f.done then s.(disk := s.disk - {id}) else s
    case Start(id) => s.(disk := s.disk - {id})
    case Purge(_) => s
  }

  function Apply(s: System, e: Event): System {
    match e
    case Tick(n) => s.(clock := s.clock + n)
    case Create(id, kind, ttl) =>
      if id in s.sessions then s
      else s.(sessions := s.sessions[id := Session(kind, s.clock + ttl, [Requested])])
    case Check(task, op) =>
      if task in s.flights || !Logged(s) || !CheckOk(s, op) then s
      else s.(flights := s.flights[task := Flight(op, false)])
    case Work(task) =>
      if task !in s.flights || s.flights[task].done then s
      else
        var (disk, done) := DoWork(s, s.flights[task].op);
        s.(disk := disk, flights := s.flights[task := Flight(s.flights[task].op, done)])
    case Commit(task) =>
      if task !in s.flights then s
      else
        var f := s.flights[task];
        var landed := s.(flights := s.flights - {task});
        if f.done then DoCommit(landed, f.op) else DoDrop(landed, f)
    case Drop(task) =>
      if task !in s.flights then s else DoDrop(s.(flights := s.flights - {task}), s.flights[task])
  }

  function Begin(clock: int, grace: int): System {
    System(clock, grace, map[], map[], {}, [])
  }

  function Run(s: System, trace: seq<Event>): System {
    if trace == [] then s else Apply(Run(s, trace[..|trace| - 1]), trace[|trace| - 1])
  }

  lemma RunAppend(s: System, trace: seq<Event>, e: Event)
    ensures Run(s, trace + [e]) == Apply(Run(s, trace), e)
  {
  }

  lemma {:induction false} RunConcat(s: System, first: seq<Event>, second: seq<Event>)
    ensures Run(s, first + second) == Run(Run(s, first), second)
    decreases second
  {
    if second == [] {
      assert first + second == first;
    } else {
      var last := |second| - 1;
      RunConcat(s, first, second[..last]);
      assert first + second == (first + second[..last]) + [second[last]];
    }
  }

  // ---------------------------------------------------------------- legal histories

  predicate Allowed(a: Status, b: Status) {
    || (a.Requested? && b.Uploaded?)
    || (a.Uploaded? && b.Consumed?)
    || ((a.Requested? || a.Uploaded?) && b.Expired?)
  }

  /** requested, then uploaded, then consumed, or into expired from the first two; then no more. */
  predicate LegalPath(log: seq<Status>) {
    && log != [] && log[0].Requested?
    && forall i :: 0 <= i < |log| - 1 ==> Allowed(log[i], log[i + 1])
  }

  /** The row still has the status that the operation's check found. */
  predicate FlightOk(s: System, f: Flight)
    requires Logged(s)
  {
    && Ids(f.op) <= s.sessions.Keys
    && match f.op
       case Upload(id, _) => StatusOf(s, id).Requested?
       case Start(id) => StatusOf(s, id).Uploaded?
       case Purge(ids) => forall id :: id in ids ==> StatusOf(s, id) in {Requested, Uploaded}
  }

  /** The guard that the UPDATEs do not carry: a commit still finds what its check found. */
  predicate GuardedStep(s: System, e: Event) {
    e.Commit? && e.task in s.flights && s.flights[e.task].done && Logged(s) ==> FlightOk(s, s.flights[e.task])
  }

  predicate Guarded(s: System, trace: seq<Event>) {
    trace == [] ||
    (Guarded(s, trace[..|trace| - 1]) && GuardedStep(Run(s, trace[..|trace| - 1]), trace[|trace| - 1]))
  }

  predicate PathsOk(s: System) {
    forall id :: id in s.sessions ==> LegalPath(s.sessions[id].log)
  }

  /** What every run keeps. */
  ghost predicate Sane(s: System) {
    && Logged(s)
    && (forall t :: t in s.flights ==> Ids(s.flights[t].op) <= s.sessions.Keys)
    && (forall id :: id in s.sessions && StatusOf(s, id).Consumed? ==> id in s.transcripts)
  }

  predicate LogsGrow(s: System, s': System) {
    forall id :: id in s.sessions ==> id in s'.sessions && s.sessions[id].log <= s'.sessions[id].log
  }

  function Landed(op: Op): Status {
    match op
    case Upload(_, _) => Uploaded
    case Start(_) => Consumed
    case Purge(_) => Expired
  }

  /** Same operations in flight or fewer, same rows. */
  predicate FewerFlights(s: System, s': System) {
    && s'.sessions == s.sessions && s'.transcripts == s.transcripts
    && forall t :: t in s'.flights ==> t in s.flights && s'.flights[t].op == s.flights[t].op
  }

  lemma QuietEvents(s: System, e: Event)
    requires !e.Check? && !e.Create?
    requires e.Commit? && e.task in s.flights ==> !s.flights[e.task].done
    ensures FewerFlights(s, Apply(s, e)) && Apply(s, e).clock >= s.clock && Apply(s, e).grace == s.grace
  {
  }

  lemma CommitWrites(s: System, task: nat)
    requires task in s.flights && s.flights[task].done
    ensures var s' := Apply(s, Commit(task));
      var op := s.flights[task].op;
      && s'.sessions == SetStatus(s, Ids(op), Landed(op)) && s'.flights == s.flights - {task}
      && s'.transcripts == if op.Start? then s.transcripts + [op.id] else s.transcripts
  {
  }

  lemma SaneCommit(s: System, task: nat)
    requires Sane(s) && task in s.flights && s.flights[task].done
    ensures Sane(Apply(s, Commit(task))) && LogsGrow(s, Apply(s, Commit(task)))
  {
    CommitWrites(s, task);
  }

  lemma SaneStep(s: System, e: Event)
    requires Sane(s)
    ensures Sane(Apply(s, e)) && LogsGrow(s, Apply(s, e))
  {
    if e.Commit? && e.task in s.flights && s.flights[e.task].done {
      SaneCommit(s, e.task);
    } else if !e.Check? && !e.Create? {
      QuietEvents(s, e);
    }
  }

  /** Writing an allowed status extends legal paths legally; any other one breaks a path. */
  lemma SetStatusKeepsPaths(s: System, ids: set<nat>, status: Status)
    requires Logged(s) && PathsOk(s) && ids <= s.sessions.Keys
    ensures PathsOk(s.(sessions := SetStatus(s, ids, status))) <==> forall id :: id in ids ==> Allowed(StatusOf(s, id), status)
  {
    var s' := s.(sessions := SetStatus(s, ids, status));
    if id :| id in ids && !Allowed(StatusOf(s, id), status) {
      var log := s'.sessions[id].log;
      assert !Allowed(log[|log| - 2], log[|log| - 1]);
    }
  }

  lemma CommitIsLegalExactlyWhen(s: System, task: nat)
    requires Sane(s) && PathsOk(s) && task in s.flights && s.flights[task].done
    ensures PathsOk(Apply(s, Commit(task))) <==> FlightOk(s, s.flights[task])
  {
    var op := s.flights[task].op;
    CommitWrites(s, task);
    SetStatusKeepsPaths(s, Ids(op), Landed(op));
    assert PathsOk(Apply(s, Commit(task))) <==> PathsOk(s.(sessions := SetStatus(s, Ids(op), Landed(op))));
  }

  /** One event from legal paths: they stay legal exactly when a commit, if it is one, finds what
      its check found. */
  lemma StepIsLegalExactlyWhen(s: System, e: Event)
    requires Sane(s) && PathsOk(s)
    ensures GuardedStep(s, e) <==> PathsOk(Apply(s, e))
  {
    if e.Commit? && e.task in s.flights && s.flights[e.task].done {
      CommitIsLegalExactlyWhen(s, e.task);
    } else if !e.Check? && !e.Create? {
      QuietEvents(s, e);
    }
  }

  lemma IllegalStays(s: System, s': System)
    requires Logged(s) && LogsGrow(s, s') && PathsOk(s')
    ensures PathsOk(s)
  {
  }

  lemma {:induction false} SaneRuns(clock: int, grace: int, trace: seq<Event>)
    ensures Sane(Run(Begin(clock, grace), trace))
  {
    if trace != [] {
      SaneRuns(clock, grace, trace[..|trace| - 1]);
      SaneStep(Run(Begin(clock, grace), trace[..|trace| - 1]), trace[|trace| - 1]);
    }
  }

  /** However operations overlap, every session's history is a legal path exactly when every
      commit still finds the status its check found. */
  lemma {:induction false} LegalHistoriesExactlyWhen(clock: int, grace: int, trace: seq<Event>)
    ensures Guarded(Begin(clock, grace), trace) <==> PathsOk(Run(Begin(clock, grace), trace))
  {
    if trace != [] {
      var front, last := trace[..|trace| - 1], trace[|trace| - 1];
      var before := Run(Begin(clock, grace), front);
      LegalHistoriesExactlyWhen(clock, grace, front);
      SaneRuns(clock, grace, front);
      SaneStep(before, last);
      if PathsOk(before) {
        StepIsLegalExactlyWhen(before, last);
      } else if PathsOk(Apply(before, last)) {
        IllegalStays(before, Apply(before, last));
      }
    }
  }

  // ---------------------------------------------------------------- audio and images

  /** Operations in flight are for sessions of their kind; only audio is stored or transcribed. */
  ghost predicate KindsOk(s: System) {
    && (forall id :: id in s.disk || id in s.transcripts ==> id in s.sessions && s.sessions[id].kind.Audio?)
    && (forall t :: t in s.flights ==>
          match s.flights[t].op
          case Upload(id, kind) => id in s.sessions && s.sessions[id].kind == kind
          case Start(id) => id in s.sessions && s.sessions[id].kind.Audio?
          case Purge(_) => true)
  }

  lemma KindsCommit(s: System, task: nat)
    requires KindsOk(s) && task in s.flights && s.flights[task].done
    ensures KindsOk(Apply(s, Commit(task)))
  {
    CommitWrites(s, task);
  }

  lemma KindsStep(s: System, e: Event)
    requires KindsOk(s)
    ensures KindsOk(Apply(s, e))
  {
    if e.Commit? && e.task in s.flights && s.flights[e.task].done {
      KindsCommit(s, e.task);
    } else if !e.Check? && !e.Create? {
      QuietEvents(s, e);
    }
  }

  /** In every run, however operations overlap, only bytes of audio sessions are stored for
      transcription, and only audio sessions are transcribed. */
  lemma {:induction false} OnlyAudioIsTranscribed(clock: int, grace: int, trace: seq<Event>)
    ensures var s := Run(Begin(clock, grace), trace);
      && KindsOk(s)
      && forall id :: id in s.disk || id in s.transcripts ==> id in s.sessions && s.sessions[id].kind.Audio?
  {
    if trace != [] {
      OnlyAudioIsTranscribed(clock, grace, trace[..|trace| - 1]);
      KindsStep(Run(Begin(clock, grace), trace[..|trace| - 1]), trace[|trace| - 1]);
    }
  }

  // ---------------------------------------------------------------- one row per consumed session

  function ConsumedIds(s: System): set<nat>
    requires Logged(s)
  {
    set id | id in s.sessions && StatusOf(s, id).Consumed?
  }

  /** No commit lands on a session that is consumed by then. */
  predicate OffConsumedStep(s: System, e: Event) {
    e.Commit? && e.task in s.flights && s.flights[e.task].done && Logged(s) ==> Ids(s.flights[e.task].op) !! ConsumedIds(s)
  }

  predicate OffConsumed(s: System, trace: seq<Event>) {
    trace == [] ||
    (OffConsumed(s, trace[..|trace| - 1]) && OffConsumedStep(Run(s, trace[..|trace| - 1]), trace[|trace| - 1]))
  }

  /** No session is transcribed twice, or transcribed and then no longer consumed. */
  predicate RowsOk(s: System)
    requires Logged(s)
  {
    Distinct(s.transcripts) && forall id :: id in s.transcripts ==> id in s.sessions && StatusOf(s, id).Consumed?
  }

  predicate ConsumedIsLast(log: seq<Status>) {
    forall i :: 0 <= i < |log| - 1 ==> !log[i].Consumed?
  }

  predicate ConsumedIsFinal(s: System) {
    forall id :: id in s.sessions ==> ConsumedIsLast(s.sessions[id].log)
  }

  lemma StatusAfter(s: System, s': System, ids: set<nat>, status: Status, id: nat)
    requires Logged(s) && Logged(s') && s'.sessions == SetStatus(s, ids, status)
    ensures id in s'.sessions <==> id in s.sessions
    ensures id in s.sessions ==> StatusOf(s', id) == if id in ids then status else StatusOf(s, id)
  {
  }

  lemma LandedRows(s: System, s': System, op: Op)
    requires Sane(s) && Logged(s') && Ids(op) <= s.sessions.Keys
    requires s'.sessions == SetStatus(s, Ids(op), Landed(op))
    requires s'.transcripts == if op.Start? then s.transcripts + [op.id] else s.transcripts
    ensures RowsOk(s') <==> RowsOk(s) && Ids(op) !! ConsumedIds(s)
  {
    if op.Start? {
      DistinctAppend(s.transcripts, op.id);
    }
    forall id ensures id in s'.transcripts <==> id in s.transcripts || (op.Start? && id == op.id) {
    }
    forall id
      ensures id in s'.sessions <==> id in s.sessions
      ensures id in s.sessions ==> StatusOf(s', id) == if id in Ids(op) then Landed(op) else StatusOf(s, id)
    {
      StatusAfter(s, s', Ids(op), Landed(op), id);
    }
    if RowsOk(s') {
      forall id | id in s.transcripts ensures id in s.sessions && id !in Ids(op) && StatusOf(s, id).Consumed? {
        assert id in s'.transcripts;
      }
    }
  }

  lemma LandedFinal(s: System, s': System, ids: set<nat>, status: Status)
    requires Logged(s) && ids <= s.sessions.Keys && s'.sessions == SetStatus(s, ids, status)
    ensures ConsumedIsFinal(s') <==> ConsumedIsFinal(s) && ids !! ConsumedIds(s)
  {
    forall id | id in s.sessions
      ensures ConsumedIsLast(s'.sessions[id].log) <==>
                ConsumedIsLast(s.sessions[id].log) && !(id in ids && StatusOf(s, id).Consumed?)
    {
      var log, log' := s.sessions[id].log, s'.sessions[id].log;
      if ConsumedIsLast(log') {
        assert forall i :: 0 <= i < |log| - 1 ==> log[i] == log'[i];
        assert id in ids ==> log'[|log| - 1] == StatusOf(s, id);
      }
    }
  }

  /** One event: both properties hold after it exactly when they held before it and it does not
      land on a consumed session. */
  lemma StepIsOffConsumedExactlyWhen(s: System, e: Event)
    requires Sane(s)
    ensures Logged(Apply(s, e))
    ensures RowsOk(Apply(s, e)) <==> RowsOk(s) && OffConsumedStep(s, e)
    ensures ConsumedIsFinal(Apply(s, e)) <==> ConsumedIsFinal(s) && OffConsumedStep(s, e)
  {
    SaneStep(s, e);
    if e.Commit? && e.task in s.flights && s.flights[e.task].done {
      CommitWrites(s, e.task);
      LandedRows(s, Apply(s, e), s.flights[e.task].op);
      LandedFinal(s, Apply(s, e), Ids(s.flights[e.task].op), Landed(s.flights[e.task].op));
    } else if e.Create? {
      CreateChangesNeither(s, e);
    } else if !e.Check? {
      QuietEvents(s, e);
    }
  }

  lemma CreateChangesNeither(s: System, e: Event)
    requires Sane(s) && e.Create?
    ensures Logged(Apply(s, e)) && (RowsOk(Apply(s, e)) <==> RowsOk(s))
    ensures ConsumedIsFinal(Apply(s, e)) <==> ConsumedIsFinal(s)
  {
    assert forall id :: id in s.sessions ==> Apply(s, e).sessions[id] == s.sessions[id];
  }

  lemma {:induction false} OffConsumedRuns(clock: int, grace: int, trace: seq<Event>)
    ensures var s := Run(Begin(clock, grace), trace);
      && Sane(s)
      && (OffConsumed(Begin(clock, grace), trace) <==> RowsOk(s))
      && (OffConsumed(Begin(clock, grace), trace) <==> ConsumedIsFinal(s))
  {
    SaneRuns(clock, grace, trace);
    if trace != [] {
      var front := trace[..|trace| - 1];
      OffConsumedRuns(clock, grace, front);
      StepIsOffConsumedExactlyWhen(Run(Begin(clock, grace), front), trace[|trace| - 1]);
    }
  }

  /** However operations overlap: exactly one transcription row stands for each consumed session
      and none for any other, exactly when no commit lands on a consumed session; and consumed is
      final exactly then. */
  lemma OneRowPerConsumedExactlyWhen(clock: int, grace: int, trace: seq<Event>)
    ensures var s := Run(Begin(clock, grace), trace);
      var off := OffConsumed(Begin(clock, grace), trace);
      && Logged(s)
      && (off <==> |s.transcripts| == |ConsumedIds(s)| && forall id :: id in s.transcripts <==> id in ConsumedIds(s))
      && (off <==> ConsumedIsFinal(s))
  {
    OffConsumedRuns(clock, grace, trace);
    var s := Run(Begin(clock, grace), trace);
    DistinctCount(s.transcripts);
    if forall id :: id in s.transcripts <==> id in ConsumedIds(s) {
      assert ToSet(s.transcripts) == ConsumedIds(s);
    }
  }

  lemma {:induction false} GuardedIsOffConsumed(s: System, trace: seq<Event>)
    requires Guarded(s, trace)
    ensures OffConsumed(s, trace)
  {
    if trace != [] {
      GuardedIsOffConsumed(s, trace[..|trace| - 1]);
    }
  }

  // ---------------------------------------------------------------- legal paths

  /** Consumed and expired are final on a legal path, and it has at most three statuses. */
  lemma LegalPathsAreShort(log: seq<Status>, i: nat)
    requires LegalPath(log) && i < |log|
    ensures log[i].Consumed? || log[i].Expired? ==> i == |log| - 1
    ensures |log| <= 3
  {
    if i < |log| - 1 {
      assert Allowed(log[i], log[i + 1]);
    }
    if |log| > 3 {
      ThreeStepsAtMost(log);
    }
  }

  lemma ThreeStepsAtMost(log: seq<Status>)
    requires |log| > 3 && log[0].Requested? && Allowed(log[0], log[1]) && Allowed(log[1], log[2])
    ensures !Allowed(log[2], log[3])
  {
  }

  // ---------------------------------------------------------------- one operation per session

  /** A check starts only while nothing in flight touches the same sessions. */
  predicate ExclusiveStep(s: System, e: Event) {
    e.Check? ==> forall t :: t in s.flights ==> Ids(s.flights[t].op) !! Ids(e.op)
  }

  predicate Exclusive(s: System, trace: seq<Event>) {
    trace == [] ||
    (Exclusive(s, trace[..|trace| - 1]) && ExclusiveStep(Run(s, trace[..|trace| - 1]), trace[|trace| - 1]))
  }

  predicate FlightsOk(s: System)
    requires Logged(s)
  {
    forall t :: t in s.flights ==> FlightOk(s, s.flights[t])
  }

  predicate Apart(s: System) {
    forall t, u :: t in s.flights && u in s.flights && t != u ==> Ids(s.flights[t].op) !! Ids(s.flights[u].op)
  }

  ghost predicate Inv(s: System) {
    Logged(s) && FlightsOk(s) && Apart(s)
  }

  lemma OthersStayOk(s: System, s': System, f: Flight)
    requires Logged(s) && Logged(s') && FlightOk(s, f) && s.sessions.Keys <= s'.sessions.Keys
    requires forall id :: id in Ids(f.op) ==> s'.sessions[id] == s.sessions[id]
    ensures FlightOk(s', f)
  {
  }

  lemma CommitKeepsInv(s: System, task: nat)
    requires Inv(s) && task in s.flights && s.flights[task].done
    ensures Inv(Apply(s, Commit(task)))
  {
    var s' := Apply(s, Commit(task));
    CommitWrites(s, task);
    forall t | t in s'.flights ensures FlightOk(s', s'.flights[t]) {
      assert Ids(s.flights[t].op) !! Ids(s.flights[task].op);
      OthersStayOk(s, s', s.flights[t]);
    }
  }

  lemma FewerFlightsKeepInv(s: System, s': System)
    requires Inv(s) && FewerFlights(s, s')
    ensures Inv(s')
  {
    forall t | t in s'.flights ensures FlightOk(s', s'.flights[t]) {
      OthersStayOk(s, s', s.flights[t]);
    }
  }

  lemma CheckKeepsInv(s: System, task: nat, op: Op)
    requires Inv(s) && ExclusiveStep(s, Check(task, op)) && task !in s.flights && CheckOk(s, op)
    ensures Inv(s.(flights := s.flights[task := Flight(op, false)]))
  {
  }

  /** While operations on one session do not overlap, every event leaves each operation in
      flight with the status it checked, so every commit is guarded. */
  lemma StepKeepsInv(s: System, e: Event)
    requires Inv(s) && ExclusiveStep(s, e)
    ensures Inv(Apply(s, e)) && GuardedStep(s, e)
  {
    match e
    case Commit(task) =>
      if task in s.flights && s.flights[task].done {
        CommitKeepsInv(s, task);
      } else {
        QuietEvents(s, e);
        FewerFlightsKeepInv(s, Apply(s, e));
      }
    case Check(task, op) =>
      if task !in s.flights && CheckOk(s, op) {
        CheckKeepsInv(s, task, op);
      }
    case Create(id, kind, ttl) =>
      forall t | t in s.flights ensures FlightOk(Apply(s, e), s.flights[t]) {
        OthersStayOk(s, Apply(s, e), s.flights[t]);
      }
    case _ =>
      QuietEvents(s, e);
      FewerFlightsKeepInv(s, Apply(s, e));
  }

  lemma {:induction false} ExclusiveRuns(s: System, trace: seq<Event>)
    requires Inv(s) && Exclusive(s, trace)
    ensures Inv(Run(s, trace)) && Guarded(s, trace)
  {
    if trace != [] {
      ExclusiveRuns(s, trace[..|trace| - 1]);
      StepKeepsInv(Run(s, trace[..|trace| - 1]), trace[|trace| - 1]);
    }
  }

  /** So while operations on one session do not overlap, histories are legal and rows match. */
  lemma LegalHistories(clock: int, grace: int, trace: seq<Event>)
    requires Exclusive(Begin(clock, grace), trace)
    ensures var s := Run(Begin(clock, grace), trace);
      && Logged(s)
      && (forall id :: id in s.sessions ==> LegalPath(s.sessions[id].log))
      && |s.transcripts| == |ConsumedIds(s)|
      && (forall id :: id in s.transcripts <==> id in ConsumedIds(s))
  {
    ExclusiveRuns(Begin(clock, grace), trace);
    GuardedIsOffConsumed(Begin(clock, grace), trace);
    LegalHistoriesExactlyWhen(clock, grace, trace);
    OneRowPerConsumedExactlyWhen(clock, grace, trace);
  }

  // ---------------------------------------------------------------- what overlap breaks

  function KindOf(op: Op): Kind {
    if op.Upload? then op.kind else Audio
  }

  function LogBefore(op: Op): seq<Status> {
    if op.Upload? then [Requested] else [Requested, Uploaded]
  }

  function Steps(task: nat, op: Op): seq<Event> {
    [Check(task, op), Work(task), Commit(task)]
  }

  function One(id: nat, kind: Kind, expiresAt: int, log: seq<Status>): map<nat, Session> {
    map[id := Session(kind, expiresAt, log)]
  }

  /** One session and one handler in flight on it, checked and worked, about to commit. */
  function InFlight(op: Op, clock: int, grace: int, expiresAt: int): System
    requires !op.Purge?
  {
    System(clock, grace, One(op.id, KindOf(op), expiresAt, LogBefore(op)),
           map[0 := Flight(op, true)], if KindOf(op).Audio? then {op.id} else {}, [])
  }

  /** When the session of an operation in flight at `clock` may have been created. */
  function Issued(clock: int, grace: int, expiresAt: int): (t: int)
    requires clock <= expiresAt + grace
    ensures t <= clock && t <= expiresAt && t <= expiresAt + grace
  {
    if clock <= expiresAt then clock else expiresAt
  }

  function ToWaiting(op: Op, t: int, expiresAt: int): seq<Event>
    requires !op.Purge? && t <= expiresAt
  {
    [Create(op.id, KindOf(op), expiresAt - t)] + if op.Upload? then [] else Steps(0, Upload(op.id, Audio))
  }

  function ToInFlight(op: Op, clock: int, grace: int, expiresAt: int): seq<Event>
    requires !op.Purge? && clock <= expiresAt + grace
  {
    var t := Issued(clock, grace, expiresAt);
    ToWaiting(op, t, expiresAt) + [Tick(clock - t), Check(0, op), Work(0)]
  }

  lemma RunOne(s: System, e: Event)
    ensures Run(s, [e]) == Apply(s, e)
  {
  }

  lemma RunThree(s: System, a: Event, b: Event, c: Event)
    ensures Run(s, [a, b, c]) == Apply(Apply(Apply(s, a), b), c)
  {
    assert [a, b, c] == [] + [a] + [b] + [c];
    RunAppend(s, [], a);
    RunAppend(s, [] + [a], b);
    RunAppend(s, [] + [a] + [b], c);
  }

  lemma ChecksIn(s: System, task: nat, op: Op)
    requires Logged(s) && task !in s.flights && CheckOk(s, op)
    ensures Apply(s, Check(task, op)) == s.(flights := s.flights[task := Flight(op, false)])
  {
  }

  lemma WorksOnce(s: System, task: nat, op: Op)
    requires task in s.flights && s.flights[task] == Flight(op, false)
    ensures Apply(s, Work(task)) == s.(disk := DoWork(s, op).0, flights := s.flights[task := Flight(op, DoWork(s, op).1)])
  {
  }

  lemma Lands(s: System, task: nat, op: Op)
    requires task in s.flights && s.flights[task] == Flight(op, true)
    ensures Apply(s, Commit(task)) == DoCommit(s.(flights := s.flights - {task}), op)
  {
  }

  lemma CameAndWent(flights: map<nat, Flight>, task: nat, before: Flight, after: Flight)
    requires task !in flights
    ensures flights[task := before][task := after] - {task} == flights
  {
  }

  /** An operation that runs with nothing in between. */
  lemma RunsThrough(s: System, task: nat, op: Op)
    requires Logged(s) && task !in s.flights && CheckOk(s, op) && DoWork(s, op).1
    ensures Run(s, Steps(task, op)) == DoCommit(s.(disk := DoWork(s, op).0), op)
  {
    RunThree(s, Check(task, op), Work(task), Commit(task));
    ChecksIn(s, task, op);
    WorksOnce(Apply(s, Check(task, op)), task, op);
    Lands(Apply(Apply(s, Check(task, op)), Work(task)), task, op);
    CameAndWent(s.flights, task, Flight(op, false), Flight(op, true));
  }

  lemma SetOne(s: System, id: nat, kind: Kind, expiresAt: int, log: seq<Status>, status: Status)
    requires s.sessions == One(id, kind, expiresAt, log)
    ensures SetStatus(s, {id}, status) == One(id, kind, expiresAt, log + [status])
  {
  }

  /** The session at rest, before the operation's check. */
  function Waiting(op: Op, clock: int, grace: int, expiresAt: int): System
    requires !op.Purge?
  {
    System(clock, grace, One(op.id, KindOf(op), expiresAt, LogBefore(op)), map[], if op.Start? then {op.id} else {}, [])
  }

  lemma CreatedThenUploaded(id: nat, t: int, grace: int, expiresAt: int)
    requires t <= expiresAt && t <= expiresAt + grace
    ensures Run(Begin(t, grace), [Create(id, Audio, expiresAt - t)] + Steps(0, Upload(id, Audio)))
            == Waiting(Start(id), t, grace, expiresAt)
  {
    var create := [Create(id, Audio, expiresAt - t)];
    RunConcat(Begin(t, grace), create, Steps(0, Upload(id, Audio)));
    RunOne(Begin(t, grace), create[0]);
    var s := Waiting(Upload(id, Audio), t, grace, expiresAt);
    assert Run(Begin(t, grace), create) == s;
    RunsThrough(s, 0, Upload(id, Audio));
    SetOne(s, id, Audio, expiresAt, [Requested], Uploaded);
    assert [Requested] + [Uploaded] == [Requested, Uploaded];
  }

  lemma WaitingThenInFlight(op: Op, t: int, clock: int, grace: int, expiresAt: int)
    requires !op.Purge? && t <= clock <= expiresAt + grace
    ensures Run(Waiting(op, t, grace, expiresAt), [Tick(clock - t), Check(0, op), Work(0)])
            == InFlight(op, clock, grace, expiresAt)
  {
    RunThree(Waiting(op, t, grace, expiresAt), Tick(clock - t), Check(0, op), Work(0));
    assert CheckOk(Waiting(op, clock, grace, expiresAt), op);
  }

  lemma CreatedOnly(op: Op, t: int, grace: int, expiresAt: int)
    requires op.Upload? && t <= expiresAt
    ensures Run(Begin(t, grace), [Create(op.id, op.kind, expiresAt - t)] + []) == Waiting(op, t, grace, expiresAt)
  {
    var create := Create(op.id, op.kind, expiresAt - t);
    RunOne(Begin(t, grace), create);
    assert [create] + [] == [create];
  }

  /** Every such state is one the service gets into from its beginning. */
  lemma InFlightIsReachable(op: Op, clock: int, grace: int, expiresAt: int)
    requires !op.Purge? && clock <= expiresAt + grace
    ensures Run(Begin(Issued(clock, grace, expiresAt), grace), ToInFlight(op, clock, grace, expiresAt))
            == InFlight(op, clock, grace, expiresAt)
  {
    var t := Issued(clock, grace, expiresAt);
    RunConcat(Begin(t, grace), ToWaiting(op, t, expiresAt), [Tick(clock - t), Check(0, op), Work(0)]);
    WaitingIsReachable(op, t, grace, expiresAt);
    WaitingThenInFlight(op, t, clock, grace, expiresAt);
  }

  lemma WaitingIsReachable(op: Op, t: int, grace: int, expiresAt: int)
    requires !op.Purge? && t <= expiresAt && t <= expiresAt + grace
    ensures Run(Begin(t, grace), ToWaiting(op, t, expiresAt)) == Waiting(op, t, grace, expiresAt)
  {
    if op.Start? {
      CreatedThenUploaded(op.id, t, grace, expiresAt);
    } else {
      CreatedOnly(op, t, grace, expiresAt);
    }
  }

  /** Two of the same in flight on one audio session, both about to commit. */
  function BothInFlight(op: Op, clock: int, grace: int, expiresAt: int): System
    requires !op.Purge?
  {
    InFlight(op, clock, grace, expiresAt).(flights := map[0 := Flight(op, true), 1 := Flight(op, true)])
  }

  function ToBoth(op: Op, clock: int, grace: int, expiresAt: int): seq<Event>
    requires !op.Purge? && clock <= expiresAt + grace
  {
    ToInFlight(op, clock, grace, expiresAt) + [Check(1, op), Work(1)]
  }

  lemma SecondJoins(op: Op, clock: int, grace: int, expiresAt: int)
    requires !op.Purge? && KindOf(op).Audio? && clock <= expiresAt + grace
    ensures Run(InFlight(op, clock, grace, expiresAt), [Check(1, op), Work(1)]) == BothInFlight(op, clock, grace, expiresAt)
  {
    var s := InFlight(op, clock, grace, expiresAt);
    RunOne(s, Check(1, op));
    RunAppend(s, [Check(1, op)], Work(1));
    assert [Check(1, op)] + [Work(1)] == [Check(1, op), Work(1)];
    assert CheckOk(s, op);
  }

  lemma BothAreReachable(op: Op, clock: int, grace: int, expiresAt: int)
    requires !op.Purge? && KindOf(op).Audio? && clock <= expiresAt + grace
    ensures Run(Begin(Issued(clock, grace, expiresAt), grace), ToBoth(op, clock, grace, expiresAt))
            == BothInFlight(op, clock, grace, expiresAt)
  {
    RunConcat(Begin(Issued(clock, grace, expiresAt), grace), ToInFlight(op, clock, grace, expiresAt), [Check(1, op), Work(1)]);
    InFlightIsReachable(op, clock, grace, expiresAt);
    SecondJoins(op, clock, grace, expiresAt);
  }

  lemma BothStartsCommit(s: System, id: nat, expiresAt: int)
    requires s.flights == map[0 := Flight(Start(id), true), 1 := Flight(Start(id), true)]
    requires s.sessions == One(id, Audio, expiresAt, [Requested, Uploaded]) && s.transcripts == []
    ensures var s' := Run(s, [Commit(0)] + [Commit(1)]);
      && s'.sessions == One(id, Audio, expiresAt, [Requested, Uploaded, Consumed, Consumed])
      && s'.transcripts == [id, id]
  {
    var s1 := Apply(s, Commit(0));
    RunOne(s, Commit(0));
    RunAppend(s, [Commit(0)], Commit(1));
    CommitWrites(s, 0);
    SetOne(s, id, Audio, expiresAt, [Requested, Uploaded], Consumed);
    assert [Requested, Uploaded] + [Consumed] == [Requested, Uploaded, Consumed];
    CommitWrites(s1, 1);
    SetOne(s1, id, Audio, expiresAt, [Requested, Uploaded, Consumed], Consumed);
    assert [Requested, Uploaded, Consumed] + [Consumed] == [Requested, Uploaded, Consumed, Consumed];
  }

  /** From the beginning: two starts that both check before either commits write two
      transcription rows for one session; the lock orders their pipelines, not their checks. */
  lemma OverlappingStartsWriteTwoRows(id: nat, clock: int, grace: int, expiresAt: int)
    requires clock <= expiresAt + grace
    ensures var trace := ToBoth(Start(id), clock, grace, expiresAt) + ([Commit(0)] + [Commit(1)]);
      var s := Run(Begin(Issued(clock, grace, expiresAt), grace), trace);
      && s.transcripts == [id, id] && Logged(s) && ConsumedIds(s) == {id}
  {
    RunConcat(Begin(Issued(clock, grace, expiresAt), grace), ToBoth(Start(id), clock, grace, expiresAt), [Commit(0)] + [Commit(1)]);
    BothAreReachable(Start(id), clock, grace, expiresAt);
    BothStartsCommit(BothInFlight(Start(id), clock, grace, expiresAt), id, expiresAt);
  }

  /** Two uploads of one session in flight: one commits, the session is transcribed, and then the
      other commits. */
  lemma SecondUploadReopens(s: System, id: nat, expiresAt: int)
    requires s.flights == map[0 := Flight(Upload(id, Audio), true), 1 := Flight(Upload(id, Audio), true)]
    requires s.sessions == One(id, Audio, expiresAt, [Requested]) && s.transcripts == []
    requires s.clock <= expiresAt + s.grace && id in s.disk
    ensures var s' := Run(s, [Commit(0)] + (Steps(0, Start(id)) + [Commit(1)]));
      && s'.sessions == One(id, Audio, expiresAt, [Requested, Uploaded, Consumed, Uploaded])
      && s'.transcripts == [id]
  {
    var s1 := Apply(s, Commit(0));
    RunConcat(s, [Commit(0)], Steps(0, Start(id)) + [Commit(1)]);
    RunOne(s, Commit(0));
    CommitWrites(s, 0);
    SetOne(s, id, Audio, expiresAt, [Requested], Uploaded);
    assert [Requested] + [Uploaded] == [Requested, Uploaded];
    assert CheckOk(s1, Start(id));
    RunsThrough(s1, 0, Start(id));
    var s2 := Run(s1, Steps(0, Start(id)));
    SetOne(s1, id, Audio, expiresAt, [Requested, Uploaded], Consumed);
    assert [Requested, Uploaded] + [Consumed] == [Requested, Uploaded, Consumed];
    RunAppend(s1, Steps(0, Start(id)), Commit(1));
    SetOne(s2, id, Audio, expiresAt, [Requested, Uploaded, Consumed], Uploaded);
    assert [Requested, Uploaded, Consumed] + [Uploaded] == [Requested, Uploaded, Consumed, Uploaded];
    CommitWrites(s2, 1);
  }

  /** From the beginning: two uploads check, the first commits and is transcribed, and the second,
      committing late, turns the consumed session back to uploaded. */
  lemma OverlappingUploadReopens(id: nat, clock: int, grace: int, expiresAt: int)
    requires clock <= expiresAt + grace
    ensures var trace := ToBoth(Upload(id, Audio), clock, grace, expiresAt)
                         + ([Commit(0)] + (Steps(0, Start(id)) + [Commit(1)]));
      var s := Run(Begin(Issued(clock, grace, expiresAt), grace), trace);
      && id in s.sessions && s.sessions[id].log == [Requested, Uploaded, Consumed, Uploaded] && s.transcripts == [id]
  {
    var op := Upload(id, Audio);
    RunConcat(Begin(Issued(clock, grace, expiresAt), grace), ToBoth(op, clock, grace, expiresAt),
              [Commit(0)] + (Steps(0, Start(id)) + [Commit(1)]));
    BothAreReachable(op, clock, grace, expiresAt);
    SecondUploadReopens(BothInFlight(op, clock, grace, expiresAt), id, expiresAt);
  }

  // ---------------------------------------------------------------- a failed start

  /** The bytes of a session are gone and it was never transcribed. */
  predicate Lost(s: System, id: nat) {
    id in s.sessions && id !in s.disk && id !in s.transcripts
  }

  /** An upload in flight that has yet to store the bytes, or a start that has read them. */
  predicate Rescues(f: Flight, id: nat) {
    f == Flight(Upload(id, Audio), false) || f == Flight(Start(id), true)
  }

  /** Nothing in flight will bring the bytes, and no later upload will be let in. */
  ghost predicate Gone(s: System, id: nat) {
    && Logged(s) && id in s.sessions && id !in s.disk && !StatusOf(s, id).Requested?
    && forall t :: t in s.flights ==> s.flights[t] != Flight(Upload(id, Audio), false)
  }

  lemma GoneCommit(s: System, task: nat, id: nat)
    requires Gone(s, id) && task in s.flights && s.flights[task].done
    ensures Gone(Apply(s, Commit(task)), id)
  {
  }

  lemma GoneStep(s: System, e: Event, id: nat)
    requires Gone(s, id)
    ensures Gone(Apply(s, e), id)
  {
    if e.Commit? && e.task in s.flights && s.flights[e.task].done {
      GoneCommit(s, e.task, id);
    }
  }

  lemma {:induction false} GoneRuns(s: System, trace: seq<Event>, id: nat)
    requires Gone(s, id)
    ensures Gone(Run(s, trace), id)
  {
    if trace != [] {
      GoneRuns(s, trace[..|trace| - 1], id);
      GoneStep(Run(s, trace[..|trace| - 1]), trace[|trace| - 1], id);
    }
  }

  ghost predicate Stranded(s: System, id: nat) {
    && Gone(s, id) && id !in s.transcripts
    && forall t :: t in s.flights ==> s.flights[t] != Flight(Start(id), true)
  }

  lemma StrandedStep(s: System, e: Event, id: nat)
    requires Stranded(s, id)
    ensures Stranded(Apply(s, e), id)
  {
    GoneStep(s, e, id);
    if e.Commit? && e.task in s.flights && s.flights[e.task].done {
      CommitWrites(s, e.task);
    }
  }

  lemma {:induction false} StrandedRuns(s: System, trace: seq<Event>, id: nat)
    requires Stranded(s, id)
    ensures Stranded(Run(s, trace), id)
  {
    if trace != [] {
      StrandedRuns(s, trace[..|trace| - 1], id);
      StrandedStep(Run(s, trace[..|trace| - 1]), trace[|trace| - 1], id);
    }
  }

  /** A failed start leaves the row `uploaded` but takes the file with it. Whatever happens next,
      overlapping operations included, that session is never transcribed and its bytes never
      come back, exactly when no other upload of it had yet to store its bytes and no other start
      of it had already read them. */
  lemma FailedStartIsForGood(s: System, task: nat)
    requires Logged(s) && task in s.flights && s.flights[task].op.Start?
    requires FlightOk(s, s.flights[task]) && s.flights[task].op.id !in s.transcripts
    ensures var id := s.flights[task].op.id;
      var failed := Apply(s, Drop(task));
      && StatusOf(failed, id).Uploaded?
      && ((forall t :: t in s.flights && t != task ==> !Rescues(s.flights[t], id)) <==>
            forall trace :: Lost(Run(failed, trace), id))
  {
    var id := s.flights[task].op.id;
    var failed := Apply(s, Drop(task));
    if t :| t in s.flights && t != task && Rescues(s.flights[t], id) {
      var e := if s.flights[t].op.Upload? then Work(t) else Commit(t);
      RunOne(failed, e);
      assert failed.flights[t] == s.flights[t];
      assert !Lost(Run(failed, [e]), id);
    } else {
      forall trace ensures Lost(Run(failed, trace), id) {
        StrandedRuns(failed, trace, id);
      }
    }
  }

  /** While operations on one session do not overlap there never is such another operation. */
  lemma AloneIsForGood(s: System, task: nat, trace: seq<Event>)
    requires Inv(s) && task in s.flights && s.flights[task].op.Start? && s.flights[task].op.id !in s.transcripts
    ensures Lost(Run(Apply(s, Drop(task)), trace), s.flights[task].op.id)
  {
    FailedStartIsForGood(s, task);
    forall t | t in s.flights && t != task ensures !Rescues(s.flights[t], s.flights[task].op.id) {
      assert Ids(s.flights[t].op) !! Ids(s.flights[task].op);
    }
  }
}
