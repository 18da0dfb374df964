/** The upload and start handlers and the purge, run without anything in between, against the
    lifecycle's events; and the streaming loop with its size cap. */
module UploadHandlers {
  import opened Sessions
  import opened UploadLifecycle
  import UploadPurge

  function Flatten(chunks: seq<seq<int>>): seq<int> {
    if chunks == [] then [] else Flatten(chunks[..|chunks| - 1]) + chunks[|chunks| - 1]
  }

  /** The stored bytes are the chunks' in the order they came. */
  lemma {:induction false} FlattenKeepsOrder(a: seq<seq<int>>, b: seq<seq<int>>, c: seq<int>)
    ensures Flatten([c]) == c
    ensures Flatten(a + b) == Flatten(a) + Flatten(b)
    decreases b
  {
    assert [c][..0] == [];
    if b == [] {
      assert a + b == a;
    } else {
      var last := |b| - 1;
      FlattenKeepsOrder(a, b[..last], c);
      assert (a + b)[..|a + b| - 1] == a + b[..last];
    }
  }

  lemma {:induction false} FlattenPrefix(chunks: seq<seq<int>>, i: nat)
    requires i <= |chunks|
    ensures |Flatten(chunks[..i])| <= |Flatten(chunks)|
  {
    if i < |chunks| {
      FlattenPrefix(chunks[..|chunks| - 1], i);
      assert chunks[..|chunks| - 1][..i] == chunks[..i];
    } else {
      assert chunks[..i] == chunks;
    }
  }

  /** What the client or the disk may do: the read, or the write, of chunk `at` raises. */
  datatype Fault = NoFault | ReadFails(at: nat) | WriteFails(at: nat)

  datatype Outcome = Stored(file: seq<int>) | TooLarge | Raised

  /** How many chunks get as far as the size check. */
  function Checked(chunks: seq<seq<int>>, fault: Fault): (n: nat)
    ensures n <= |chunks|
  {
    match fault
    case NoFault => |chunks|
    case ReadFails(at) => if at <= |chunks| then at else |chunks|
    case WriteFails(at) => if at < |chunks| then at + 1 else |chunks|
  }

  predicate Strikes(chunks: seq<seq<int>>, fault: Fault) {
    match fault
    case NoFault => false
    case ReadFails(at) => at <= |chunks|
    case WriteFails(at) => at < |chunks|
  }

  /** The size is looked at after a chunk is read and before it is written. */
  predicate Overflows(chunks: seq<seq<int>>, maxBytes: nat, fault: Fault, i: nat)
    requires i < |chunks|
  {
    && |Flatten(chunks[..i + 1])| > maxBytes
    && !(fault.ReadFails? && fault.at <= i) && !(fault.WriteFails? && fault.at < i)
  }

  lemma OverflowIsSeen(chunks: seq<seq<int>>, maxBytes: nat, fault: Fault)
    ensures |Flatten(chunks[..Checked(chunks, fault)])| > maxBytes <==>
              exists i :: 0 <= i < |chunks| && Overflows(chunks, maxBytes, fault, i)
  {
    var n := Checked(chunks, fault);
    if |Flatten(chunks[..n])| > maxBytes {
      assert n > 0 && Overflows(chunks, maxBytes, fault, n - 1);
    }
    if i :| 0 <= i < |chunks| && Overflows(chunks, maxBytes, fault, i) {
      assert chunks[..n][..i + 1] == chunks[..i + 1];
      FlattenPrefix(chunks[..n], i + 1);
    }
  }

  /** Stores the body exactly when it fits and nothing raises, refuses it when what was read does
      not fit; how it was cut into reads does not matter. */
  method StreamBody(chunks: seq<seq<int>>, maxBytes: nat, fault: Fault) returns (outcome: Outcome)
    ensures outcome == if |Flatten(chunks[..Checked(chunks, fault)])| > maxBytes then TooLarge
                       else if Strikes(chunks, fault) then Raised
                       else Stored(Flatten(chunks))
    ensures outcome.TooLarge? <==> exists i :: 0 <= i < |chunks| && Overflows(chunks, maxBytes, fault, i)
    ensures outcome.Stored? ==> !(fault.ReadFails? && fault.at <= |chunks|) && !(fault.WriteFails? && fault.at < |chunks|)
  {
    OverflowIsSeen(chunks, maxBytes, fault);
    var bytesWritten, file: seq<int> := 0, [];
    ghost var n := Checked(chunks, fault);
    for i := 0 to |chunks|
      invariant i <= n && file == Flatten(chunks[..i]) && bytesWritten == |file| <= maxBytes
      invariant fault.WriteFails? ==> i <= fault.at
    {
      if fault == ReadFails(i) {
        return Raised;
      }
      assert chunks[..i + 1][..i] == chunks[..i];
      assert Flatten(chunks[..i + 1]) == file + chunks[i];
      bytesWritten := bytesWritten + |chunks[i]|;
      if bytesWritten > maxBytes {
        assert chunks[..n][..i + 1] == chunks[..i + 1];
        FlattenPrefix(chunks[..n], i + 1);
        return TooLarge;
      }
      if fault == WriteFails(i) {
        return Raised;
      }
      file := file + chunks[i];
    }
    assert chunks[..|chunks|] == chunks;
    outcome := if fault == ReadFails(|chunks|) then Raised else Stored(file);
  }

  /** The `Authorization` header: absent or malformed, not matching the stored hash, or right. */
  datatype Bearer = Missing | Wrong | Right

  /** How `orchestrate`, or the commit after it, ends. */
  datatype Pipeline = Returns | Busy | TimesOut | Raises

  /** Check, work, commit. */
  function Done(s: System, task: nat, op: Op): System {
    Apply(Apply(Apply(s, Check(task, op)), Work(task)), Commit(task))
  }

  /** Check, then give up. */
  function Abandoned(s: System, task: nat, op: Op): System {
    Apply(Apply(s, Check(task, op)), Drop(task))
  }

  /** Check and work, then fail to commit. */
  function RolledBack(s: System, task: nat, op: Op): System {
    Apply(Apply(Apply(s, Check(task, op)), Work(task)), Drop(task))
  }

  class UploadService {
    var state: System
    var files: map<nat, seq<int>>

    predicate Valid()
      reads this
    {
      Logged(state) && files.Keys == state.disk
    }

    constructor (state: System, files: map<nat, seq<int>>)
      requires Logged(state) && files.Keys == state.disk
      ensures Valid() && this.state == state && this.files == files
    {
      this.state, this.files := state, files;
    }

    /** `commits`: the update's commit goes through. An exception that escapes is answered 500. */
    method UploadAudio(task: nat, id: nat, bearer: Bearer, chunks: seq<seq<int>>, maxBytes: nat, fault: Fault, commits: bool)
      returns (code: int)
      requires Valid() && task !in state.flights
      modifies this
      ensures Valid()
      ensures code in {200, 400, 401, 404, 413, 500}
      ensures code == 404 <==>
        (!bearer.Missing? && !(id in old(state).sessions && StatusOf(old(state), id).Requested?
                               && old(state).clock <= old(state).sessions[id].expiresAt + old(state).grace))
      ensures code == 400 <==> !bearer.Missing? && code != 404 && old(state).sessions[id].kind != Audio
      ensures code == 401 <==> code !in {400, 404} && !bearer.Right?
      ensures code == 413 <==> code !in {400, 401, 404} && |Flatten(chunks[..Checked(chunks, fault)])| > maxBytes
      ensures code == 500 <==> code !in {400, 401, 404, 413} && (Strikes(chunks, fault) || !commits)
      ensures code == 200 ==> state == Done(old(state), task, Upload(id, Audio)) && files == old(files)[id := Flatten(chunks)]
      ensures code == 413 || (code == 500 && Strikes(chunks, fault)) ==>
                state == Abandoned(old(state), task, Upload(id, Audio)) && files == old(files) - {id}
      ensures code == 500 && !Strikes(chunks, fault) ==>
                state == RolledBack(old(state), task, Upload(id, Audio)) && files == old(files)[id := Flatten(chunks)]
      ensures code in {400, 401, 404} ==> state == old(state) && files == old(files)
    {
      if bearer.Missing? {
        return 401;
      }
      if id !in state.sessions || !StatusOf(state, id).Requested? {
        return 404;
      }
      if state.clock > state.sessions[id].expiresAt + state.grace {
        return 404;
      }
      if state.sessions[id].kind != Audio {
        return 400;
      }
      if bearer.Wrong? {
        return 401;
      }
      var outcome := StreamBody(chunks, maxBytes, fault);
      ghost var before := state;
      LandedFlights(before, task, Upload(id, Audio), true);
      if !outcome.Stored? {
        files := files - {id};
        state := state.(disk := state.disk - {id});
        return if outcome.TooLarge? then 413 else 500;
      }
      files := files[id := outcome.file];
      state := state.(disk := state.disk + {id});
      if !commits {
        return 500;
      }
      state := state.(sessions := SetStatus(state, {id}, Uploaded));
      code := 200;
    }

    /** Busy, timed out or failed, the answers differ and the damage is the same: the directory
        is removed with the row still `uploaded`. A missing file makes the pipeline raise. */
    method StartTranscription(task: nat, id: nat, pipeline: Pipeline) returns (code: int)
      requires Valid() && task !in state.flights
      modifies this
      ensures Valid()
      ensures code == 409 <==>
        id in old(state).sessions && old(state).sessions[id].kind.Audio? && StatusOf(old(state), id).Consumed?
      ensures code == 404 <==>
        (code != 409
         && !(id in old(state).sessions && old(state).sessions[id].kind.Audio? && StatusOf(old(state), id).Uploaded?
              && old(state).clock <= old(state).sessions[id].expiresAt + old(state).grace))
      ensures code == 200 <==> Startable(old(state), id) && pipeline.Returns?
      ensures CheckOk(old(state), Start(id)) ==>
        code == match pipeline
                case Busy => 503
                case TimesOut => 504
                case Raises => 500
                case Returns => if id in old(state).disk then 200 else 500
      ensures code == 200 ==> state == Done(old(state), task, Start(id))
      ensures code in {500, 503, 504} ==> state == Abandoned(old(state), task, Start(id))
      ensures code in {200, 500, 503, 504} ==> files == old(files) - {id}
      ensures code in {404, 409} ==> state == old(state) && files == old(files)
    {
      if id !in state.sessions || !state.sessions[id].kind.Audio? {
        return 404;
      }
      if StatusOf(state, id).Consumed? {
        return 409;
      }
      if !StatusOf(state, id).Uploaded? {
        return 404;
      }
      if state.clock > state.sessions[id].expiresAt + state.grace {
        return 404;
      }
      ghost var before := state;
      match pipeline {
        case Busy => code := 503;
        case TimesOut => code := 504;
        case Raises => code := 500;
        case Returns =>
          code := 500;
          if id in files {
            state := state.(sessions := SetStatus(state, {id}, Consumed), transcripts := state.transcripts + [id]);
            code := 200;
          }
      }
      files := files - {id};
      state := state.(disk := state.disk - {id});
      LandedFlights(before, task, Start(id), id in before.disk);
    }
  }

  /** A task that checked in and left again is not in flight. */
  lemma LandedFlights(s: System, task: nat, op: Op, done: bool)
    requires task !in s.flights
    ensures s.flights[task := Flight(op, false)] - {task} == s.flights
    ensures s.flights[task := Flight(op, false)][task := Flight(op, done)] - {task} == s.flights
  {
  }

  /** A start that runs now, and whose pipeline returns, answers 200. */
  predicate Startable(s: System, id: nat) {
    Logged(s) && CheckOk(s, Start(id)) && id in s.disk
  }

  /** A start that did not return leaves the row `uploaded` and has removed the only copy of the
      bytes: no later attempt on that session can answer 200, whatever else happens, exactly when
      no upload of it was in flight with its bytes yet to be stored. */
  lemma RetryCannotSucceed(s: System, task: nat, id: nat)
    requires Logged(s) && task !in s.flights && CheckOk(s, Start(id))
    ensures var failed := Abandoned(s, task, Start(id));
      (forall t :: t in s.flights ==> s.flights[t] != Flight(Upload(id, Audio), false)) <==>
        forall trace :: !Startable(Run(failed, trace), id)
  {
    var failed := Abandoned(s, task, Start(id));
    assert failed.flights == s.flights && failed.sessions == s.sessions && failed.clock == s.clock;
    if t :| t in s.flights && s.flights[t] == Flight(Upload(id, Audio), false) {
      RunOne(failed, Work(t));
      assert Startable(Run(failed, [Work(t)]), id);
    } else {
      forall trace ensures !Startable(Run(failed, trace), id) {
        GoneRuns(failed, trace, id);
      }
    }
  }

  // ---------------------------------------------------------------- the purge

  function RowsOf(s: System): map<nat, UploadPurge.Row>
    requires Logged(s)
  {
    map id | id in s.sessions :: UploadPurge.Row(StatusOf(s, id), s.sessions[id].expiresAt)
  }

  function DirsOf(disk: set<nat>): map<nat, set<string>> {
    map id | id in disk :: {"original.bin"}
  }

  /** What the purge sees of the lifecycle: rows, and a directory per stored upload. */
  function Seen(s: System): UploadPurge.State
    requires Logged(s)
  {
    UploadPurge.State(RowsOf(s), DirsOf(s.disk))
  }

  lemma RowsMarked(s: System, s': System, ids: set<nat>)
    requires Logged(s) && s'.sessions == SetStatus(s, ids, Expired)
    ensures Logged(s') && RowsOf(s') == UploadPurge.Marked(RowsOf(s), ids)
  {
  }

  lemma DirsRemoved(disk: set<nat>, ids: set<nat>)
    ensures DirsOf(disk - ids) == UploadPurge.Removed(DirsOf(disk), ids, map[])
  {
  }

  lemma SameCandidates(s: System)
    requires Logged(s)
    ensures UploadPurge.Candidates(RowsOf(s), s.clock - s.grace) == Candidates(s)
  {
  }

  /** The purge run alone is the lifecycle's purge: same rows marked, same directories gone. */
  lemma PurgeRunsTheLifecycle(s: System, task: nat)
    requires Logged(s) && task !in s.flights
    ensures var after := Done(s, task, Purge(Candidates(s)));
      Logged(after) && Seen(after) == UploadPurge.Purged(Seen(s), s.clock - s.grace, map[])
  {
    RunsThrough(s, task, Purge(Candidates(s)));
    RunThree(s, Check(task, Purge(Candidates(s))), Work(task), Commit(task));
    SameCandidates(s);
    RowsMarked(s, DoCommit(s.(disk := s.disk - Candidates(s)), Purge(Candidates(s))), Candidates(s));
    DirsRemoved(s.disk, Candidates(s));
  }
}
