/** The upload-session purge: remove each overdue session's directory, then mark all the rows in
    one transaction. It may stop anywhere; the next run must pick up the pieces. */
module UploadPurge {
  import opened Basics
  import opened Sessions

  datatype Row = Row(status: Status, expiresAt: int)

  /** `dirs`: the files left in each session's directory; absent means no directory. */
  datatype State = State(rows: map<nat, Row>, dirs: map<nat, set<string>>)

  /** The directories whose `rmtree` raises, with the files it cannot remove. */
  type Denials = map<nat, set<string>>

  predicate Pending(r: Row) {
    r.status in {Requested, Uploaded}
  }

  predicate IsCandidate(r: Row, cutoff: int) {
    Pending(r) && r.expiresAt < cutoff
  }

  function Candidates(rows: map<nat, Row>, cutoff: int): set<nat> {
    set id | id in rows && IsCandidate(rows[id], cutoff)
  }

  function Marked(rows: map<nat, Row>, ids: set<nat>): map<nat, Row> {
    map id | id in rows :: if id in ids then rows[id].(status := Expired) else rows[id]
  }

  /** A denied directory keeps what could not be removed; the others of `ids` are gone. */
  function Removed(dirs: map<nat, set<string>>, ids: set<nat>, denied: Denials): map<nat, set<string>> {
    map id | id in dirs && (id !in ids || id in denied) :: if id in ids then dirs[id] * denied[id] else dirs[id]
  }

  /** An uninterrupted run; a denied removal is only logged. */
  function Purged(s: State, cutoff: int, denied: Denials): State {
    State(Marked(s.rows, Candidates(s.rows, cutoff)), Removed(s.dirs, Candidates(s.rows, cutoff), denied))
  }

  // ---------------------------------------------------------------- the code

  class UploadStore {
    var rows: map<nat, Row>
    var dirs: map<nat, set<string>>

    function View(): State
      reads this
    {
      State(rows, dirs)
    }

    constructor (s: State)
      ensures View() == s
    {
      rows, dirs := s.rows, s.dirs;
    }

    /** False when `rmtree` raises; it has then removed what it could. */
    method RemoveTree(id: nat, denied: Denials) returns (ok: bool)
      modifies this`dirs
      ensures ok <==> id !in old(dirs) || id !in denied
      ensures ok ==> dirs == old(dirs) - {id}
      ensures !ok ==> dirs == old(dirs)[id := old(dirs)[id] * denied[id]]
    {
      ok := true;
      if id in dirs {
        if id in denied {
          dirs := dirs[id := dirs[id] * denied[id]];
          ok := false;
        } else {
          dirs := dirs - {id};
        }
      }
    }

    method RemoveTrees(listed: seq<nat>, denied: Denials)
      modifies this`dirs
      ensures dirs == Removed(old(dirs), ToSet(listed), denied)
    {
      ghost var before := dirs;
      assert Removed(before, {}, denied) == before;
      for i := 0 to |listed|
        invariant dirs == Removed(before, ToSet(listed[..i]), denied)
      {
        RemovedOneMore(before, listed, i, denied);
        var _ := RemoveTree(listed[i], denied);
      }
      assert listed[..|listed|] == listed;
    }

    /** `listed` is the SELECT's answer in any order; the result counts the rows marked. */
    method PurgeExpiredUploadSessions(cutoff: int, listed: seq<nat>, denied: Denials) returns (expired: nat)
      requires ToSet(listed) == Candidates(rows, cutoff)
      requires Distinct(listed)
      modifies this
      ensures View() == Purged(old(View()), cutoff, denied)
      ensures expired == |Candidates(old(rows), cutoff)|
    {
      DistinctCount(listed);
      RemoveTrees(listed, denied);
      expired := 0;
      if listed != [] {
        rows := Marked(rows, ToSet(listed));
        expired := |listed|;
      } else {
        assert Marked(rows, {}) == rows;
      }
    }
  }

  lemma RemovedOneMore(dirs: map<nat, set<string>>, listed: seq<nat>, i: nat, denied: Denials)
    requires i < |listed|
    ensures var (left, id) := (Removed(dirs, ToSet(listed[..i]), denied), listed[i]);
      Removed(dirs, ToSet(listed[..i + 1]), denied) ==
      if id !in left then left else if id in denied then left[id := left[id] * denied[id]] else left - {id}
  {
    assert listed[..i + 1] == listed[..i] + [listed[i]];
    assert ToSet(listed[..i + 1]) == ToSet(listed[..i]) + {listed[i]};
    if listed[i] in dirs && listed[i] in denied {
      assert dirs[listed[i]] * denied[listed[i]] * denied[listed[i]] == dirs[listed[i]] * denied[listed[i]];
    }
  }

  // ---------------------------------------------------------------- stopping anywhere

  /** A run over `listed` that stops: `removed` directories are done, the next one has lost the
      files `lost`, and no row is marked (the transaction never committed). */
  datatype Stop = Stop(cutoff: int, listed: seq<nat>, removed: nat, lost: set<string>, denied: Denials)

  function Reached(stop: Stop): nat {
    if stop.removed <= |stop.listed| then stop.removed else |stop.listed|
  }

  /** What the stopped `rmtree` had removed already. */
  function Partly(dirs: map<nat, set<string>>, id: nat, lost: set<string>, denied: Denials): map<nat, set<string>> {
    if id !in dirs then dirs else dirs[id := dirs[id] - (if id in denied then lost - denied[id] else lost)]
  }

  function Interrupted(s: State, stop: Stop): State {
    var dirs := Removed(s.dirs, ToSet(stop.listed[..Reached(stop)]), stop.denied);
    State(s.rows, if Reached(stop) < |stop.listed| then Partly(dirs, stop.listed[Reached(stop)], stop.lost, stop.denied) else dirs)
  }

  function Crashes(s: State, stops: seq<Stop>): State {
    if stops == [] then s else Interrupted(Crashes(s, stops[..|stops| - 1]), stops[|stops| - 1])
  }

  predicate Lists(rows: map<nat, Row>, stop: Stop) {
    ToSet(stop.listed) == Candidates(rows, stop.cutoff)
  }

  // What a stopped run took from directory `id`: the directory itself, or file `f` of it.

  predicate TookDir(stop: Stop, id: nat) {
    id in stop.listed[..Reached(stop)] && id !in stop.denied
  }

  predicate Took(stop: Stop, id: nat, f: string) {
    || (id in stop.listed[..Reached(stop)] && (id in stop.denied ==> f !in stop.denied[id]))
    || (Reached(stop) < |stop.listed| && stop.listed[Reached(stop)] == id && f in stop.lost
        && (id in stop.denied ==> f !in stop.denied[id]))
  }

  lemma OneStopTakes(s: State, stop: Stop, id: nat, f: string)
    ensures var s' := Interrupted(s, stop);
      && s'.rows == s.rows
      && (id in s'.dirs <==> id in s.dirs && !TookDir(stop, id))
      && (id in s'.dirs ==> (f in s'.dirs[id] <==> f in s.dirs[id] && !Took(stop, id, f)))
  {
    assert id in ToSet(stop.listed[..Reached(stop)]) <==> id in stop.listed[..Reached(stop)];
  }

  lemma {:induction false} StopsTake(s: State, stops: seq<Stop>, id: nat, f: string)
    ensures var s' := Crashes(s, stops);
      && s'.rows == s.rows
      && (id in s'.dirs <==> id in s.dirs && forall stop :: stop in stops ==> !TookDir(stop, id))
      && (id in s'.dirs ==> (f in s'.dirs[id] <==> f in s.dirs[id] && forall stop :: stop in stops ==> !Took(stop, id, f)))
  {
    if stops != [] {
      var front, last := stops[..|stops| - 1], stops[|stops| - 1];
      assert stops == front + [last];
      StopsTake(s, front, id, f);
      OneStopTakes(Crashes(s, front), last, id, f);
    }
  }

  /** The stopped run left alone what the last run will not be able to remove. */
  predicate Spares(stop: Stop, id: nat, files: set<string>) {
    !TookDir(stop, id) && forall f :: f in files ==> !Took(stop, id, f)
  }

  lemma NotListedIsLeft(rows: map<nat, Row>, stop: Stop, cutoff: int, id: nat, f: string)
    requires Lists(rows, stop) && stop.cutoff <= cutoff && id !in Candidates(rows, cutoff)
    ensures !TookDir(stop, id) && !Took(stop, id, f)
  {
    assert ToSet(stop.listed) <= Candidates(rows, cutoff);
    assert id !in stop.listed by {
      assert id !in ToSet(stop.listed);
    }
    assert Reached(stop) < |stop.listed| ==> stop.listed[Reached(stop)] in stop.listed;
  }

  predicate SameAt(left: map<nat, set<string>>, right: map<nat, set<string>>, id: nat, f: string) {
    (id in left <==> id in right) && (id in left ==> (f in left[id] <==> f in right[id]))
  }

  lemma SameRemoved(left: map<nat, set<string>>, right: map<nat, set<string>>)
    requires forall id: nat, f: string :: SameAt(left, right, id, f)
    ensures left == right
  {
    forall id: nat ensures (id in left <==> id in right) && (id in left ==> left[id] == right[id]) {
      assert SameAt(left, right, id, "");
      if id in left {
        forall f ensures f in left[id] <==> f in right[id] {
          assert SameAt(left, right, id, f);
        }
      }
    }
  }

  predicate AllSpare(s: State, stops: seq<Stop>, cutoff: int, denied: Denials) {
    forall id, stop :: id in Candidates(s.rows, cutoff) && id in s.dirs && id in denied && stop in stops ==>
      Spares(stop, id, s.dirs[id] * denied[id])
  }

  /** Any number of runs, each stopped anywhere (between directories, inside one, or before the
      commit) and under its own denials, then one whole run: always the same rows as never having
      stopped; and the same directories and leftover files exactly when no stopped run removed
      what the last one is denied. In particular always, when the last run is denied nothing. */
  lemma PurgeIsCrashRecoverable(s: State, stops: seq<Stop>, cutoff: int, denied: Denials)
    requires forall stop :: stop in stops ==> Lists(s.rows, stop) && stop.cutoff <= cutoff
    ensures var after, once := Purged(Crashes(s, stops), cutoff, denied), Purged(s, cutoff, denied);
      after.rows == once.rows && (after == once <==> AllSpare(s, stops, cutoff, denied))
  {
    var crashed := Crashes(s, stops);
    var after, once := Purged(crashed, cutoff, denied), Purged(s, cutoff, denied);
    StopsTake(s, stops, 0, "");
    if AllSpare(s, stops, cutoff, denied) {
      forall id: nat, f: string
        ensures SameAt(after.dirs, once.dirs, id, f)
      {
        SparedIsSame(s, stops, cutoff, denied, id, f);
      }
      SameRemoved(after.dirs, once.dirs);
    } else {
      var id, stop :| id in Candidates(s.rows, cutoff) && id in s.dirs && id in denied && stop in stops
                      && !Spares(stop, id, s.dirs[id] * denied[id]);
      TakenIsDifferent(s, stops, cutoff, denied, id, stop);
    }
  }

  lemma SparedIsSame(s: State, stops: seq<Stop>, cutoff: int, denied: Denials, id: nat, f: string)
    requires forall stop :: stop in stops ==> Lists(s.rows, stop) && stop.cutoff <= cutoff
    requires AllSpare(s, stops, cutoff, denied)
    ensures SameAt(Purged(Crashes(s, stops), cutoff, denied).dirs, Purged(s, cutoff, denied).dirs, id, f)
  {
    StopsTake(s, stops, id, f);
    if id in s.dirs {
      forall stop | stop in stops
        ensures id !in Candidates(s.rows, cutoff) || id in denied ==> !TookDir(stop, id)
        ensures id !in Candidates(s.rows, cutoff) || (id in denied && f in s.dirs[id] * denied[id]) ==> !Took(stop, id, f)
      {
        if id in Candidates(s.rows, cutoff) {
          assert id in denied ==> Spares(stop, id, s.dirs[id] * denied[id]);
        } else {
          NotListedIsLeft(s.rows, stop, cutoff, id, f);
        }
      }
    }
  }

  lemma TakenIsDifferent(s: State, stops: seq<Stop>, cutoff: int, denied: Denials, id: nat, stop: Stop)
    requires id in Candidates(s.rows, cutoff) && id in s.dirs && id in denied && stop in stops
    requires !Spares(stop, id, s.dirs[id] * denied[id])
    ensures Purged(Crashes(s, stops), cutoff, denied).dirs != Purged(s, cutoff, denied).dirs
  {
    var after, once := Purged(Crashes(s, stops), cutoff, denied).dirs, Purged(s, cutoff, denied).dirs;
    StopsTake(s, stops, id, "");
    if TookDir(stop, id) {
      assert id in once && id !in after;
    } else {
      var f :| f in s.dirs[id] * denied[id] && Took(stop, id, f);
      StopsTake(s, stops, id, f);
      assert id in after ==> f !in after[id];
      assert f in once[id];
    }
  }

  /** No expired row has a directory. */
  predicate NoOrphan(s: State) {
    forall id :: id in s.rows && s.rows[id].status.Expired? ==> id !in s.dirs
  }

  /** Starting without orphans, a run leaves none, stopped anywhere or finished, exactly when no
      overdue session has a directory that cannot be removed. */
  lemma OrphansComeOnlyFromDenial(s: State, cutoff: int, denied: Denials)
    requires NoOrphan(s)
    ensures NoOrphan(Purged(s, cutoff, denied)) <==>
              forall id :: id in Candidates(s.rows, cutoff) && id in s.dirs ==> id !in denied
    ensures forall stop :: Lists(s.rows, stop) ==> NoOrphan(Interrupted(s, stop))
  {
    var after := Purged(s, cutoff, denied);
    if id :| id in Candidates(s.rows, cutoff) && id in s.dirs && id in denied {
      assert id in after.rows && after.rows[id].status.Expired? && id in after.dirs;
    }
    forall id | id in after.rows && after.rows[id].status.Expired? && id in after.dirs
      ensures id in Candidates(s.rows, cutoff) && id in s.dirs && id in denied
    {
    }
  }

  // ---------------------------------------------------------------- any passes

  datatype Pass = Stopped(stop: Stop) | Whole(cutoff: int, denied: Denials)

  function CutoffOf(p: Pass): int {
    if p.Stopped? then p.stop.cutoff else p.cutoff
  }

  function OnePass(s: State, p: Pass): State {
    match p
    case Stopped(stop) => Interrupted(s, stop)
    case Whole(cutoff, denied) => Purged(s, cutoff, denied)
  }

  function Passes(s: State, passes: seq<Pass>): State {
    if passes == [] then s else OnePass(Passes(s, passes[..|passes| - 1]), passes[|passes| - 1])
  }

  /** Each stopped pass works on the rows selected when it ran. */
  predicate Selected(s: State, passes: seq<Pass>) {
    passes == [] ||
    (var last := |passes| - 1;
     Selected(s, passes[..last]) && (passes[last].Stopped? ==> Lists(Passes(s, passes[..last]).rows, passes[last].stop)))
  }

  predicate SameDir(s: State, s': State, id: nat) {
    (id in s'.dirs <==> id in s.dirs) && (id in s.dirs ==> s'.dirs[id] == s.dirs[id])
  }

  lemma OnePassLeaves(s: State, p: Pass, id: nat)
    requires p.Stopped? ==> Lists(s.rows, p.stop)
    requires id !in Candidates(s.rows, CutoffOf(p))
    ensures SameDir(s, OnePass(s, p), id)
  {
  }

  /** After any passes, stopped or whole, in any order and with any cutoffs: a row is expired
      exactly when it was pending and some whole pass found it overdue, and no row changes
      otherwise; a directory stays as it was unless some pass found its pending row overdue. */
  lemma {:induction false} PassesTakeOnlyOverdue(s: State, passes: seq<Pass>, id: nat)
    requires Selected(s, passes)
    ensures var after := Passes(s, passes);
      && after.rows.Keys == s.rows.Keys
      && (id in s.rows ==>
            after.rows[id] == if s.rows[id].status in {Requested, Uploaded}
                                 && exists p :: p in passes && p.Whole? && s.rows[id].expiresAt < p.cutoff
                              then s.rows[id].(status := Expired) else s.rows[id])
      && ((id !in s.rows || s.rows[id].status in {Consumed, Expired}
           || forall p :: p in passes ==> s.rows[id].expiresAt >= CutoffOf(p)) ==> SameDir(s, after, id))
  {
    if passes != [] {
      var front, last := passes[..|passes| - 1], passes[|passes| - 1];
      assert passes == front + [last];
      PassesTakeOnlyOverdue(s, front, id);
      assert last in passes;
      if id !in Candidates(Passes(s, front).rows, CutoffOf(last)) {
        OnePassLeaves(Passes(s, front), last, id);
      }
    }
  }

  // ---------------------------------------------------------------- the order matters

  /** The inverse order, stopped between marking and removing. */
  function MarkedOnly(s: State, cutoff: int): State {
    State(Marked(s.rows, Candidates(s.rows, cutoff)), s.dirs)
  }

  /** Marking first is recoverable exactly when there was nothing to remove: the rerun no longer
      selects the marked rows. */
  lemma MarkingFirstLeaksExactlyWhen(s: State, cutoff: int)
    ensures Purged(MarkedOnly(s, cutoff), cutoff, map[]) == Purged(s, cutoff, map[]) <==>
              forall id :: id in Candidates(s.rows, cutoff) ==> id !in s.dirs
  {
    var m := MarkedOnly(s, cutoff);
    assert Candidates(m.rows, cutoff) == {};
    assert Marked(m.rows, {}) == m.rows;
    var again := Purged(m, cutoff, map[]);
    assert again.dirs == s.dirs;
    var once := Purged(s, cutoff, map[]);
    if id :| id in Candidates(s.rows, cutoff) && id in s.dirs {
      assert id in again.dirs && id !in once.dirs;
    } else {
      assert once.dirs == s.dirs;
    }
  }
}
