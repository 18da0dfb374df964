/** The cache under any history of requests, purges, corruptions, faults and aborts. */
module CacheHistory {
  import opened Basics
  import opened Pipeline
  import opened CacheStore

  /** What a request hashes to and what it is worth. */
  datatype Oracle = Oracle(hash: Request -> string, worth: Request -> Option<Payload>)

  ghost predicate WellFormed(o: Oracle) {
    forall r :: o.worth(r).Some? ==>
      !o.worth(r).value.meta.cacheHit && o.worth(r).value.audioHash == o.hash(r)
  }

  function WithHit(p: Payload, hash: string): Payload {
    p.(audioHash := hash, meta := p.meta.(cacheHit := true))
  }

  /** The payload with `metadata.cache_hit` put back to false. */
  function Canonical(p: Payload): Payload {
    p.(meta := p.meta.(cacheHit := false))
  }

  /** What may go wrong in one request besides the inputs. */
  datatype Faults = Faults(stt: bool, diarize: bool, put: PutFault<Payload>, flush: bool)

  const NO_FAULTS := Faults(false, false, NoFault, false)

  type Files = map<Path, Content<Payload>>

  /** After the lookup: the files left behind, and the payload if the request succeeds. */
  function Finish(o: Oracle, files: Files, r: Request, found: Lookup<Payload>, faults: Faults)
    : (Files, Option<Payload>)
  {
    match found
    case InvalidHash => (files, None)
    case DecodeError => (files, None)
    case Unusable => (files, None)
    case Hit(p) => (files, if faults.flush then None else Some(WithHit(p, o.hash(r))))
    case Miss =>
      match o.worth(r)
      case None => (files, None)
      case Some(p) =>
        if faults.stt || (faults.diarize && !p.meta.silent) then (files, None)
        else
          (Put(files, r.user, o.hash(r), p, faults.put),
           if !ValidHash(o.hash(r)) || !faults.put.NoFault? || faults.flush then None else Some(p))
  }

  function Find(o: Oracle, files: Files, r: Request): Lookup<Payload> {
    Get(files, r.user, o.hash(r))
  }

  datatype Answer = Answer(request: Request, payload: Payload)

  /** `past`: every request begun so far. `pending`: the one between lookup and completion. */
  datatype System = System(files: Files, past: set<Request>, pending: Option<(Request, Lookup<Payload>)>,
                           answers: seq<Answer>, rows: seq<Row>)

  const EMPTY := System(map[], {}, None, [], [])

  /** What a corrupted entry may hold. */
  datatype Garbage = NotJson | NotAPayload | NotUtf8

  function Garbled(g: Garbage): Content<Payload> {
    match g
    case NotJson => BadJson
    case NotAPayload => NotPayload
    case NotUtf8 => BadUtf8
  }

  datatype Event =
    | Begin(request: Request, readFails: bool)
    | Complete(faults: Faults)
    | Abort
    | Purge(entries: set<Path>)
    | Corrupt(user: nat, hash: string, garbage: Garbage)

  function Apply(o: Oracle, s: System, event: Event): System {
    match event
    case Begin(r, readFails) =>
      if s.pending.Some? then s
      else s.(past := s.past + {r}, pending := Some((r, GetOr(s.files, r.user, o.hash(r), readFails))))
    case Complete(faults) =>
      if s.pending.None? then s
      else
        var (r, found) := s.pending.value;
        var (files, answer) := Finish(o, s.files, r, found, faults);
        if answer.None? then s.(files := files, pending := None)
        else System(files, s.past, None, s.answers + [Answer(r, answer.value)],
                    s.rows + [Row(r.user, answer.value)])
    case Abort => s.(pending := None)
    case Purge(entries) => s.(files := s.files - entries)
    case Corrupt(user, hash, garbage) =>
      s.(files := s.files[Path(user, hash, ResultFile) := Garbled(garbage)])
  }

  function Run(o: Oracle, s: System, history: seq<Event>): System {
    if history == [] then s
    else
      var last := |history| - 1;
      Apply(o, Run(o, s, history[..last]), history[last])
  }

  /** A request's lookup and faultless completion, with nothing in between. */
  function Serve(o: Oracle, s: System, r: Request): System {
    Apply(o, Apply(o, s, Begin(r, false)), Complete(NO_FAULTS))
  }

  // ---------------------------------------------------------------- the invariant

  predicate SameKey(o: Oracle, a: Request, b: Request) {
    a.user == b.user && o.hash(a) == o.hash(b)
  }

  function EntryOf(o: Oracle, r: Request): Path {
    Path(r.user, o.hash(r), ResultFile)
  }

  /** Some request of the same user and hash is worth this payload. */
  ghost predicate Backed(o: Oracle, past: set<Request>, path: Path, p: Payload) {
    exists r :: r in past && EntryOf(o, r) == path && o.worth(r) == Some(p)
  }

  ghost predicate FilesOk(o: Oracle, past: set<Request>, files: Files) {
    forall path :: path in files && path.name.ResultFile? && files[path].Json? ==>
      Backed(o, past, path, files[path].payload)
  }

  ghost predicate PendingOk(o: Oracle, s: System) {
    s.pending.Some? ==>
      var (r, found) := s.pending.value;
      && r in s.past
      && (found.Hit? ==> ValidHash(o.hash(r)) && Backed(o, s.past, EntryOf(o, r), found.payload))
  }

  /** An answer with a usable hash, its own, that is worth what some request of the same user and
      hash is worth; without the cache flag, exactly what its own request is worth. */
  ghost predicate Sourced(o: Oracle, past: set<Request>, a: Answer) {
    && a.request in past && ValidHash(o.hash(a.request)) && a.payload.audioHash == o.hash(a.request)
    && Backed(o, past, EntryOf(o, a.request), Canonical(a.payload))
    && (!a.payload.meta.cacheHit ==> o.worth(a.request) == Some(a.payload))
  }

  ghost predicate AnswersOk(o: Oracle, s: System) {
    && |s.answers| == |s.rows|
    && forall i :: 0 <= i < |s.answers| ==>
         s.rows[i] == Row(s.answers[i].request.user, s.answers[i].payload) && Sourced(o, s.past, s.answers[i])
  }

  ghost predicate Inv(o: Oracle, s: System) {
    FilesOk(o, s.past, s.files) && PendingOk(o, s) && AnswersOk(o, s)
  }

  lemma BeginKeepsInv(o: Oracle, s: System, r: Request, readFails: bool)
    requires Inv(o, s)
    ensures Inv(o, Apply(o, s, Begin(r, readFails)))
  {
  }

  lemma FinishKeepsFiles(o: Oracle, past: set<Request>, files: Files, r: Request, found: Lookup<Payload>, faults: Faults)
    requires FilesOk(o, past, files) && r in past
    ensures FilesOk(o, past, Finish(o, files, r, found, faults).0)
  {
  }

  lemma FinishIsSourced(o: Oracle, past: set<Request>, files: Files, r: Request, found: Lookup<Payload>, faults: Faults)
    requires WellFormed(o) && r in past
    requires found.Hit? ==> ValidHash(o.hash(r)) && Backed(o, past, EntryOf(o, r), found.payload)
    requires Finish(o, files, r, found, faults).1.Some?
    ensures Sourced(o, past, Answer(r, Finish(o, files, r, found, faults).1.value))
  {
  }

  lemma StepKeepsInv(o: Oracle, s: System, event: Event)
    requires WellFormed(o) && Inv(o, s)
    ensures Inv(o, Apply(o, s, event))
  {
    match event
    case Begin(r, readFails) => BeginKeepsInv(o, s, r, readFails);
    case Complete(faults) =>
      if s.pending.Some? {
        var (r, found) := s.pending.value;
        FinishKeepsFiles(o, s.past, s.files, r, found, faults);
        if Finish(o, s.files, r, found, faults).1.Some? {
          FinishIsSourced(o, s.past, s.files, r, found, faults);
        }
      }
    case _ =>
  }

  lemma {:induction false} RunKeepsInv(o: Oracle, history: seq<Event>)
    requires WellFormed(o)
    ensures Inv(o, Run(o, EMPTY, history))
  {
    if history != [] {
      RunKeepsInv(o, history[..|history| - 1]);
      StepKeepsInv(o, Run(o, EMPTY, history[..|history| - 1]), history[|history| - 1]);
    }
  }

  // ---------------------------------------------------------------- what answers are

  /** In every history, whatever is purged, corrupted, faulty or aborted: one row per success,
      holding the answer; each answer carries its own hash and is what some request of the same
      user and hash is worth, and an answer without the cache flag is what its own is worth. */
  lemma AnswersAreSourced(o: Oracle, history: seq<Event>)
    requires WellFormed(o)
    ensures var s := Run(o, EMPTY, history);
      && |s.rows| == |s.answers|
      && forall i :: 0 <= i < |s.answers| ==>
           var (asked, p) := (s.answers[i].request, s.answers[i].payload);
           && s.rows[i] == Row(asked.user, p) && p.audioHash == o.hash(asked)
           && (exists q :: q in s.past && SameKey(o, q, asked) && o.worth(q) == Some(Canonical(p)))
           && (!p.meta.cacheHit ==> o.worth(asked) == Some(p))
  {
    RunKeepsInv(o, history);
    var s := Run(o, EMPTY, history);
    forall i | 0 <= i < |s.answers|
      ensures exists q :: q in s.past && SameKey(o, q, s.answers[i].request) && o.worth(q) == Some(Canonical(s.answers[i].payload))
    {
      var a := s.answers[i];
      assert Sourced(o, s.past, a);
      var q :| q in s.past && EntryOf(o, q) == EntryOf(o, a.request) && o.worth(q) == Some(Canonical(a.payload));
      assert SameKey(o, q, a.request);
    }
  }

  /** Requests that share a usable cache key are worth the same. */
  predicate Agreeing(o: Oracle, requests: set<Request>) {
    forall a, b :: a in requests && b in requests && SameKey(o, a, b) && ValidHash(o.hash(a)) && o.worth(a).Some? ==>
      o.worth(b) == o.worth(a)
  }

  /** One row per success, and every answer and row is what recomputing its request gives. */
  ghost predicate AgreesWithRecompute(o: Oracle, s: System) {
    && |s.rows| == |s.answers|
    && forall i :: 0 <= i < |s.answers| ==>
         && s.rows[i] == Row(s.answers[i].request.user, s.answers[i].payload)
         && o.worth(s.answers[i].request) == Some(Canonical(s.answers[i].payload))
  }

  lemma SourcedAgrees(o: Oracle, history: seq<Event>)
    requires WellFormed(o) && Agreeing(o, Run(o, EMPTY, history).past)
    ensures AgreesWithRecompute(o, Run(o, EMPTY, history))
  {
    RunKeepsInv(o, history);
    var s := Run(o, EMPTY, history);
    forall i | 0 <= i < |s.answers| ensures o.worth(s.answers[i].request) == Some(Canonical(s.answers[i].payload)) {
      var a := s.answers[i];
      assert Sourced(o, s.past, a);
      var q :| q in s.past && EntryOf(o, q) == EntryOf(o, a.request) && o.worth(q) == Some(Canonical(a.payload));
      assert SameKey(o, q, a.request);
    }
  }

  /** Over any set of requests, the cached pipeline agrees with recomputing in every history of
      those requests exactly when requests with one key are worth the same. */
  lemma CacheAgreesExactlyWhen(o: Oracle, requests: set<Request>)
    requires WellFormed(o)
    ensures Agreeing(o, requests) <==>
      forall history :: Run(o, EMPTY, history).past <= requests ==> AgreesWithRecompute(o, Run(o, EMPTY, history))
  {
    if Agreeing(o, requests) {
      forall history | Run(o, EMPTY, history).past <= requests
        ensures AgreesWithRecompute(o, Run(o, EMPTY, history))
      {
        SourcedAgrees(o, history);
      }
    } else {
      var a, b :| a in requests && b in requests && SameKey(o, a, b) && ValidHash(o.hash(a))
                  && o.worth(a).Some? && o.worth(b) != o.worth(a);
      var history := SecondAnswerDisagrees(o, a, b);
      assert Run(o, EMPTY, history).past <= requests;
    }
  }

  lemma ServeMiss(o: Oracle, s: System, r: Request)
    requires s.pending.None? && ValidHash(o.hash(r)) && Find(o, s.files, r).Miss? && o.worth(r).Some?
    ensures var s' := Serve(o, s, r);
      && s'.answers == s.answers + [Answer(r, o.worth(r).value)] && s'.pending.None? && s'.past == s.past + {r}
      && Find(o, s'.files, r) == Hit(o.worth(r).value)
  {
  }

  lemma SecondAnswerDisagrees(o: Oracle, a: Request, b: Request) returns (history: seq<Event>)
    requires WellFormed(o) && SameKey(o, a, b) && ValidHash(o.hash(a)) && o.worth(a).Some?
    requires o.worth(b) != o.worth(a)
    ensures Run(o, EMPTY, history).past == {a, b} && !AgreesWithRecompute(o, Run(o, EMPTY, history))
  {
    var s2 := Serve(o, EMPTY, a);
    ServeMiss(o, EMPTY, a);
    var h1, h2 := [Begin(a, false)], [Begin(a, false), Complete(NO_FAULTS)];
    var h3 := h2 + [Begin(b, false)];
    history := h3 + [Complete(NO_FAULTS)];
    assert h1[..0] == [] && h2[..1] == h1 && h3[..2] == h2 && history[..3] == h3;
    assert Run(o, EMPTY, h1) == Apply(o, EMPTY, Begin(a, false));
    assert Run(o, EMPTY, h2) == s2;
    assert Run(o, EMPTY, h3) == Apply(o, s2, Begin(b, false));
    var s := Run(o, EMPTY, history);
    assert s == Serve(o, s2, b);
    assert s.answers[1] == Answer(b, WithHit(o.worth(a).value, o.hash(b)));
    assert Canonical(s.answers[1].payload) == o.worth(a).value;
  }

  // ---------------------------------------------------------------- what corruption does

  /** The stored entry parses to no payload, or is not UTF-8: a request that reads it raises. */
  predicate Blocked(o: Oracle, files: Files, r: Request) {
    EntryOf(o, r) in files && (files[EntryOf(o, r)].NotPayload? || files[EntryOf(o, r)].BadUtf8?)
  }

  predicate Damages(o: Oracle, r: Request, event: Event) {
    event.Corrupt? && event.user == r.user && event.hash == o.hash(r) && !event.garbage.NotJson?
  }

  /** A request of this key whose lookup missed, before the damage or because the read failed,
      completes as far as writing the entry. */
  predicate Rewrites(o: Oracle, s: System, r: Request, event: Event) {
    && event.Complete? && s.pending.Some? && s.pending.value.1.Miss?
    && var q := s.pending.value.0;
       && SameKey(o, q, r) && ValidHash(o.hash(q)) && o.worth(q).Some? && event.faults.put.NoFault?
       && !event.faults.stt && (event.faults.diarize ==> o.worth(q).value.meta.silent)
  }

  /** The entry is purged, overwritten with text that is not JSON, or rewritten. */
  predicate Relieves(o: Oracle, s: System, r: Request, event: Event) {
    || (event.Purge? && EntryOf(o, r) in event.entries)
    || (event == Corrupt(r.user, o.hash(r), NotJson))
    || Rewrites(o, s, r, event)
  }

  predicate RelievedAt(o: Oracle, s: System, r: Request, history: seq<Event>, k: nat)
    requires k < |history|
  {
    Relieves(o, Run(o, s, history[..k]), r, history[k])
  }

  predicate DamagedAfter(o: Oracle, r: Request, history: seq<Event>, k: nat) {
    exists j :: k < j < |history| && Damages(o, r, history[j])
  }

  predicate NoneAnswered(o: Oracle, answers: seq<Answer>, from: nat, r: Request) {
    forall i :: from <= i < |answers| ==> !SameKey(o, answers[i].request, r)
  }

  /** No request of this key holds a payload it has looked up. */
  predicate NoEarlierHit(o: Oracle, s: System, r: Request) {
    s.pending.Some? && SameKey(o, s.pending.value.0, r) ==> !s.pending.value.1.Hit?
  }

  lemma OneEvent(o: Oracle, s: System, r: Request, event: Event)
    ensures Blocked(o, Apply(o, s, event).files, r) <==>
              Damages(o, r, event) || (Blocked(o, s.files, r) && !Relieves(o, s, r, event))
  {
  }

  lemma {:induction false} BlockedExactlyWhen(o: Oracle, s: System, r: Request, history: seq<Event>)
    requires Blocked(o, s.files, r)
    ensures Blocked(o, Run(o, s, history).files, r) <==>
              forall k :: 0 <= k < |history| && RelievedAt(o, s, r, history, k) ==> DamagedAfter(o, r, history, k)
  {
    if history != [] {
      var last := |history| - 1;
      var front := history[..last];
      BlockedExactlyWhen(o, s, r, front);
      OneEvent(o, Run(o, s, front), r, history[last]);
      forall k | 0 <= k < last
        ensures RelievedAt(o, s, r, history, k) == RelievedAt(o, s, r, front, k)
        ensures DamagedAfter(o, r, history, k) <==> DamagedAfter(o, r, front, k) || Damages(o, r, history[last])
      {
        assert front[..k] == history[..k];
        assert forall j :: 0 <= j < last ==> front[j] == history[j];
      }
      assert RelievedAt(o, s, r, history, last) == Relieves(o, Run(o, s, front), r, history[last]);
    }
  }

  lemma UnrelievedStep(o: Oracle, s: System, r: Request, event: Event)
    requires Blocked(o, s.files, r) && NoEarlierHit(o, s, r) && !Relieves(o, s, r, event)
    ensures var s' := Apply(o, s, event);
      && Blocked(o, s'.files, r) && NoEarlierHit(o, s', r)
      && s.answers <= s'.answers && NoneAnswered(o, s'.answers, |s.answers|, r)
  {
  }

  lemma {:induction false} UnrelievedAnswersNothing(o: Oracle, s: System, r: Request, history: seq<Event>)
    requires Blocked(o, s.files, r) && NoEarlierHit(o, s, r)
    requires forall k :: 0 <= k < |history| ==> !RelievedAt(o, s, r, history, k)
    ensures var s' := Run(o, s, history);
      && Blocked(o, s'.files, r) && NoEarlierHit(o, s', r)
      && s.answers <= s'.answers && NoneAnswered(o, s'.answers, |s.answers|, r)
  {
    if history != [] {
      var last := |history| - 1;
      var front := history[..last];
      forall k | 0 <= k < last ensures !RelievedAt(o, s, r, front, k) {
        assert front[..k] == history[..k] && !RelievedAt(o, s, r, history, k);
      }
      UnrelievedAnswersNothing(o, s, r, front);
      assert !RelievedAt(o, s, r, history, last);
      UnrelievedStep(o, Run(o, s, front), r, history[last]);
    }
  }

  /** A request worth something, with a usable hash, is answered unless its entry blocks it. */
  lemma ServedExactlyWhen(o: Oracle, s: System, r: Request)
    requires s.pending.None? && ValidHash(o.hash(r)) && o.worth(r).Some?
    ensures var s' := Serve(o, s, r);
      if Blocked(o, s.files, r) then s'.answers == s.answers
      else |s'.answers| == |s.answers| + 1 && s.answers <= s'.answers && s'.answers[|s.answers|].request == r
  {
  }

  /** From the moment an entry parses to no payload or is not UTF-8, through any history: requests
      of its key are turned away at the end exactly when every relief (a purge of the entry, text
      that is not JSON written over it, or a rewrite by a request whose lookup missed) came before
      another damage; and until the first relief no request of the key is answered, save one that
      held its payload already. */
  lemma DamageLastsExactlyWhen(o: Oracle, s: System, r: Request, history: seq<Event>)
    requires Blocked(o, s.files, r)
    ensures var s' := Run(o, s, history);
      var lasting := forall k :: 0 <= k < |history| && RelievedAt(o, s, r, history, k) ==> DamagedAfter(o, r, history, k);
      && (Blocked(o, s'.files, r) <==> lasting)
      && (s'.pending.None? && ValidHash(o.hash(r)) && o.worth(r).Some? ==>
            (Serve(o, s', r).answers == s'.answers <==> lasting))
      && (NoEarlierHit(o, s, r) && (forall k :: 0 <= k < |history| ==> !RelievedAt(o, s, r, history, k)) ==>
            NoneAnswered(o, s'.answers, |s.answers|, r))
  {
    var s' := Run(o, s, history);
    BlockedExactlyWhen(o, s, r, history);
    if s'.pending.None? && ValidHash(o.hash(r)) && o.worth(r).Some? {
      ServedExactlyWhen(o, s', r);
    }
    if NoEarlierHit(o, s, r) && forall k :: 0 <= k < |history| ==> !RelievedAt(o, s, r, history, k) {
      UnrelievedAnswersNothing(o, s, r, history);
    }
  }

  /** One whole request, whatever goes wrong in it. It is a hit when its entry can be read and is a
      payload; it is turned away for a malformed hash or a blocking entry; else it is computed. It
      is answered exactly when it is a hit, or computed and written, and its row is flushed; the
      answer is flagged exactly when it is a hit; and only a computed and written entry changes.
      Aborted instead, it leaves no trace but having been asked. */
  lemma RequestOutcome(o: Oracle, s: System, r: Request, readFails: bool, faults: Faults)
    requires WellFormed(o) && s.pending.None?
    ensures var s' := Apply(o, Apply(o, s, Begin(r, readFails)), Complete(faults));
      var (key, n) := (EntryOf(o, r), |s.answers|);
      var hit := ValidHash(o.hash(r)) && !readFails && key in s.files && s.files[key].Json?;
      var away := !ValidHash(o.hash(r)) || (!readFails && Blocked(o, s.files, r));
      var written := !hit && !away && o.worth(r).Some? && !faults.stt
                     && (faults.diarize ==> o.worth(r).value.meta.silent) && faults.put.NoFault?;
      && s'.pending.None? && (if !faults.flush && (hit || written) then |s'.answers| == n + 1 else s'.answers == s.answers)
      && (s'.answers == s.answers ==> s'.rows == s.rows)
      && (s'.answers != s.answers ==>
            && s'.answers[..n] == s.answers && s'.answers[n].request == r
            && s'.rows == s.rows + [Row(r.user, s'.answers[n].payload)]
            && (s'.answers[n].payload.meta.cacheHit <==> hit) && s'.answers[n].payload.audioHash == o.hash(r)
            && (written ==> Some(s'.answers[n].payload) == o.worth(r)))
      && (forall path: Path :: path.name.ResultFile? ==>
            if written && path == key then path in s'.files && s'.files[path] == Json(o.worth(r).value)
            else (path in s'.files <==> path in s.files) && (path in s.files ==> s'.files[path] == s.files[path]))
    ensures Apply(o, Apply(o, s, Begin(r, readFails)), Abort) == s.(past := s.past + {r})
  {
  }

  lemma {:induction false} HealthStays(o: Oracle, s: System, r: Request, history: seq<Event>)
    requires !Blocked(o, s.files, r) && forall e :: e in history ==> !Damages(o, r, e)
    ensures !Blocked(o, Run(o, s, history).files, r)
  {
    if history != [] {
      assert history[|history| - 1] in history;
      HealthStays(o, s, r, history[..|history| - 1]);
      OneEvent(o, Run(o, s, history[..|history| - 1]), r, history[|history| - 1]);
    }
  }

  /** In any history that never damaged its entry so, a request that is worth something is
      answered whenever it runs without a fault of its own. */
  lemma FaultlessIsAnswered(o: Oracle, history: seq<Event>, r: Request)
    requires ValidHash(o.hash(r)) && o.worth(r).Some? && Run(o, EMPTY, history).pending.None?
    requires forall e :: e in history ==> !Damages(o, r, e)
    ensures var s := Run(o, EMPTY, history);
      var s' := Serve(o, s, r);
      |s'.answers| == |s.answers| + 1 && s'.answers[|s.answers|].request == r
  {
    HealthStays(o, EMPTY, r, history);
    ServedExactlyWhen(o, Run(o, EMPTY, history), r);
  }
}
