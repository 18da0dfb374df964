/** The inner pipeline with its cache, run against computing every request from scratch. */
module CachedPipeline {
  import opened Basics
  import opened RiffWalk
  import opened SpeakerCap
  import opened SpeakerMerge
  import opened CacheStore
  import opened Pipeline
  import opened CacheHistory

  function OracleOf(e: Engine): Oracle {
    Oracle(r => AudioHash(e, r), r => Compute(e, r))
  }

  /** The worker: one request at a time, a cache, and the committed rows. */
  class Worker {
    const store: Store<Payload>
    var rows: seq<Row>

    constructor (store: Store<Payload>)
      ensures this.store == store && rows == []
    {
      this.store := store;
      rows := [];
    }

    method ComputePayload(e: Engine, r: Request, faults: Faults) returns (p: Option<Payload>)
      ensures Compute(e, r).None? ==> p.None?
      ensures Compute(e, r).Some? ==>
        p == if faults.stt || (faults.diarize && !Compute(e, r).value.meta.silent) then None else Compute(e, r)
    {
      var pcm := Fed(r.wav);
      var stt := e.transcribe(pcm, r.language);
      if stt.None? || faults.stt {
        return None;
      }
      var language := if stt.value.language.Some? then stt.value.language.value else r.language;
      if stt.value.segments == [] {
        return Some(Payload(AudioHash(e, r), language, e.duration(pcm), 0, "", [], Meta(e.models, false, true)));
      }
      var raw := e.diarize(pcm, r.hints);
      if raw.None? || faults.diarize {
        return None;
      }
      var diarization := raw.value;
      if r.hints.max.Some? {
        diarization := CapSpeakersByDuration(diarization, r.hints.max.value);
      }
      var merged := AssignSpeakersToWords(stt.value.segments, diarization, e.strip);
      if merged.Err? {
        return None;
      }
      p := Some(Payload(AudioHash(e, r), language, e.duration(pcm), |UniqueSpeakers(merged.value)|,
                        BuildText(merged.value), merged.value, Meta(e.models, false, false)));
    }

    /** Lookup, compute on a miss, write the cache, insert the row: one row per success, none
        otherwise. */
    method RunPipeline(e: Engine, r: Request, readFails: bool, faults: Faults) returns (answer: Option<Payload>)
      requires store.Valid()
      modifies this, store
      ensures store.Valid()
      ensures (store.files, answer) ==
              Finish(OracleOf(e), old(store.files), r, GetOr(old(store.files), r.user, AudioHash(e, r), readFails), faults)
      ensures rows == old(rows) + (if answer.Some? then [Row(r.user, answer.value)] else [])
    {
      var hash := AudioHash(e, r);
      var found := store.Read(r.user, hash, readFails);
      var payload: Payload;
      match found {
        case InvalidHash => return None;
        case DecodeError => return None;
        case Unusable => return None;
        case Hit(p) => payload := WithHit(p, hash);
        case Miss =>
          var computed := ComputePayload(e, r, faults);
          if computed.None? {
            return None;
          }
          payload := computed.value;
          var written := store.Write(r.user, hash, payload, faults.put);
          if written != Written {
            return None;
          }
      }
      if faults.flush {
        return None;
      }
      rows := rows + [Row(r.user, payload)];
      answer := Some(payload);
    }
  }

  // ---------------------------------------------------------------- main results

  /** Requests of one user with one usable hash ask for the same thing: the same samples (no hash
      collision), the same language, the same hints. */
  predicate SameInputs(sha256: seq<Byte> -> string, requests: set<Request>) {
    forall a, b :: a in requests && b in requests && OneKey(sha256, a, b) ==> SameQuestion(a, b)
  }

  predicate OneKey(sha256: seq<Byte> -> string, a: Request, b: Request) {
    a.user == b.user && sha256(Fed(a.wav)) == sha256(Fed(b.wav)) && ValidHash(sha256(Fed(a.wav)))
  }

  predicate SameQuestion(a: Request, b: Request) {
    Fed(a.wav) == Fed(b.wav) && a.language == b.language && a.hints == b.hints
  }

  lemma EngineIsWellFormed(e: Engine)
    ensures WellFormed(OracleOf(e))
  {
  }

  lemma SameInputsAgree(e: Engine, requests: set<Request>)
    requires SameInputs(e.sha256, requests)
    ensures Agreeing(OracleOf(e), requests)
  {
    forall a, b | a in requests && b in requests && SameKey(OracleOf(e), a, b) && ValidHash(AudioHash(e, a))
      ensures Compute(e, a) == Compute(e, b)
    {
      assert OneKey(e.sha256, a, b);
      ComputeReadsOnly(e, a, b);
    }
  }

  function Silence(pcm: seq<Byte>, language: string): Option<Stt> {
    Some(Stt([], None))
  }

  /** Models and a probe that tell apart two requests whose samples, language or hints differ. */
  function TellApart(sha256: seq<Byte> -> string, a: Request, b: Request): Engine {
    if a.language != b.language then
      Engine(sha256, _ => 0.0, Silence, (_, _) => None, t => t, "")
    else if Fed(a.wav) != Fed(b.wav) then
      Engine(sha256, pcm => if pcm == Fed(a.wav) then 1.0 else 0.0, Silence, (_, _) => None, t => t, "")
    else
      Engine(sha256, _ => 0.0, (_, _) => Some(Stt([Spoken(None, None, "", None)], None)),
             (_, hints) => Some(OneVoice(if hints == a.hints then "A" else "B")), t => t, "")
  }

  function OneVoice(speaker: string): seq<Segment> {
    [Segment(0.0, 1.0, speaker)]
  }

  /** However the hints cap it, a diarization with one voice labels the segment with that voice. */
  lemma OneVoiceLabels(e: Engine, r: Request, speaker: string)
    requires e.transcribe(Fed(r.wav), r.language) == Some(Stt([Spoken(None, None, "", None)], None))
    requires e.diarize(Fed(r.wav), r.hints) == Some(OneVoice(speaker))
    ensures Compute(e, r).Some? && |Compute(e, r).value.segments| == 1 && Compute(e, r).value.segments[0].speaker == speaker
  {
  }

  lemma ToldApart(sha256: seq<Byte> -> string, a: Request, b: Request)
    requires !SameQuestion(a, b)
    ensures var e := TellApart(sha256, a, b);
      e.sha256 == sha256 && Compute(e, a).Some? && Compute(e, b).Some? && Compute(e, b) != Compute(e, a)
  {
    if a.language == b.language && Fed(a.wav) == Fed(b.wav) {
      OneVoiceLabels(TellApart(sha256, a, b), a, "A");
      OneVoiceLabels(TellApart(sha256, a, b), b, "B");
    }
  }

  /** Whatever the models are: over a set of requests, the cached pipeline agrees with recomputing
      in every history, for every choice of models, exactly when requests of one user with one
      usable hash have equal samples, language and hints. Language and hints are not in the key,
      so a user who asks for one file in two ways is outside this. */
  lemma CacheIsTransparentExactlyWhen(sha256: seq<Byte> -> string, requests: set<Request>)
    ensures SameInputs(sha256, requests) <==>
      forall e: Engine, history :: e.sha256 == sha256 && Run(OracleOf(e), EMPTY, history).past <= requests ==>
        AgreesWithRecompute(OracleOf(e), Run(OracleOf(e), EMPTY, history))
  {
    if SameInputs(sha256, requests) {
      forall e: Engine, history | e.sha256 == sha256 && Run(OracleOf(e), EMPTY, history).past <= requests
        ensures AgreesWithRecompute(OracleOf(e), Run(OracleOf(e), EMPTY, history))
      {
        EngineIsWellFormed(e);
        SameInputsAgree(e, requests);
        SourcedAgrees(OracleOf(e), history);
      }
    } else {
      var a, b :| a in requests && b in requests && OneKey(sha256, a, b) && !SameQuestion(a, b);
      var e := TellApart(sha256, a, b);
      ToldApart(sha256, a, b);
      EngineIsWellFormed(e);
      var history := SecondAnswerDisagrees(OracleOf(e), a, b);
      assert Run(OracleOf(e), EMPTY, history).past <= requests;
    }
  }

  /** A history whose requests agree in that sense: every answer and row is what recomputing
      gives, and no stored row exceeds its own request's speaker cap, hit or miss. */
  lemma CoherentHistoriesAgree(e: Engine, history: seq<Event>)
    requires SameInputs(e.sha256, Run(OracleOf(e), EMPTY, history).past)
    ensures var s := Run(OracleOf(e), EMPTY, history);
      && AgreesWithRecompute(OracleOf(e), s)
      && forall i :: 0 <= i < |s.rows| ==> WithinCap(s.answers[i].request, s.rows[i].payload)
  {
    var s := Run(OracleOf(e), EMPTY, history);
    EngineIsWellFormed(e);
    SameInputsAgree(e, s.past);
    SourcedAgrees(OracleOf(e), history);
    forall i | 0 <= i < |s.rows| ensures WithinCap(s.answers[i].request, s.rows[i].payload) {
      var r := s.answers[i].request;
      assert Compute(e, r) == Some(Canonical(s.answers[i].payload));
      if r.hints.max.Some? && r.hints.max.value >= 1 {
        ComputeRespectsCap(e, r);
      }
    }
  }

  /** In every history each row, computed or from the cache, tells of its own segments, and of a
      request of the same user and hash: of its own, when it is not marked as a cache hit. */
  lemma StoredRowsTell(e: Engine, history: seq<Event>, i: nat)
    requires i < |Run(OracleOf(e), EMPTY, history).rows|
    ensures var s := Run(OracleOf(e), EMPTY, history);
      && i < |s.answers| && s.rows[i].payload == s.answers[i].payload
      && TellsOfItsSegments(s.rows[i].payload)
      && (exists q :: q in s.past && q.user == s.rows[i].user && TellsOfItsRequest(e, q, s.rows[i].payload))
      && (!s.rows[i].payload.meta.cacheHit ==> TellsOfItsRequest(e, s.answers[i].request, s.rows[i].payload))
  {
    EngineIsWellFormed(e);
    AnswersAreSourced(OracleOf(e), history);
    var s := Run(OracleOf(e), EMPTY, history);
    var (asked, p) := (s.answers[i].request, s.answers[i].payload);
    var q :| q in s.past && SameKey(OracleOf(e), q, asked) && OracleOf(e).worth(q) == Some(Canonical(p));
    ComputedPayload(e, q);
    if !p.meta.cacheHit {
      ComputedPayload(e, asked);
    }
    assert TellsOfItsRequest(e, q, p);
  }

  predicate WithinCap(r: Request, p: Payload) {
    r.hints.max.Some? && r.hints.max.value >= 1 ==> p.numSpeakers <= r.hints.max.value
  }

  /** Two files whose samples are equal and whose metadata differ hit one entry and are worth
      the same, for one user asking the same way. */
  lemma MetadataDoesNotSplitTheCache(e: Engine, user: nat, pcm: seq<Byte>, language: string, hints: Hints,
                                     riff1: seq<Byte>, riff2: seq<Byte>, cs1: seq<Chunk>, cs2: seq<Chunk>)
    requires |riff1| == |riff2| == 4 && AllValid(cs1) && AllValid(cs2) && |pcm| < 0x1_0000_0000
    ensures var data := DATA + Le4(|pcm|) + pcm;
      var a := Request(user, PrintWave(riff1, cs1, data), language, hints);
      var b := Request(user, PrintWave(riff2, cs2, data), language, hints);
      SameKey(OracleOf(e), a, b) && Compute(e, a) == Compute(e, b)
  {
    var data := DATA + Le4(|pcm|) + pcm;
    assert data == data + [];
    FedIsFirstDataPayload(riff1, cs1, pcm, []);
    FedIsFirstDataPayload(riff2, cs2, pcm, []);
    ComputeReadsOnly(e, Request(user, PrintWave(riff1, cs1, data), language, hints),
                     Request(user, PrintWave(riff2, cs2, data), language, hints));
  }

  /** Language and hints are not in the key: one silent file asked for in two languages. */
  lemma LanguageIsNotInTheKey() returns (e: Engine, a: Request, b: Request)
    ensures SameKey(OracleOf(e), a, b) && a.wav == b.wav && !Agreeing(OracleOf(e), {a, b})
  {
    var hash := seq(64, _ => '0');
    e := Engine(_ => hash, _ => 0.0, (pcm, language) => Some(Stt([], None)), (pcm, hints) => None, t => t, "");
    a := Request(0, [], "es", Hints(None, None, None));
    b := Request(0, [], "en", Hints(None, None, None));
    assert Compute(e, a).value.language == "es" && Compute(e, b).value.language == "en";
    assert OracleOf(e).worth(a) != OracleOf(e).worth(b);
  }
}
