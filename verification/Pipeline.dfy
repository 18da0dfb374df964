/** One transcription request and what it is worth, computed from scratch. */
module Pipeline {
  import opened Basics
  import opened RiffWalk
  import opened SpeakerCap
  import opened SpeakerMerge

  datatype Stt = Stt(segments: seq<Spoken>, language: Option<string>)

  datatype Hints = Hints(num: Option<int>, min: Option<int>, max: Option<int>)

  /** SHA-256, the two models, and the probe, as functions of the samples; None is an error. */
  datatype Engine = Engine(
    sha256: seq<Byte> -> string,
    duration: seq<Byte> -> real,
    transcribe: (seq<Byte>, string) -> Option<Stt>,
    diarize: (seq<Byte>, Hints) -> Option<seq<Segment>>,
    strip: string -> string,
    models: string)

  /** `wav` is the normalized file. */
  datatype Request = Request(user: nat, wav: seq<Byte>, language: string, hints: Hints)

  datatype Meta = Meta(models: string, cacheHit: bool, silent: bool)

  datatype Payload = Payload(audioHash: string, language: string, duration: real, numSpeakers: nat,
                             text: string, segments: seq<Merged>, meta: Meta)

  datatype Row = Row(user: nat, payload: Payload)

  function AudioHash(e: Engine, r: Request): string {
    e.sha256(Fed(r.wav))
  }

  function BuildText(merged: seq<Merged>): string {
    if merged == [] then ""
    else
      var line := merged[0].speaker + ": " + merged[0].source.text;
      if |merged| == 1 then line else line + "\n" + BuildText(merged[1..])
  }

  /** The stored text of two runs of segments is one text above the other. */
  lemma {:induction false} TextOfConcat(a: seq<Merged>, b: seq<Merged>)
    requires a != [] && b != []
    ensures BuildText(a + b) == BuildText(a) + "\n" + BuildText(b)
    ensures |a| == 1 ==> BuildText(a) == a[0].speaker + ": " + a[0].source.text
    decreases a
  {
    if |a| == 1 {
      assert a + b == [a[0]] + b;
    } else {
      TextOfConcat(a[1..], b);
      assert (a + b)[1..] == a[1..] + b;
    }
  }

  /** `diarize`: the model's output, capped when a maximum was asked for. */
  function Capped(raw: seq<Segment>, max: Option<int>): seq<Segment> {
    if max.Some? then Cap(raw, max.value) else raw
  }

  /** Transcribe, diarize, merge: what a request is worth, computed from scratch. */
  function Compute(e: Engine, r: Request): Option<Payload> {
    var pcm := Fed(r.wav);
    match e.transcribe(pcm, r.language)
    case None => None
    case Some(stt) =>
      var language := if stt.language.Some? then stt.language.value else r.language;
      if stt.segments == [] then
        Some(Payload(AudioHash(e, r), language, e.duration(pcm), 0, "", [], Meta(e.models, false, true)))
      else
        match e.diarize(pcm, r.hints)
        case None => None
        case Some(raw) =>
          if !AllTimed(stt.segments, e.strip) then None
          else
            var merged := MergeAll(stt.segments, Capped(raw, r.hints.max), e.strip);
            Some(Payload(AudioHash(e, r), language, e.duration(pcm), |UniqueSpeakers(merged)|,
                         BuildText(merged), merged, Meta(e.models, false, false)))
  }

  /** Counts and text tell of the payload's own segments. */
  ghost predicate TellsOfItsSegments(p: Payload) {
    && p.numSpeakers == |set m | m in p.segments && m.speaker != "" :: m.speaker|
    && p.text == BuildText(p.segments) && (p.segments == [] ==> p.text == "")
  }

  /** Hash, language and duration tell of the request: the language the model heard if it heard
      one, else the language asked for; the duration the probe gives. */
  predicate TellsOfItsRequest(e: Engine, r: Request, p: Payload) {
    var heard := e.transcribe(Fed(r.wav), r.language);
    && heard.Some?
    && p.audioHash == e.sha256(Fed(r.wav)) && p.duration == e.duration(Fed(r.wav))
    && p.language == (if heard.value.language.Some? then heard.value.language.value else r.language)
    && p.meta.models == e.models && (p.meta.silent <==> heard.value.segments == [])
    && |p.segments| == |heard.value.segments|
    && forall i :: 0 <= i < |p.segments| ==> p.segments[i].source == heard.value.segments[i]
  }

  lemma WorthExactlyWhen(e: Engine, r: Request)
    ensures var heard := e.transcribe(Fed(r.wav), r.language);
      Compute(e, r).Some? <==>
        heard.Some? && (heard.value.segments != [] ==>
          e.diarize(Fed(r.wav), r.hints).Some? && AllTimed(heard.value.segments, e.strip))
  {
  }

  lemma WorthTellsOfSegments(e: Engine, r: Request)
    requires Compute(e, r).Some?
    ensures TellsOfItsSegments(Compute(e, r).value)
  {
    var segments := Compute(e, r).value.segments;
    assert UniqueSpeakers(segments) == set m | m in segments && m.speaker != "" :: m.speaker;
  }

  lemma WorthTellsOfRequest(e: Engine, r: Request)
    requires Compute(e, r).Some?
    ensures TellsOfItsRequest(e, r, Compute(e, r).value)
  {
  }

  /** A request is worth nothing exactly when a model fails on it or some word has no times; else
      its payload tells of the request, and of its own segments. */
  lemma ComputedPayload(e: Engine, r: Request)
    ensures var heard := e.transcribe(Fed(r.wav), r.language);
      Compute(e, r).Some? <==>
        heard.Some? && (heard.value.segments != [] ==>
          e.diarize(Fed(r.wav), r.hints).Some? && AllTimed(heard.value.segments, e.strip))
    ensures Compute(e, r).Some? ==> TellsOfItsSegments(Compute(e, r).value) && TellsOfItsRequest(e, r, Compute(e, r).value)
  {
    WorthExactlyWhen(e, r);
    if Compute(e, r).Some? {
      WorthTellsOfSegments(e, r);
      WorthTellsOfRequest(e, r);
    }
  }

  /** Its segments are labelled from the diarization, capped exactly when a maximum was asked for. */
  lemma ComputedSegments(e: Engine, r: Request, i: nat)
    requires Compute(e, r).Some? && i < |Compute(e, r).value.segments|
    ensures e.diarize(Fed(r.wav), r.hints).Some?
    ensures var raw := e.diarize(Fed(r.wav), r.hints).value;
      var s := e.transcribe(Fed(r.wav), r.language).value.segments[i];
      Timed(s, e.strip) &&
      Compute(e, r).value.segments[i] == MergeOne(s, if r.hints.max.Some? then Cap(raw, r.hints.max.value) else raw, e.strip)
  {
    assert e.transcribe(Fed(r.wav), r.language).value.segments[i] in e.transcribe(Fed(r.wav), r.language).value.segments;
  }

  /** The worth depends on the samples, the language and the hints, and is never marked a hit. */
  lemma ComputeReadsOnly(e: Engine, a: Request, b: Request)
    requires Fed(a.wav) == Fed(b.wav) && a.language == b.language && a.hints == b.hints
    ensures AudioHash(e, a) == AudioHash(e, b) && Compute(e, a) == Compute(e, b)
    ensures Compute(e, a).Some? ==>
              !Compute(e, a).value.meta.cacheHit && Compute(e, a).value.audioHash == AudioHash(e, a)
  {
  }

  /** Computed with a cap of at least one, the worth never counts more speakers than the cap. */
  lemma ComputeRespectsCap(e: Engine, r: Request)
    requires r.hints.max.Some? && r.hints.max.value >= 1 && Compute(e, r).Some?
    ensures Compute(e, r).value.numSpeakers <= r.hints.max.value
  {
    var stt := e.transcribe(Fed(r.wav), r.language).value;
    if stt.segments != [] {
      StoredSpeakersWithinCap(stt.segments, e.diarize(Fed(r.wav), r.hints).value, r.hints.max.value, e.strip);
    }
  }
}
