/** Joins word times with diarization: a label for every word by its midpoint, a label for every
    segment by majority. */
module SpeakerMerge {
  import opened Basics
  import opened SpeakerCap

  const UNKNOWN_SPEAKER := "UNKNOWN"

  /** A word may lack its times when alignment failed on it. */
  datatype Word = Word(start: Option<real>, end: Option<real>, text: string)

  datatype Spoken = Spoken(start: Option<real>, end: Option<real>, text: string, words: Option<seq<Word>>)

  datatype LabeledWord = LabeledWord(word: Word, speaker: string)

  datatype Merged = Merged(source: Spoken, words: seq<LabeledWord>, speaker: string)

  datatype MergeError = KeyError

  // ---------------------------------------------------------------- one word

  /** How far `mid` is outside the interval; below the start wins on an inverted interval. */
  function Distance(s: Segment, mid: real): real {
    if mid < s.start then s.start - mid
    else if mid > s.end then mid - s.end
    else 0.0
  }

  function Distances(diarization: seq<Segment>, mid: real): (ds: seq<real>)
    ensures |ds| == |diarization| && forall i :: 0 <= i < |ds| ==> ds[i] == Distance(diarization[i], mid)
  {
    seq(|diarization|, i requires 0 <= i < |diarization| => Distance(diarization[i], mid))
  }

  /** The first interval at the least distance. */
  function Chosen(diarization: seq<Segment>, mid: real): (i: nat)
    requires diarization != []
    ensures i < |diarization|
  {
    ArgMin(Distances(diarization, mid))
  }

  /** First interval holding the midpoint, else nearest end point: both phases together pick
      the first interval minimising the distance, overlapping or inverted ones included. */
  method SpeakerForMidpoint(midpoint: real, diarization: seq<Segment>) returns (speaker: string)
    requires diarization != []
    ensures speaker == diarization[Chosen(diarization, midpoint)].speaker
  {
    var ds := Distances(diarization, midpoint);
    for i := 0 to |diarization|
      invariant forall j :: 0 <= j < i ==> ds[j] > 0.0
    {
      if diarization[i].start <= midpoint <= diarization[i].end {
        assert ds[i] == 0.0;
        FirstZeroIsChosen(ds, i);
        return diarization[i].speaker;
      }
    }
    speaker := diarization[ArgMin(ds)].speaker;
  }

  lemma FirstZeroIsChosen(ds: seq<real>, i: nat)
    requires i < |ds| && ds[i] == 0.0
    requires (forall j :: 0 <= j < |ds| ==> ds[j] >= 0.0) && (forall j :: 0 <= j < i ==> ds[j] > 0.0)
    ensures ArgMin(ds) == i
  {
  }

  /** Interval `j` is who speaks at `mid`: the first interval that holds it, or when none does the
      first whose nearer end is least away. */
  predicate SpeaksAt(diarization: seq<Segment>, mid: real, j: nat)
    requires j < |diarization|
  {
    var (start, end) := (diarization[j].start, diarization[j].end);
    if start <= mid <= end then
      forall i :: 0 <= i < j ==> !(diarization[i].start <= mid <= diarization[i].end)
    else
      forall i :: 0 <= i < |diarization| ==>
        var away := if mid < diarization[i].start then diarization[i].start - mid else mid - diarization[i].end;
        var least := if mid < start then start - mid else mid - end;
        && !(diarization[i].start <= mid <= diarization[i].end)
        && least <= away && (i < j ==> least < away)
  }

  lemma ChosenSpeaks(diarization: seq<Segment>, mid: real)
    requires diarization != []
    ensures SpeaksAt(diarization, mid, Chosen(diarization, mid))
  {
    var ds, j := Distances(diarization, mid), Chosen(diarization, mid);
    assert forall i :: 0 <= i < |ds| ==> ds[j] <= ds[i] && (i < j ==> ds[j] < ds[i]);
  }

  predicate InTimeOrder(diarization: seq<Segment>) {
    && (forall i :: 0 <= i < |diarization| ==> diarization[i].start <= diarization[i].end)
    && (forall i, j :: 0 <= i < j < |diarization| ==> diarization[i].end <= diarization[j].start)
  }

  /** On ordered intervals without overlap, later words never go back to an earlier interval. */
  lemma ChosenIsMonotone(diarization: seq<Segment>, m1: real, m2: real)
    requires diarization != [] && InTimeOrder(diarization) && m1 <= m2
    ensures Chosen(diarization, m1) <= Chosen(diarization, m2)
  {
    var i, j := Chosen(diarization, m1), Chosen(diarization, m2);
    if j < i {
      var a, b := diarization[j], diarization[i];
      assert a.start <= a.end <= b.start <= b.end;
      assert Distances(diarization, m1)[i] < Distances(diarization, m1)[j];
      assert Distances(diarization, m2)[j] <= Distances(diarization, m2)[i];
      GapGrows(a, b, m1, m2);
    }
  }

  /** Moving right can only favour the interval on the right. */
  lemma GapGrows(a: Segment, b: Segment, m1: real, m2: real)
    requires a.start <= a.end <= b.start <= b.end && m1 <= m2
    ensures Distance(a, m1) - Distance(b, m1) <= Distance(a, m2) - Distance(b, m2)
  {
  }

  // ---------------------------------------------------------------- one segment

  function Negated(labels: seq<string>): (ds: seq<real>)
    ensures |ds| == |labels| && forall i :: 0 <= i < |ds| ==> ds[i] == -(multiset(labels)[labels[i]] as real)
  {
    seq(|labels|, i requires 0 <= i < |labels| => -(multiset(labels)[labels[i]] as real))
  }

  /** The label of the first word whose label no other label outnumbers. */
  function Majority(labels: seq<string>): string
    requires labels != []
  {
    labels[ArgMin(Negated(labels))]
  }

  /** No label is more frequent; an equally frequent one is first heard later. */
  predicate IsMajority(labels: seq<string>, s: string) {
    && s in labels
    && forall t :: t in labels ==>
         && multiset(labels)[t] <= multiset(labels)[s]
         && (multiset(labels)[t] == multiset(labels)[s] ==> IndexOf(labels, s) <= IndexOf(labels, t))
  }

  lemma MajorityIsMajority(labels: seq<string>, s: string)
    requires labels != []
    ensures IsMajority(labels, s) <==> s == Majority(labels)
  {
    var ds := Negated(labels);
    var r := ArgMin(ds);
    forall t | t in labels
      ensures multiset(labels)[t] <= multiset(labels)[labels[r]]
      ensures multiset(labels)[t] == multiset(labels)[labels[r]] ==> IndexOf(labels, labels[r]) <= IndexOf(labels, t)
    {
      var i, j := IndexOf(labels, t), IndexOf(labels, labels[r]);
      assert ds[r] <= ds[i];
      assert i < r ==> ds[r] < ds[i];
    }
    assert IsMajority(labels, labels[r]);
    if IsMajority(labels, s) {
      assert multiset(labels)[s] == multiset(labels)[labels[r]];
      assert labels[IndexOf(labels, s)] == s;
    }
  }

  /** Insertion order is first-occurrence order. */
  lemma {:induction false} OrderIsFirstIndex(labels: seq<string>, i: nat, j: nat)
    requires i < j < |Order(labels)|
    ensures IndexOf(labels, Order(labels)[i]) < IndexOf(labels, Order(labels)[j])
  {
    var last := |labels| - 1;
    var front := labels[..last];
    assert labels == front + [labels[last]];
    assert Order(front) <= Order(labels);
    assert Order(labels)[i] in Order(front);
    if j < |Order(front)| {
      OrderIsFirstIndex(front, i, j);
      assert Order(front)[j] in front;
    }
  }

  /** The Counter's content. */
  ghost predicate Counted(counts: map<string, nat>, labels: seq<string>) {
    (forall x :: x in counts <==> x in labels) && forall x :: x in counts ==> counts[x] == multiset(labels)[x]
  }

  lemma CountOneMore(counts: map<string, nat>, labels: seq<string>, i: nat)
    requires i < |labels| && Counted(counts, labels[..i])
    ensures var x := labels[i];
      && Counted(counts[x := if x in counts then counts[x] + 1 else 1], labels[..i + 1])
      && Order(labels[..i + 1]) == if x in counts then Order(labels[..i]) else Order(labels[..i]) + [x]
  {
    assert labels[..i + 1] == labels[..i] + [labels[i]];
    assert labels[..i + 1][..i] == labels[..i];
  }

  /** The Counter, and its insertion order. */
  method CountLabels(labels: seq<string>) returns (counts: map<string, nat>, order: seq<string>)
    ensures order == Order(labels)
    ensures forall x :: x in labels ==> x in counts && counts[x] == multiset(labels)[x]
  {
    counts, order := map[], [];
    for i := 0 to |labels|
      invariant order == Order(labels[..i]) && Counted(counts, labels[..i])
    {
      var x := labels[i];
      CountOneMore(counts, labels, i);
      if x in counts {
        counts := counts[x := counts[x] + 1];
      } else {
        counts := counts[x := 1];
        order := order + [x];
      }
    }
    assert labels[..|labels|] == labels;
  }

  lemma MostCommonIsMajority(labels: seq<string>, ds: seq<real>)
    requires labels != [] && |ds| == |Order(labels)| > 0
    requires forall i :: 0 <= i < |ds| ==> ds[i] == -(multiset(labels)[Order(labels)[i]] as real)
    ensures Order(labels)[ArgMin(ds)] == Majority(labels)
  {
    var order, best := Order(labels), ArgMin(ds);
    var speaker := order[best];
    assert speaker in order;
    forall t | t in labels
      ensures multiset(labels)[t] <= multiset(labels)[speaker]
      ensures multiset(labels)[t] == multiset(labels)[speaker] ==> IndexOf(labels, speaker) <= IndexOf(labels, t)
    {
      assert t in order;
      var k :| 0 <= k < |order| && order[k] == t;
      assert ds[best] <= ds[k];
      if best < k {
        OrderIsFirstIndex(labels, best, k);
      }
    }
    MajorityIsMajority(labels, speaker);
  }

  /** `Counter` then `most_common(1)`. */
  method MajoritySpeaker(labels: seq<string>) returns (speaker: string)
    requires labels != []
    ensures speaker == Majority(labels)
  {
    var counts, order := CountLabels(labels);
    assert labels[0] in order && forall i :: 0 <= i < |order| ==> order[i] in order;
    var ds := seq(|order|, i requires 0 <= i < |order| && order[i] in counts => -(counts[order[i]] as real));
    MostCommonIsMajority(labels, ds);
    speaker := order[ArgMin(ds)];
  }

  // ---------------------------------------------------------------- the whole transcript

  /** A segment with no words becomes one word spanning it. */
  function WordsOf(s: Spoken, strip: string -> string): (words: seq<Word>)
    ensures words != []
  {
    if s.words.Some? && s.words.value != [] then s.words.value
    else
      [Word(Some(if s.start.Some? then s.start.value else 0.0), Some(if s.end.Some? then s.end.value else 0.0),
            strip(s.text))]
  }

  predicate Timed(s: Spoken, strip: string -> string) {
    forall w :: w in WordsOf(s, strip) ==> w.start.Some? && w.end.Some?
  }

  function LabelOf(w: Word, diarization: seq<Segment>): string
    requires w.start.Some? && w.end.Some?
  {
    if diarization == [] then UNKNOWN_SPEAKER
    else diarization[Chosen(diarization, (w.start.value + w.end.value) / 2.0)].speaker
  }

  function Labels(words: seq<Word>, diarization: seq<Segment>): (labels: seq<string>)
    requires forall w :: w in words ==> w.start.Some? && w.end.Some?
    ensures |labels| == |words|
  {
    seq(|words|, i requires 0 <= i < |words| => LabelOf(words[i], diarization))
  }

  function Attach(words: seq<Word>, labels: seq<string>): (r: seq<LabeledWord>)
    requires |words| == |labels|
    ensures |r| == |words| && forall i :: 0 <= i < |r| ==> r[i] == LabeledWord(words[i], labels[i])
  {
    seq(|words|, i requires 0 <= i < |words| => LabeledWord(words[i], labels[i]))
  }

  function SpeakersOf(words: seq<LabeledWord>): (labels: seq<string>)
    ensures |labels| == |words| && forall i :: 0 <= i < |words| ==> labels[i] == words[i].speaker
  {
    seq(|words|, i requires 0 <= i < |words| => words[i].speaker)
  }

  function MergeOne(s: Spoken, diarization: seq<Segment>, strip: string -> string): Merged
    requires Timed(s, strip)
  {
    var words := WordsOf(s, strip);
    var labels := Labels(words, diarization);
    Merged(s, Attach(words, labels), Majority(labels))
  }

  predicate AllTimed(transcript: seq<Spoken>, strip: string -> string) {
    forall s :: s in transcript ==> Timed(s, strip)
  }

  function MergeAll(transcript: seq<Spoken>, diarization: seq<Segment>, strip: string -> string): seq<Merged>
    requires AllTimed(transcript, strip)
  {
    seq(|transcript|, i requires 0 <= i < |transcript| => MergeOne(transcript[i], diarization, strip))
  }

  predicate WordsTimed(words: seq<Word>) {
    forall w :: w in words ==> w.start.Some? && w.end.Some?
  }

  lemma LabeledSoFar(words: seq<Word>, i: nat, diarization: seq<Segment>)
    requires i < |words| && WordsTimed(words[..i]) && words[i].start.Some? && words[i].end.Some?
    ensures WordsTimed(words[..i + 1])
    ensures Attach(words[..i + 1], Labels(words[..i + 1], diarization))
            == Attach(words[..i], Labels(words[..i], diarization)) + [LabeledWord(words[i], LabelOf(words[i], diarization))]
  {
    assert words[..i + 1] == words[..i] + [words[i]];
  }

  lemma UntimedWord(words: seq<Word>, i: nat)
    requires i < |words| && (words[i].start.None? || words[i].end.None?)
    ensures !WordsTimed(words)
  {
    assert words[i] in words;
  }

  method LabelWord(w: Word, diarization: seq<Segment>) returns (speaker: string)
    requires w.start.Some? && w.end.Some?
    ensures speaker == LabelOf(w, diarization)
  {
    speaker := UNKNOWN_SPEAKER;
    if diarization != [] {
      speaker := SpeakerForMidpoint((w.start.value + w.end.value) / 2.0, diarization);
    }
  }

  method LabelWords(words: seq<Word>, diarization: seq<Segment>) returns (r: Result<seq<LabeledWord>, MergeError>)
    ensures r.Ok? <==> WordsTimed(words)
    ensures r.Ok? ==> r.value == Attach(words, Labels(words, diarization))
  {
    var labeled: seq<LabeledWord> := [];
    for i := 0 to |words|
      invariant WordsTimed(words[..i])
      invariant labeled == Attach(words[..i], Labels(words[..i], diarization))
    {
      var w := words[i];
      if w.start.None? || w.end.None? {
        UntimedWord(words, i);
        return Err(KeyError);
      }
      var speaker := LabelWord(w, diarization);
      LabeledSoFar(words, i, diarization);
      labeled := labeled + [LabeledWord(w, speaker)];
    }
    assert words[..|words|] == words;
    r := Ok(labeled);
  }

  method MergeSegment(s: Spoken, diarization: seq<Segment>, strip: string -> string)
    returns (r: Result<Merged, MergeError>)
    ensures r.Ok? <==> Timed(s, strip)
    ensures r.Ok? ==> r.value == MergeOne(s, diarization, strip)
  {
    var words := WordsOf(s, strip);
    var labeled := LabelWords(words, diarization);
    if labeled.Err? {
      return Err(KeyError);
    }
    assert SpeakersOf(labeled.value) == Labels(words, diarization);
    var speaker := MajoritySpeaker(SpeakersOf(labeled.value));
    r := Ok(Merged(s, labeled.value, speaker));
  }

  lemma MergeOneMore(transcript: seq<Spoken>, s: Spoken, diarization: seq<Segment>, strip: string -> string)
    requires AllTimed(transcript, strip) && Timed(s, strip)
    ensures AllTimed(transcript + [s], strip)
    ensures MergeAll(transcript + [s], diarization, strip)
            == MergeAll(transcript, diarization, strip) + [MergeOne(s, diarization, strip)]
  {
  }

  lemma MergeSoFar(transcript: seq<Spoken>, i: nat, diarization: seq<Segment>, strip: string -> string)
    requires i < |transcript| && AllTimed(transcript[..i], strip) && Timed(transcript[i], strip)
    ensures AllTimed(transcript[..i + 1], strip)
    ensures MergeAll(transcript[..i + 1], diarization, strip)
            == MergeAll(transcript[..i], diarization, strip) + [MergeOne(transcript[i], diarization, strip)]
  {
    assert transcript[..i + 1] == transcript[..i] + [transcript[i]];
    MergeOneMore(transcript[..i], transcript[i], diarization, strip);
  }

  lemma UntimedSegment(transcript: seq<Spoken>, i: nat, strip: string -> string)
    requires i < |transcript| && !Timed(transcript[i], strip)
    ensures !AllTimed(transcript, strip)
  {
    assert transcript[i] in transcript;
  }

  /** Fails exactly when some word lacks a time; otherwise labels every word and segment. */
  method AssignSpeakersToWords(transcript: seq<Spoken>, diarization: seq<Segment>, strip: string -> string)
    returns (r: Result<seq<Merged>, MergeError>)
    ensures r.Ok? <==> AllTimed(transcript, strip)
    ensures r.Ok? ==> r.value == MergeAll(transcript, diarization, strip)
  {
    var out: seq<Merged> := [];
    for i := 0 to |transcript|
      invariant AllTimed(transcript[..i], strip)
      invariant out == MergeAll(transcript[..i], diarization, strip)
    {
      var merged := MergeSegment(transcript[i], diarization, strip);
      if merged.Err? {
        UntimedSegment(transcript, i, strip);
        return Err(KeyError);
      }
      MergeSoFar(transcript, i, diarization, strip);
      out := out + [merged.value];
    }
    assert transcript[..|transcript|] == transcript;
    r := Ok(out);
  }

  // ---------------------------------------------------------------- end to end

  /** `{seg.speaker for seg in merged if seg.speaker}`. */
  function UniqueSpeakers(merged: seq<Merged>): set<string> {
    set m | m in merged && m.speaker != "" :: m.speaker
  }

  /** The labels a diarization can give out. */
  function Voices(diarization: seq<Segment>): set<string> {
    if diarization == [] then {UNKNOWN_SPEAKER} else Speakers(diarization)
  }

  lemma LabelsAreVoices(words: seq<Word>, diarization: seq<Segment>)
    requires forall w :: w in words ==> w.start.Some? && w.end.Some?
    ensures forall x :: x in Labels(words, diarization) ==> x in Voices(diarization)
  {
  }

  /** The segment is kept whole, and so are its words; one word spanning it stands in for none. */
  predicate KeepsSegment(s: Spoken, strip: string -> string, m: Merged) {
    && m.source == s
    && if s.words.Some? && s.words.value != [] then
         |m.words| == |s.words.value| && forall k :: 0 <= k < |m.words| ==> m.words[k].word == s.words.value[k]
       else
         && |m.words| == 1 && m.words[0].word.text == strip(s.text)
         && m.words[0].word.start == Some(if s.start.Some? then s.start.value else 0.0)
         && m.words[0].word.end == Some(if s.end.Some? then s.end.value else 0.0)
  }

  lemma MergeKeepsSegment(s: Spoken, diarization: seq<Segment>, strip: string -> string)
    requires Timed(s, strip)
    ensures KeepsSegment(s, strip, MergeOne(s, diarization, strip))
  {
  }

  lemma MergeTakesMajority(s: Spoken, diarization: seq<Segment>, strip: string -> string)
    requires Timed(s, strip)
    ensures var m := MergeOne(s, diarization, strip);
      m.speaker in Voices(diarization) && IsMajority(SpeakersOf(m.words), m.speaker)
  {
    var labels := Labels(WordsOf(s, strip), diarization);
    assert SpeakersOf(MergeOne(s, diarization, strip).words) == labels;
    LabelsAreVoices(WordsOf(s, strip), diarization);
    MajorityIsMajority(labels, MergeOne(s, diarization, strip).speaker);
  }

  lemma WordIsLabelled(s: Spoken, diarization: seq<Segment>, strip: string -> string, w: LabeledWord)
    requires Timed(s, strip) && w in MergeOne(s, diarization, strip).words
    ensures w.word.start.Some? && w.word.end.Some? && w.speaker == LabelOf(w.word, diarization)
  {
    var words := WordsOf(s, strip);
    var k :| 0 <= k < |words| && MergeOne(s, diarization, strip).words[k] == w;
    assert words[k] in words;
  }

  /** The word carries the label of interval `j`, who speaks at its midpoint. */
  predicate SpokenBy(w: LabeledWord, diarization: seq<Segment>, j: nat) {
    && w.word.start.Some? && w.word.end.Some?
    && if diarization == [] then w.speaker == "UNKNOWN"
       else j < |diarization| && w.speaker == diarization[j].speaker
            && SpeaksAt(diarization, (w.word.start.value + w.word.end.value) / 2.0, j)
  }

  lemma LabelSpeaks(w: LabeledWord, diarization: seq<Segment>) returns (j: nat)
    requires w.word.start.Some? && w.word.end.Some? && w.speaker == LabelOf(w.word, diarization)
    ensures SpokenBy(w, diarization, j)
  {
    j := 0;
    if diarization != [] {
      j := Chosen(diarization, (w.word.start.value + w.word.end.value) / 2.0);
      ChosenSpeaks(diarization, (w.word.start.value + w.word.end.value) / 2.0);
    }
  }

  /** Every word is labelled with who speaks at its midpoint: the first interval holding it, else
      the first with the nearest end. */
  lemma WordsGetTheirSpeaker(s: Spoken, diarization: seq<Segment>, strip: string -> string, w: LabeledWord) returns (j: nat)
    requires Timed(s, strip) && w in MergeOne(s, diarization, strip).words
    ensures SpokenBy(w, diarization, j)
  {
    WordIsLabelled(s, diarization, strip, w);
    j := LabelSpeaks(w, diarization);
  }

  ghost predicate SpokenThroughout(m: Merged, diarization: seq<Segment>) {
    forall w :: w in m.words ==> exists j :: SpokenBy(w, diarization, j)
  }

  lemma AllWordsSpoken(s: Spoken, diarization: seq<Segment>, strip: string -> string)
    requires Timed(s, strip)
    ensures SpokenThroughout(MergeOne(s, diarization, strip), diarization)
  {
    forall w | w in MergeOne(s, diarization, strip).words ensures exists j :: SpokenBy(w, diarization, j) {
      var j := WordsGetTheirSpeaker(s, diarization, strip, w);
    }
  }

  /** The segment and its words are kept; every word carries the label of who speaks at its
      midpoint, and the segment that of the majority of its words. */
  lemma LabelsComeFromDiarization(s: Spoken, diarization: seq<Segment>, strip: string -> string)
    requires Timed(s, strip)
    ensures var m := MergeOne(s, diarization, strip);
      && KeepsSegment(s, strip, m) && SpokenThroughout(m, diarization)
      && m.speaker in Voices(diarization) && IsMajority(SpeakersOf(m.words), m.speaker)
  {
    MergeKeepsSegment(s, diarization, strip);
    AllWordsSpoken(s, diarization, strip);
    MergeTakesMajority(s, diarization, strip);
  }

  lemma StoredSpeakersAreVoices(transcript: seq<Spoken>, diarization: seq<Segment>, strip: string -> string)
    requires AllTimed(transcript, strip)
    ensures UniqueSpeakers(MergeAll(transcript, diarization, strip)) <= Voices(diarization)
  {
    var merged := MergeAll(transcript, diarization, strip);
    forall m | m in merged ensures m.speaker in Voices(diarization) {
      var i :| 0 <= i < |merged| && merged[i] == m;
      MergeTakesMajority(transcript[i], diarization, strip);
    }
  }

  lemma VoicesWithinCap(raw: seq<Segment>, n: int)
    requires n >= 1
    ensures |Voices(Cap(raw, n))| <= n
  {
    CapBoundsAndIsIdempotent(raw, n);
  }

  /** Capped at `n >= 1`, merged and voted: at most `n` speakers are stored. */
  lemma StoredSpeakersWithinCap(transcript: seq<Spoken>, raw: seq<Segment>, n: int, strip: string -> string)
    requires AllTimed(transcript, strip) && n >= 1
    ensures |UniqueSpeakers(MergeAll(transcript, Cap(raw, n), strip))| <= n
  {
    StoredSpeakersAreVoices(transcript, Cap(raw, n), strip);
    VoicesWithinCap(raw, n);
    SubsetSize(UniqueSpeakers(MergeAll(transcript, Cap(raw, n), strip)), Voices(Cap(raw, n)));
  }

  lemma SubsetSize(a: set<string>, b: set<string>)
    requires a <= b
    ensures |a| <= |b|
  {
    assert b == a + (b - a);
  }
}
