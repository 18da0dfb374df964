/** Cap-by-relabel: keep the speakers who talk most, give every other segment the label of the
    kept segment nearest in time. Times are exact reals. */
module SpeakerCap {
  import opened Basics

  datatype Segment = Segment(start: real, end: real, speaker: string) {
    function Length(): real { end - start }

    function Mid(): real { (start + end) / 2.0 }
  }

  // ---------------------------------------------------------------- shared arithmetic

  function Abs(x: real): real {
    if x < 0.0 then -x else x
  }

  /** Python's `min` with a key: the first index whose value is least. */
  function ArgMin(ds: seq<real>): (r: nat)
    requires ds != []
    ensures r < |ds|
    ensures forall i :: 0 <= i < |ds| ==> ds[r] <= ds[i]
    ensures forall i :: 0 <= i < r ==> ds[r] < ds[i]
  {
    var last := |ds| - 1;
    if last == 0 then 0
    else
      var p := ArgMin(ds[..last]);
      if ds[last] < ds[p] then last else p
  }

  // ---------------------------------------------------------------- durations

  /** Total talk time of a set of speakers. */
  function Talk(segs: seq<Segment>, who: set<string>): real {
    if segs == [] then 0.0
    else
      var last := |segs| - 1;
      Talk(segs[..last], who) + if segs[last].speaker in who then segs[last].Length() else 0.0
  }

  function Total(segs: seq<Segment>, speaker: string): real {
    Talk(segs, {speaker})
  }

  function Speakers(segs: seq<Segment>): set<string> {
    set s | s in segs :: s.speaker
  }

  /** Distinct names in the order they first occur: a dict's, or a Counter's, insertion order. */
  function Order(names: seq<string>): (order: seq<string>)
    ensures Distinct(order)
    ensures forall x :: x in order <==> x in names
  {
    if names == [] then []
    else
      var last := |names| - 1;
      assert names == names[..last] + [names[last]];
      var order := Order(names[..last]);
      if names[last] in order then order else order + [names[last]]
  }

  function Names(segs: seq<Segment>): seq<string> {
    seq(|segs|, i requires 0 <= i < |segs| => segs[i].speaker)
  }

  lemma NamesAreSpeakers(segs: seq<Segment>)
    ensures forall x :: x in Names(segs) <==> x in Speakers(segs)
  {
    forall i | 0 <= i < |segs| ensures segs[i].speaker in Names(segs) {
      assert Names(segs)[i] == segs[i].speaker;
    }
  }

  /** The speakers in the order they are first heard. */
  function FirstSeen(segs: seq<Segment>): (order: seq<string>)
    ensures Distinct(order)
    ensures forall x :: x in order <==> x in Speakers(segs)
  {
    NamesAreSpeakers(segs);
    Order(Names(segs))
  }

  lemma FirstSeenOneMore(segs: seq<Segment>, s: Segment)
    ensures var order := FirstSeen(segs);
      FirstSeen(segs + [s]) == if s.speaker in order then order else order + [s.speaker]
  {
    assert Names(segs + [s]) == Names(segs) + [s.speaker];
    assert Names(segs + [s])[..|segs|] == Names(segs);
  }

  function IndexOf(order: seq<string>, x: string): (i: nat)
    requires x in order
    ensures i < |order| && order[i] == x && forall j :: 0 <= j < i ==> order[j] != x
  {
    var last := |order| - 1;
    if x in order[..last] then IndexOf(order[..last], x) else last
  }

  // ---------------------------------------------------------------- the stable sort

  /** Behind every element at least as long: what keeps a descending sort stable. */
  function Insert(sorted: seq<string>, x: string, key: map<string, real>): (r: seq<string>)
    requires x in key && forall y :: y in sorted ==> y in key
    ensures multiset(r) == multiset(sorted) + multiset{x}
  {
    if sorted == [] then [x]
    else if key[sorted[0]] >= key[x] then
      assert sorted == [sorted[0]] + sorted[1..];
      [sorted[0]] + Insert(sorted[1..], x, key)
    else [x] + sorted
  }

  /** `sorted(items, key=..., reverse=True)`: descending, ties in the given order. */
  function SortDescending(order: seq<string>, key: map<string, real>): (r: seq<string>)
    requires forall y :: y in order ==> y in key
    ensures multiset(r) == multiset(order)
    ensures forall y :: y in r <==> y in order
  {
    if order == [] then []
    else
      var last := |order| - 1;
      assert order == order[..last] + [order[last]];
      var r := Insert(SortDescending(order[..last], key), order[last], key);
      assert forall y :: y in r <==> y in multiset(r);
      assert forall y :: y in order <==> y in multiset(order);
      r
  }

  /** `durations[speaker] += end - start` on a dict that starts every speaker at zero. */
  function AddTime(totals: map<string, real>, s: Segment): map<string, real> {
    totals[s.speaker := (if s.speaker in totals then totals[s.speaker] else 0.0) + s.Length()]
  }

  function Totals(segs: seq<Segment>): (totals: map<string, real>)
    ensures totals.Keys == Speakers(segs)
  {
    if segs == [] then map[]
    else
      var last := |segs| - 1;
      assert segs == segs[..last] + [segs[last]];
      AddTime(Totals(segs[..last]), segs[last])
  }

  function Top(order: seq<string>, key: map<string, real>, n: nat): set<string>
    requires n <= |order| && forall y :: y in order ==> y in key
  {
    SortLength(order, key);
    ToSet(SortDescending(order, key)[..n])
  }

  /** The `n` longest-talking speakers. */
  function Kept(segs: seq<Segment>, n: nat): set<string>
    requires n <= |FirstSeen(segs)|
  {
    Top(FirstSeen(segs), Totals(segs), n)
  }

  function Only(segs: seq<Segment>, who: set<string>): (r: seq<Segment>)
    ensures forall s :: s in r <==> s in segs && s.speaker in who
  {
    if segs == [] then []
    else
      var last := |segs| - 1;
      assert segs == segs[..last] + [segs[last]];
      Only(segs[..last], who) + if segs[last].speaker in who then [segs[last]] else []
  }

  function Gap(s: Segment, mid: real): real {
    Abs(s.Mid() - mid)
  }

  /** The label of the first segment of `top` whose midpoint is nearest. */
  function NearestLabel(top: seq<Segment>, mid: real): string
    requires top != []
  {
    top[ArgMin(seq(|top|, i requires 0 <= i < |top| => Gap(top[i], mid)))].speaker
  }

  function Relabel(s: Segment, top: seq<Segment>, kept: set<string>): Segment
    requires top != []
  {
    if s.speaker in kept then s else s.(speaker := NearestLabel(top, s.Mid()))
  }

  predicate CapFires(segs: seq<Segment>, maxSpeakers: int) {
    0 < maxSpeakers < |FirstSeen(segs)|
  }

  function Cap(segs: seq<Segment>, maxSpeakers: int): seq<Segment> {
    if !CapFires(segs, maxSpeakers) then segs
    else
      var kept := Kept(segs, maxSpeakers);
      var top := Only(segs, kept);
      KeptIsTop(segs, maxSpeakers);
      seq(|segs|, i requires 0 <= i < |segs| => Relabel(segs[i], top, kept))
  }

  // ---------------------------------------------------------------- the code

  method CapSpeakersByDuration(segments: seq<Segment>, maxSpeakers: int) returns (out: seq<Segment>)
    ensures out == Cap(segments, maxSpeakers)
  {
    if maxSpeakers <= 0 {
      return segments;
    }
    var durations, order := SumDurations(segments);
    if |order| <= maxSpeakers {
      return segments;
    }
    KeptIsTop(segments, maxSpeakers);
    var topN := Top(order, durations, maxSpeakers);
    var top := Only(segments, topN);
    out := seq(|segments|, i requires 0 <= i < |segments| => Relabel(segments[i], top, topN));
  }

  lemma OneMoreSegment(segs: seq<Segment>, i: nat)
    requires i < |segs|
    ensures Totals(segs[..i + 1]) == AddTime(Totals(segs[..i]), segs[i])
    ensures var order, x := FirstSeen(segs[..i]), segs[i].speaker;
      FirstSeen(segs[..i + 1]) == if x in order then order else order + [x]
  {
    assert segs[..i + 1] == segs[..i] + [segs[i]];
    assert segs[..i + 1][..i] == segs[..i];
    FirstSeenOneMore(segs[..i], segs[i]);
  }

  /** The `durations` dict, and its insertion order. */
  method SumDurations(segments: seq<Segment>) returns (durations: map<string, real>, order: seq<string>)
    ensures durations == Totals(segments) && order == FirstSeen(segments)
  {
    durations, order := map[], [];
    for i := 0 to |segments|
      invariant durations == Totals(segments[..i])
      invariant order == FirstSeen(segments[..i])
    {
      OneMoreSegment(segments, i);
      if segments[i].speaker !in order {
        order := order + [segments[i].speaker];
      }
      durations := AddTime(durations, segments[i]);
    }
    assert segments[..|segments|] == segments;
  }

  /** The dict holds each speaker's total talk time. */
  lemma {:induction false} TotalsAreTalkTimes(segs: seq<Segment>, x: string)
    requires x in Speakers(segs)
    ensures Totals(segs)[x] == Total(segs, x)
  {
    var last := |segs| - 1;
    assert segs == segs[..last] + [segs[last]];
    if x in Speakers(segs[..last]) {
      TotalsAreTalkTimes(segs[..last], x);
    } else {
      NobodyTalks(segs[..last], x);
    }
  }

  lemma {:induction false} NobodyTalks(segs: seq<Segment>, x: string)
    requires x !in Speakers(segs)
    ensures Total(segs, x) == 0.0
  {
    if segs != [] {
      assert segs[|segs| - 1] in segs;
      NobodyTalks(segs[..|segs| - 1], x);
    }
  }

  // ---------------------------------------------------------------- who is kept

  /** A larger key, or the same key and an earlier place. */
  predicate Above(order: seq<string>, key: map<string, real>, a: string, b: string)
    requires a in order && b in order && a in key && b in key
  {
    key[a] > key[b] || (key[a] == key[b] && IndexOf(order, a) < IndexOf(order, b))
  }

  /** Talks longer, or as long and was heard first. */
  predicate Beats(segs: seq<Segment>, a: string, b: string)
    requires a in FirstSeen(segs) && b in FirstSeen(segs)
  {
    || Total(segs, a) > Total(segs, b)
    || (Total(segs, a) == Total(segs, b) && IndexOf(FirstSeen(segs), a) < IndexOf(FirstSeen(segs), b))
  }

  predicate Ranked(order: seq<string>, key: map<string, real>, r: seq<string>) {
    && (forall y :: y in r ==> y in order && y in key)
    && forall i, j :: 0 <= i < j < |r| ==> Above(order, key, r[i], r[j])
  }

  lemma SortLength(order: seq<string>, key: map<string, real>)
    requires forall y :: y in order ==> y in key
    ensures |SortDescending(order, key)| == |order|
  {
    assert |SortDescending(order, key)| == |multiset(SortDescending(order, key))| == |multiset(order)|;
  }

  lemma InsertMembers(sorted: seq<string>, x: string, key: map<string, real>)
    requires x in key && forall y :: y in sorted ==> y in key
    ensures forall y :: y in Insert(sorted, x, key) <==> y in sorted || y == x
  {
  }

  lemma RankedRest(order: seq<string>, key: map<string, real>, sorted: seq<string>)
    requires Ranked(order, key, sorted) && sorted != []
    ensures Ranked(order, key, sorted[1..])
    ensures forall y :: y in sorted[1..] ==> y in order && y in key && Above(order, key, sorted[0], y)
  {
    forall y | y in sorted[1..] ensures y in sorted && Above(order, key, sorted[0], y) {
      var k :| 0 <= k < |sorted| - 1 && sorted[1..][k] == y;
      assert Above(order, key, sorted[0], sorted[k + 1]);
    }
  }

  lemma RankedFront(order: seq<string>, key: map<string, real>, front: string, rest: seq<string>)
    requires front in order && front in key && Ranked(order, key, rest)
    requires forall y :: y in rest ==> Above(order, key, front, y)
    ensures Ranked(order, key, [front] + rest)
  {
    var r := [front] + rest;
    forall i, j | 0 <= i < j < |r| ensures Above(order, key, r[i], r[j]) {
      if i == 0 {
        assert r[j] == rest[j - 1] && rest[j - 1] in rest;
      } else {
        assert r[i] == rest[i - 1] && r[j] == rest[j - 1];
      }
    }
  }

  lemma {:induction false} InsertRanks(order: seq<string>, key: map<string, real>, sorted: seq<string>, x: string)
    requires x in order && x in key && Ranked(order, key, sorted)
    requires forall y :: y in sorted ==> IndexOf(order, y) < IndexOf(order, x)
    ensures Ranked(order, key, Insert(sorted, x, key))
  {
    if sorted == [] {
    } else if key[sorted[0]] >= key[x] {
      RankedRest(order, key, sorted);
      InsertRanks(order, key, sorted[1..], x);
      InsertMembers(sorted[1..], x, key);
      RankedFront(order, key, sorted[0], Insert(sorted[1..], x, key));
    } else {
      RankedRest(order, key, sorted);
      forall y | y in sorted ensures Above(order, key, x, y) {
        assert y == sorted[0] || y in sorted[1..];
      }
      RankedFront(order, key, x, sorted);
    }
  }

  lemma RanksExtend(order: seq<string>, key: map<string, real>, x: string, r: seq<string>)
    requires Ranked(order, key, r) && x !in order && x in key
    ensures Ranked(order + [x], key, r)
    ensures IndexOf(order + [x], x) == |order| && forall y :: y in r ==> IndexOf(order + [x], y) < |order|
  {
  }

  lemma {:induction false} SortRanks(order: seq<string>, key: map<string, real>)
    requires Distinct(order) && forall y :: y in order ==> y in key
    ensures Ranked(order, key, SortDescending(order, key))
  {
    if order != [] {
      var last := |order| - 1;
      var front := order[..last];
      assert order == front + [order[last]];
      SortRanks(front, key);
      RanksExtend(front, key, order[last], SortDescending(front, key));
      InsertRanks(order, key, SortDescending(front, key), order[last]);
    }
  }

  lemma RankedIsDistinct(order: seq<string>, key: map<string, real>, sorted: seq<string>)
    requires Ranked(order, key, sorted) && forall y :: y in sorted ==> y in key
    ensures Distinct(sorted)
  {
  }

  lemma FrontAboveRest(order: seq<string>, key: map<string, real>, sorted: seq<string>, n: nat, a: string, b: string)
    requires Ranked(order, key, sorted) && n <= |sorted| && (forall y :: y in sorted ==> y in key)
    requires a in sorted[..n] && b in sorted && b !in sorted[..n]
    ensures Above(order, key, a, b)
  {
  }

  lemma TopRanks(order: seq<string>, key: map<string, real>, n: nat)
    requires n <= |order| && Distinct(order) && forall y :: y in order ==> y in key
    ensures var top := Top(order, key, n);
      && |top| == n && (forall a :: a in top ==> a in order)
      && forall a, b :: a in top && b in order && b !in top ==> Above(order, key, a, b)
  {
    var sorted := SortDescending(order, key);
    SortRanks(order, key);
    SortLength(order, key);
    RankedIsDistinct(order, key, sorted);
    DistinctCount(sorted[..n]);
    forall a, b | a in Top(order, key, n) && b in order && b !in Top(order, key, n)
      ensures Above(order, key, a, b)
    {
      FrontAboveRest(order, key, sorted, n, a, b);
    }
  }

  /** The kept speakers: exactly `n` of those heard, each ranked above everyone dropped. */
  lemma KeptIsTop(segs: seq<Segment>, n: nat)
    requires 0 < n <= |FirstSeen(segs)|
    ensures var kept := Kept(segs, n);
      && |kept| == n && kept <= Speakers(segs) && Only(segs, kept) != []
      && forall a, b :: a in kept && b in Speakers(segs) - kept ==> Beats(segs, a, b)
  {
    TopRanks(FirstSeen(segs), Totals(segs), n);
    var kept := Kept(segs, n);
    forall a, b | a in kept && b in Speakers(segs) - kept ensures Beats(segs, a, b) {
      assert Above(FirstSeen(segs), Totals(segs), a, b);
      TotalsAreTalkTimes(segs, a);
      TotalsAreTalkTimes(segs, b);
    }
    var first :| first in kept;
    var s :| s in segs && s.speaker == first;
    assert s in Only(segs, kept);
  }

  lemma {:induction false} TalkAdds(segs: seq<Segment>, who: set<string>, x: string)
    requires x !in who
    ensures Talk(segs, who + {x}) == Talk(segs, who) + Total(segs, x)
  {
    if segs != [] {
      TalkAdds(segs[..|segs| - 1], who, x);
    }
  }

  lemma DifferenceSizes(a: set<string>, b: set<string>)
    requires |a| == |b|
    ensures |a - b| == |b - a|
    ensures a - b == {} ==> a == b
  {
  }

  /** Swapping in longer talkers one at a time never lowers the total. */
  lemma {:induction false} SwapInBetter(segs: seq<Segment>, best: set<string>, other: set<string>)
    requires |best| == |other|
    requires forall a, b :: a in best && b in other - best ==> Total(segs, a) >= Total(segs, b)
    ensures Talk(segs, other) <= Talk(segs, best)
    decreases |other - best|
  {
    DifferenceSizes(other, best);
    if other - best != {} {
      var b :| b in other - best;
      assert best - other != {};
      var a :| a in best - other;
      var next := (other - {b}) + {a};
      TalkAdds(segs, other - {b}, b);
      TalkAdds(segs, other - {b}, a);
      assert (other - {b}) + {b} == other;
      assert next - best == (other - best) - {b};
      SwapInBetter(segs, best, next);
    }
  }

  /** Talk time adds up the lengths of the speakers' segments, in any two parts of the list. */
  lemma {:induction false} TalkAddsLengths(a: seq<Segment>, b: seq<Segment>, s: Segment, who: set<string>)
    ensures Talk([s], who) == if s.speaker in who then s.end - s.start else 0.0
    ensures Talk(a + b, who) == Talk(a, who) + Talk(b, who)
    decreases b
  {
    assert [s][..0] == [];
    if b == [] {
      assert a + b == a;
    } else {
      TalkAddsLengths(a, b[..|b| - 1], s, who);
      assert (a + b)[..|a + b| - 1] == a + b[..|b| - 1];
    }
  }

  /** No set of `n` heard speakers talks longer than the kept ones. */
  lemma KeptTalkMost(segs: seq<Segment>, n: nat, other: set<string>)
    requires 0 < n <= |FirstSeen(segs)|
    requires |other| == n && other <= Speakers(segs)
    ensures Talk(segs, other) <= Talk(segs, Kept(segs, n))
  {
    KeptIsTop(segs, n);
    forall a, b | a in Kept(segs, n) && b in other - Kept(segs, n)
      ensures Total(segs, a) >= Total(segs, b)
    {
      assert Beats(segs, a, b);
    }
    SwapInBetter(segs, Kept(segs, n), other);
  }

  lemma BeatsIsOneWay(segs: seq<Segment>, a: string, b: string)
    requires a in FirstSeen(segs) && b in FirstSeen(segs) && Beats(segs, a, b)
    ensures !Beats(segs, b, a)
  {
  }

  /** Ranking above everyone dropped, ties to the first heard, pins the kept set down. */
  lemma KeptIsUnique(segs: seq<Segment>, n: nat, other: set<string>)
    requires 0 < n <= |FirstSeen(segs)|
    requires |other| == n && other <= Speakers(segs)
    requires forall a, b :: a in other && b in Speakers(segs) - other ==> Beats(segs, a, b)
    ensures other == Kept(segs, n)
  {
    var kept := Kept(segs, n);
    KeptIsTop(segs, n);
    DifferenceSizes(other, kept);
    if other != kept {
      assert other - kept != {} && kept - other != {};
      var a :| a in other - kept;
      var b :| b in kept - other;
      BeatsIsOneWay(segs, a, b);
    }
  }

  // ---------------------------------------------------------------- what the cap does

  lemma {:induction false} OnlyIndex(segs: seq<Segment>, who: set<string>, k: nat) returns (j: nat)
    requires k < |Only(segs, who)|
    ensures j < |segs| && segs[j] == Only(segs, who)[k] && Only(segs[..j], who) == Only(segs, who)[..k]
  {
    var last := |segs| - 1;
    var front := Only(segs[..last], who);
    if k < |front| {
      j := OnlyIndex(segs[..last], who, k);
      assert segs[..last][..j] == segs[..j];
      assert Only(segs, who)[..k] == front[..k];
    } else {
      j := last;
      assert Only(segs, who)[..k] == front;
    }
  }

  /** `j` is the first kept segment whose midpoint is nearest to `mid`. */
  predicate IsNearest(segs: seq<Segment>, kept: set<string>, mid: real, j: nat)
    requires j < |segs|
  {
    segs[j].speaker in kept
    && forall m :: 0 <= m < |segs| && segs[m].speaker in kept ==> Closer(segs[j], segs[m], mid, m < j)
  }

  /** The midpoint of `a` is no farther from `mid` than that of `b`, or even nearer. */
  predicate Closer(a: Segment, b: Segment, mid: real, strictly: bool) {
    var (x, y) := (Abs((a.start + a.end) / 2.0 - mid), Abs((b.start + b.end) / 2.0 - mid));
    x <= y && (strictly ==> x < y)
  }

  lemma PlaceInOnly(segs: seq<Segment>, who: set<string>, k: nat, j: nat, m: nat) returns (t: nat)
    requires k < |Only(segs, who)| && j < |segs| && Only(segs[..j], who) == Only(segs, who)[..k]
    requires m < |segs| && segs[m].speaker in who
    ensures t < |Only(segs, who)| && Only(segs, who)[t] == segs[m] && (m < j ==> t < k)
  {
    if m < j {
      assert segs[..j][m] in Only(segs[..j], who);
      t :| 0 <= t < k && Only(segs, who)[..k][t] == segs[m];
    } else {
      assert segs[m] in Only(segs, who);
      t :| 0 <= t < |Only(segs, who)| && Only(segs, who)[t] == segs[m];
    }
  }

  lemma NearestOfOnly(segs: seq<Segment>, kept: set<string>, mid: real) returns (j: nat)
    requires Only(segs, kept) != []
    ensures j < |segs| && IsNearest(segs, kept, mid, j)
    ensures NearestLabel(Only(segs, kept), mid) == segs[j].speaker
  {
    var top := Only(segs, kept);
    var ds := seq(|top|, k requires 0 <= k < |top| => Gap(top[k], mid));
    var k := ArgMin(ds);
    j := OnlyIndex(segs, kept, k);
    assert segs[j] in top;
    forall m | 0 <= m < |segs| && segs[m].speaker in kept
      ensures Gap(segs[j], mid) <= Gap(segs[m], mid)
      ensures m < j ==> Gap(segs[j], mid) < Gap(segs[m], mid)
    {
      var t := PlaceInOnly(segs, kept, k, j, m);
      assert ds[k] <= ds[t] && (t < k ==> ds[k] < ds[t]);
    }
  }

  lemma CapAt(segs: seq<Segment>, n: int, i: nat)
    requires CapFires(segs, n) && i < |segs|
    ensures |Cap(segs, n)| == |segs| && Only(segs, Kept(segs, n)) != []
    ensures Cap(segs, n)[i] == Relabel(segs[i], Only(segs, Kept(segs, n)), Kept(segs, n))
  {
    KeptIsTop(segs, n);
  }

  /** A kept segment stays; any other takes the label of the first kept one with the nearest
      midpoint. */
  predicate Relabelled(segs: seq<Segment>, kept: set<string>, s: Segment, out: Segment, j: nat) {
    && out.start == s.start && out.end == s.end
    && j < |segs| && IsNearest(segs, kept, (s.start + s.end) / 2.0, j)
    && out.speaker == if s.speaker in kept then s.speaker else segs[j].speaker
  }

  lemma RelabelNearest(segs: seq<Segment>, kept: set<string>, s: Segment) returns (j: nat)
    requires Only(segs, kept) != []
    ensures Relabelled(segs, kept, s, Relabel(s, Only(segs, kept), kept), j)
  {
    j := NearestOfOnly(segs, kept, s.Mid());
  }

  /** Order and times stay; kept speakers' segments stay; every other segment takes the label
      of the first kept segment with the nearest midpoint. */
  lemma CapRelabelsNearest(segs: seq<Segment>, n: int, i: nat) returns (j: nat)
    requires CapFires(segs, n) && i < |segs|
    ensures |Cap(segs, n)| == |segs| && Relabelled(segs, Kept(segs, n), segs[i], Cap(segs, n)[i], j)
  {
    CapAt(segs, n, i);
    j := RelabelNearest(segs, Kept(segs, n), segs[i]);
  }

  lemma KeptSize(segs: seq<Segment>, n: nat)
    requires 0 < n <= |FirstSeen(segs)|
    ensures |Kept(segs, n)| == n && Kept(segs, n) <= Speakers(segs)
  {
    KeptIsTop(segs, n);
  }

  /** When the cap fires the output is spoken by exactly the kept speakers. */
  lemma CapSpeaksKept(segs: seq<Segment>, n: int)
    requires CapFires(segs, n)
    ensures Speakers(Cap(segs, n)) == Kept(segs, n) && |Kept(segs, n)| == n
  {
    KeptSize(segs, n);
    CapSpeaksOnlyKept(segs, n);
    forall x | x in Kept(segs, n) ensures x in Speakers(Cap(segs, n)) {
      KeptIsHeard(segs, n, x);
    }
  }

  lemma CapSpeaksOnlyKept(segs: seq<Segment>, n: int)
    requires CapFires(segs, n)
    ensures Speakers(Cap(segs, n)) <= Kept(segs, n)
  {
  }

  lemma KeptIsHeard(segs: seq<Segment>, n: int, x: string)
    requires CapFires(segs, n) && x in Kept(segs, n) && x in Speakers(segs)
    ensures x in Speakers(Cap(segs, n))
  {
  }

  lemma SpeakerCount(segs: seq<Segment>)
    ensures |Speakers(segs)| == |FirstSeen(segs)|
  {
    DistinctCount(FirstSeen(segs));
    assert Speakers(segs) == ToSet(FirstSeen(segs));
  }

  /** The cap leaves a list alone exactly when no cap was asked for, or it is met already. */
  lemma CapLeavesExactlyWhen(segs: seq<Segment>, n: int)
    ensures Cap(segs, n) == segs <==> n <= 0 || |Speakers(segs)| <= n
  {
    SpeakerCount(segs);
    if CapFires(segs, n) {
      CapSpeaksKept(segs, n);
    }
  }

  /** A cap of at least one is met, and capping again changes nothing. */
  lemma CapBoundsAndIsIdempotent(segs: seq<Segment>, n: int)
    ensures n >= 1 ==> |Speakers(Cap(segs, n))| <= n
    ensures Cap(Cap(segs, n), n) == Cap(segs, n)
  {
    SpeakerCount(segs);
    SpeakerCount(Cap(segs, n));
    if CapFires(segs, n) {
      CapSpeaksKept(segs, n);
    }
  }

  /** Relabelling segment by segment can only add to a kept speaker's time, and moves time
      between speakers without making or losing any. */
  lemma {:induction false} RelabelMovesTime(segs: seq<Segment>, top: seq<Segment>, kept: set<string>,
                                            all: set<string>, x: string)
    requires top != [] && (forall s :: s in top ==> s.speaker in kept)
    requires Speakers(segs) <= all && kept <= all
    ensures var out := seq(|segs|, i requires 0 <= i < |segs| => Relabel(segs[i], top, kept));
      && Talk(out, all) == Talk(segs, all)
      && (x in kept && (forall s :: s in segs ==> s.start <= s.end) ==> Total(out, x) >= Total(segs, x))
  {
    var out := seq(|segs|, i requires 0 <= i < |segs| => Relabel(segs[i], top, kept));
    if segs != [] {
      var last := |segs| - 1;
      RelabelMovesTime(segs[..last], top, kept, all, x);
      assert out[..last] == seq(last, i requires 0 <= i < last => Relabel(segs[..last][i], top, kept));
      assert segs[last] in segs && out[last] == Relabel(segs[last], top, kept);
      assert out[last].speaker in all;
    }
  }

  lemma CapConservesTime(segs: seq<Segment>, n: int, x: string)
    requires CapFires(segs, n)
    ensures Talk(Cap(segs, n), Kept(segs, n)) == Talk(segs, Speakers(segs))
    ensures x in Kept(segs, n) && (forall s :: s in segs ==> s.start <= s.end) ==>
              Total(Cap(segs, n), x) >= Total(segs, x)
  {
    var kept := Kept(segs, n);
    KeptIsTop(segs, n);
    RelabelMovesTime(segs, Only(segs, kept), kept, Speakers(segs), x);
    CapSpeaksKept(segs, n);
    OthersAreSilent(Cap(segs, n), kept, Speakers(segs));
  }

  lemma {:induction false} OthersAreSilent(segs: seq<Segment>, who: set<string>, more: set<string>)
    requires Speakers(segs) <= who <= more
    ensures Talk(segs, who) == Talk(segs, more)
  {
    if segs != [] {
      var last := |segs| - 1;
      assert segs[last] in segs;
      OthersAreSilent(segs[..last], who, more);
    }
  }
}
