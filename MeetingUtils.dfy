/** The transcript helpers of the meeting page: the duration of a meeting,
    its speakers and their badge colours, the grouping of consecutive
    utterances, transcript search, and the lines of an exported transcript. */
module MeetingUtils {
  import opened Wrappers
  import opened Seqs
  import opened Text

  /** One transcribed utterance. The ISO timestamp of the utterance is taken
      as milliseconds since the epoch. */
  datatype Segment = Segment(speakerUsername: string, timestamp: int, text: string)

  /** A segment that heads a group of consecutive utterances of one speaker:
      the heading segment's own fields, the texts of the whole group, and the
      speaker's badge colour (`undefined` when the speaker is unknown). */
  datatype ProcessedSegment = ProcessedSegment(
    speakerUsername: string,
    timestamp: int,
    text: string,
    groupedMessages: seq<string>,
    isFirstInGroup: bool,
    speakerColor: Option<string>)

  /** The badge palette, in order. */
  const SpeakerColors: seq<string> := [
    "bg-blue-100 text-blue-800",
    "bg-green-100 text-green-800",
    "bg-purple-100 text-purple-800",
    "bg-orange-100 text-orange-800",
    "bg-pink-100 text-pink-800",
    "bg-indigo-100 text-indigo-800",
    "bg-yellow-100 text-yellow-800",
    "bg-red-100 text-red-800"
  ]

  /** Two utterances of one speaker share a group when they are less than
      this many milliseconds apart. */
  const GroupingWindow: int := 120000

  // ---------------------------------------------------------------------
  // Sorting by timestamp (`[...segments].sort((a, b) => a - b)`, a stable sort)

  ghost predicate SortedByTime(s: seq<Segment>) {
    forall i, j :: 0 <= i < j < |s| ==> s[i].timestamp <= s[j].timestamp
  }

  /** Puts `x` in front of the first segment that is not earlier than it. */
  function InsertByTime(x: Segment, s: seq<Segment>): (r: seq<Segment>)
    ensures multiset(r) == multiset(s) + multiset{x}
  {
    if s == [] || x.timestamp <= s[0].timestamp then [x] + s
    else
      assert s == [s[0]] + s[1..];
      [s[0]] + InsertByTime(x, s[1..])
  }

  /** The segments ordered by timestamp; segments with equal timestamps keep
      their relative order. */
  function SortByTime(s: seq<Segment>): (r: seq<Segment>)
    ensures multiset(r) == multiset(s)
    ensures |r| == |s|
  {
    if s == [] then []
    else
      assert s == [s[0]] + s[1..];
      InsertByTime(s[0], SortByTime(s[1..]))
  }

  /** A segment no later than the head of a sorted sequence can go in
      front of it. */
  lemma ConsSorted(y: Segment, r: seq<Segment>)
    requires SortedByTime(r) && (r == [] || y.timestamp <= r[0].timestamp)
    ensures SortedByTime([y] + r)
  {
    var c := [y] + r;
    forall i, j | 0 <= i < j < |c| ensures c[i].timestamp <= c[j].timestamp {
      if i == 0 {
        assert r[0].timestamp <= r[j - 1].timestamp;
      } else {
        assert c[i] == r[i - 1];
      }
    }
  }

  lemma {:induction false} InsertByTimeSorted(x: Segment, s: seq<Segment>)
    requires SortedByTime(s)
    ensures SortedByTime(InsertByTime(x, s))
  {
    if s == [] || x.timestamp <= s[0].timestamp {
      ConsSorted(x, s);
    } else {
      var rest := InsertByTime(x, s[1..]);
      InsertByTimeSorted(x, s[1..]);
      assert |multiset(rest)| == |s[1..]| + 1;
      InsertByTimeFirst(x, s[1..]);
      ConsSorted(s[0], rest);
    }
  }

  /** The sort orders the segments by timestamp. */
  lemma {:induction false} SortByTimeSorted(s: seq<Segment>)
    ensures SortedByTime(SortByTime(s))
  {
    if s != [] {
      SortByTimeSorted(s[1..]);
      InsertByTimeSorted(s[0], SortByTime(s[1..]));
    }
  }

  function AtTime(t: int): Segment -> bool {
    (x: Segment) => x.timestamp == t
  }

  lemma {:induction false} InsertByTimeAtTime(x: Segment, s: seq<Segment>, t: int)
    ensures Filter(InsertByTime(x, s), AtTime(t)) == (if x.timestamp == t then [x] else []) + Filter(s, AtTime(t))
  {
    if s == [] || x.timestamp <= s[0].timestamp {
      assert ([x] + s)[1..] == s;
    } else {
      InsertByTimeAtTime(x, s[1..], t);
      var r := InsertByTime(x, s[1..]);
      assert ([s[0]] + r)[1..] == r;
    }
  }

  /** The sort is stable: the segments carrying any one timestamp appear in
      the same order before and after sorting. */
  lemma {:induction false} SortByTimeStable(s: seq<Segment>, t: int)
    ensures Filter(SortByTime(s), AtTime(t)) == Filter(s, AtTime(t))
  {
    if s != [] {
      SortByTimeStable(s[1..], t);
      InsertByTimeAtTime(s[0], SortByTime(s[1..]), t);
    }
  }

  // ---------------------------------------------------------------------
  // calculateDuration

  /** The earliest timestamp. */
  ghost function MinTime(s: seq<Segment>): int
    requires |s| > 0
  {
    if |s| == 1 then s[0].timestamp
    else
      var rest := MinTime(s[1..]);
      if s[0].timestamp <= rest then s[0].timestamp else rest
  }

  /** The latest timestamp. */
  ghost function MaxTime(s: seq<Segment>): int
    requires |s| > 0
  {
    if |s| == 1 then s[0].timestamp
    else
      var rest := MaxTime(s[1..]);
      if s[0].timestamp >= rest then s[0].timestamp else rest
  }

  /** `MinTime` is a lower bound that some segment attains. */
  lemma {:induction false} MinTimeIsLeast(s: seq<Segment>)
    requires |s| > 0
    ensures forall i :: 0 <= i < |s| ==> MinTime(s) <= s[i].timestamp
    ensures exists i :: 0 <= i < |s| && s[i].timestamp == MinTime(s)
  {
    if |s| == 1 {
      assert s[0].timestamp == MinTime(s);
    } else {
      MinTimeIsLeast(s[1..]);
      assert forall i :: 1 <= i < |s| ==> s[i] == s[1..][i - 1];
      if s[0].timestamp <= MinTime(s[1..]) {
        assert s[0].timestamp == MinTime(s);
      } else {
        var j :| 0 <= j < |s[1..]| && s[1..][j].timestamp == MinTime(s[1..]);
        assert s[j + 1].timestamp == MinTime(s);
      }
    }
  }

  /** `MaxTime` is an upper bound that some segment attains. */
  lemma {:induction false} MaxTimeIsGreatest(s: seq<Segment>)
    requires |s| > 0
    ensures forall i :: 0 <= i < |s| ==> s[i].timestamp <= MaxTime(s)
    ensures exists i :: 0 <= i < |s| && s[i].timestamp == MaxTime(s)
  {
    if |s| == 1 {
      assert s[0].timestamp == MaxTime(s);
    } else {
      MaxTimeIsGreatest(s[1..]);
      assert forall i :: 1 <= i < |s| ==> s[i] == s[1..][i - 1];
      if s[0].timestamp >= MaxTime(s[1..]) {
        assert s[0].timestamp == MaxTime(s);
      } else {
        var j :| 0 <= j < |s[1..]| && s[1..][j].timestamp == MaxTime(s[1..]);
        assert s[j + 1].timestamp == MaxTime(s);
      }
    }
  }

  /** `s.padStart(2, "0")`. */
  function PadStart2(s: string): (r: string)
    decreases 2 - |s|
  {
    if |s| >= 2 then s else PadStart2(['0'] + s)
  }

  /** `${minutes}:${seconds.toString().padStart(2, "0")}` for a span of
      `diffMs` milliseconds. */
  function FormatDuration(diffMs: nat): string {
    var minutes := diffMs / 60000;
    var seconds := (diffMs % 60000) / 1000;
    NatToDecimal(minutes) + ":" + PadStart2(NatToDecimal(seconds))
  }

  /** No segments, or a single one, give `"0:00"`. */
  lemma CalculateDurationOfAtMostOne(segments: seq<Segment>)
    requires |segments| <= 1
    ensures CalculateDuration(segments) == "0:00"
  {
    if |segments| == 1 {
      assert SortByTime(segments) == [segments[0]];
      assert FormatDuration(0) == "0" + ":" + "00" by {
        assert PadStart2("0") == "00";
      }
    }
  }

  /** Last timestamp minus first. */
  function Span(sorted: seq<Segment>): int
    requires |sorted| > 0
  {
    sorted[|sorted| - 1].timestamp - sorted[0].timestamp
  }

  /** `calculateDuration`: the span from the earliest to the latest segment
      as `m:ss`; no segments give `"0:00"`. */
  function CalculateDuration(segments: seq<Segment>): string
  {
    if |segments| == 0 then "0:00"
    else
      var sorted := SortByTime(segments);
      assert Span(sorted) >= 0 by {
        SortByTimeSorted(segments);
      }
      FormatDuration(Span(sorted))
  }

  /** Reads an `m:ss` string back as the milliseconds it stands for. */
  function ParseDuration(r: string): Option<nat> {
    if |r| >= 4 && r[|r| - 3] == ':' then ParseMinutesSeconds(r[..|r| - 3], r[|r| - 2..]) else None
  }

  /** The milliseconds of a minutes count and a seconds count, both in
      decimal digits. */
  function ParseMinutesSeconds(minutes: string, seconds: string): Option<nat> {
    if AllDigits(minutes) && AllDigits(seconds)
    then Some(DecimalValue(minutes) * 60000 + DecimalValue(seconds) * 1000)
    else None
  }

  /** The first segment after an insertion is the earlier of `x` and the
      old first segment. */
  lemma InsertByTimeFirst(x: Segment, s: seq<Segment>)
    ensures InsertByTime(x, s)[0].timestamp ==
      if s == [] || x.timestamp <= s[0].timestamp then x.timestamp else s[0].timestamp
  {
  }

  /** Inserting into a sorted sequence, the last segment is the later of
      `x` and the old last segment. */
  lemma {:induction false} InsertByTimeLast(x: Segment, s: seq<Segment>)
    requires SortedByTime(s)
    ensures |InsertByTime(x, s)| == |s| + 1
    ensures InsertByTime(x, s)[|s|].timestamp ==
      if s == [] || x.timestamp >= s[|s| - 1].timestamp then x.timestamp else s[|s| - 1].timestamp
  {
    var r := InsertByTime(x, s);
    assert |multiset(r)| == |multiset(s)| + 1;
    if s != [] && x.timestamp > s[0].timestamp {
      var rest := s[1..];
      InsertByTimeLast(x, rest);
      assert r[|s|] == InsertByTime(x, rest)[|rest|];
    }
  }

  /** The first sorted segment carries the earliest timestamp. */
  lemma {:induction false} SortedFirstIsMin(s: seq<Segment>)
    requires |s| > 0
    ensures SortByTime(s)[0].timestamp == MinTime(s)
  {
    if |s| > 1 {
      SortedFirstIsMin(s[1..]);
      InsertByTimeFirst(s[0], SortByTime(s[1..]));
    }
  }

  /** The last sorted segment carries the latest timestamp. */
  lemma {:induction false} SortedLastIsMax(s: seq<Segment>)
    requires |s| > 0
    ensures SortByTime(s)[|s| - 1].timestamp == MaxTime(s)
  {
    if |s| > 1 {
      SortedLastIsMax(s[1..]);
      SortByTimeSorted(s[1..]);
      InsertByTimeLast(s[0], SortByTime(s[1..]));
    }
  }

  lemma MinTimeAtMostMaxTime(s: seq<Segment>)
    requires |s| > 0
    ensures MinTime(s) <= MaxTime(s)
  {
    MinTimeIsLeast(s);
    MaxTimeIsGreatest(s);
    assert MinTime(s) <= s[0].timestamp <= MaxTime(s);
  }

  /** The latest timestamp minus the earliest. */
  ghost function Spread(s: seq<Segment>): nat
    requires |s| > 0
  {
    MinTimeAtMostMaxTime(s);
    MaxTime(s) - MinTime(s)
  }

  lemma SpanOfSorted(segments: seq<Segment>)
    requires |segments| > 0
    ensures Span(SortByTime(segments)) == Spread(segments)
  {
    SortedFirstIsMin(segments);
    SortedLastIsMax(segments);
  }

  /** The duration renders the latest timestamp minus the earliest, whatever
      the order of the input. */
  lemma CalculateDurationSpan(segments: seq<Segment>)
    requires |segments| > 0
    ensures CalculateDuration(segments) == FormatDuration(Spread(segments))
  {
    SpanOfSorted(segments);
  }

  /** Two-digit padding of a seconds count reads back as that count. */
  lemma PaddedSeconds(seconds: nat)
    requires seconds < 60
    ensures var padded := PadStart2(NatToDecimal(seconds));
      |padded| == 2 && IsDigit(padded[0]) && IsDigit(padded[1]) &&
      DecimalValue(padded) == seconds
  {
    var sec := NatToDecimal(seconds);
    var padded := PadStart2(sec);
    if seconds < 10 {
      assert |sec| == 1;
      assert PadStart2(sec) == PadStart2(['0'] + sec);
      assert padded == ['0'] + sec;
    } else {
      assert sec == NatToDecimal(seconds / 10) + [DigitChar(seconds % 10)];
      assert padded == sec;
    }
    DecimalRoundTrip(seconds);
    assert padded[..1] == [padded[0]];
    assert DecimalValue(padded[..1][..0]) == 0;
  }

  /** The pieces of `m:ss` text around its colon. */
  lemma DurationTextPieces(m: string, padded: string)
    requires |m| > 0 && |padded| == 2
    ensures var r := m + ":" + padded;
      |r| >= 4 && r[|r| - 3] == ':' && r[..|r| - 3] == m && r[|r| - 2..] == padded
  {
    var r := m + ":" + padded;
    assert r[..|r| - 3] == m;
    assert r[|r| - 2..] == padded;
  }

  lemma ParseDurationParts(m: string, padded: string)
    requires |m| > 0 && AllDigits(m)
    requires |padded| == 2 && IsDigit(padded[0]) && IsDigit(padded[1])
    ensures ParseDuration(m + ":" + padded) == Some(DecimalValue(m) * 60000 + DecimalValue(padded) * 1000)
  {
    assert AllDigits(padded);
    assert ParseMinutesSeconds(m, padded) == Some(DecimalValue(m) * 60000 + DecimalValue(padded) * 1000);
    DurationTextPieces(m, padded);
  }

  lemma WholeSeconds(diffMs: nat)
    ensures var v := diffMs / 60000 * 60000 + (diffMs % 60000) / 1000 * 1000;
      v <= diffMs < v + 1000 && v % 1000 == 0 && (diffMs % 60000) / 1000 < 60
  {
    var rem := diffMs % 60000;
    assert diffMs == diffMs / 60000 * 60000 + rem;
    assert rem == rem / 1000 * 1000 + rem % 1000;
  }

  /** The rendered duration is `m:ss` with two-digit seconds below 60, and it
      reads back as the span rounded down to whole seconds. */
  lemma FormatDurationRoundTrip(diffMs: nat)
    ensures var r := FormatDuration(diffMs);
      |r| >= 4 && r[|r| - 3] == ':' &&
      (r[|r| - 2] as int - '0' as int) * 10 + (r[|r| - 1] as int - '0' as int) < 60 &&
      ParseDuration(r).Some? &&
      ParseDuration(r).value <= diffMs < ParseDuration(r).value + 1000 &&
      ParseDuration(r).value % 1000 == 0
  {
    var minutes := diffMs / 60000;
    var seconds := (diffMs % 60000) / 1000;
    WholeSeconds(diffMs);
    PaddedSeconds(seconds);
    DecimalRoundTrip(minutes);
    var padded := PadStart2(NatToDecimal(seconds));
    ParseDurationParts(NatToDecimal(minutes), padded);
    assert DecimalValue(padded) == 10 * DecimalValue(padded[..1]) + (padded[1] as int - '0' as int);
    assert padded[..1][..0] == [];
  }

  // ---------------------------------------------------------------------
  // getUniqueSpeakers and getSpeakerColor

  /** Some segment is spoken by `x`. */
  predicate HasSpeaker(segments: seq<Segment>, x: string) {
    exists i :: 0 <= i < |segments| && segments[i].speakerUsername == x
  }

  /** The speakers of `segments`, empty names skipped, in the order in which
      they first speak: what `getUniqueSpeakers` collects in its
      insertion-ordered `Set`. */
  function UniqueSpeakersOf(segments: seq<Segment>): (r: seq<string>)
    ensures NoDuplicates(r)
    ensures forall x :: x in r <==> x != "" && HasSpeaker(segments, x)
  {
    if segments == [] then []
    else
      var n := |segments| - 1;
      var seen := UniqueSpeakersOf(segments[..n]);
      var name := segments[n].speakerUsername;
      assert forall x :: HasSpeaker(segments, x) <==> HasSpeaker(segments[..n], x) || x == name by {
        forall x | HasSpeaker(segments, x) ensures HasSpeaker(segments[..n], x) || x == name {
          var i :| 0 <= i < |segments| && segments[i].speakerUsername == x;
          if i < n { assert segments[..n][i] == segments[i]; }
        }
      }
      if name != "" && name !in seen then seen + [name] else seen
  }

  /** `getUniqueSpeakers`: walks the segments once, adding each non-empty
      speaker name to an insertion-ordered set. */
  method GetUniqueSpeakers(segments: seq<Segment>) returns (speakers: seq<string>)
    ensures speakers == UniqueSpeakersOf(segments)
  {
    speakers := [];
    for i := 0 to |segments|
      invariant speakers == UniqueSpeakersOf(segments[..i])
    {
      assert segments[..i + 1][..i] == segments[..i];
      var name := segments[i].speakerUsername;
      if name != "" && name !in speakers {
        speakers := speakers + [name];
      }
    }
    assert segments[..|segments|] == segments;
  }

  /** The position of the first segment spoken by `x`. */
  function FirstIndex(segments: seq<Segment>, x: string): (k: nat)
    requires HasSpeaker(segments, x)
    ensures k < |segments| && segments[k].speakerUsername == x
    ensures forall i :: 0 <= i < k ==> segments[i].speakerUsername != x
  {
    var n := |segments| - 1;
    if HasSpeaker(segments[..n], x) then FirstIndex(segments[..n], x)
    else
      assert forall i :: 0 <= i < n ==> segments[..n][i] == segments[i];
      n
  }

  /** The speakers are listed in the order in which they first speak. */
  lemma {:induction false} UniqueSpeakersFirstOccurrenceOrder(segments: seq<Segment>)
    ensures forall i, j :: 0 <= i < j < |UniqueSpeakersOf(segments)| ==>
      FirstIndex(segments, UniqueSpeakersOf(segments)[i]) < FirstIndex(segments, UniqueSpeakersOf(segments)[j])
  {
    if segments != [] {
      var n := |segments| - 1;
      var prefix := segments[..n];
      UniqueSpeakersFirstOccurrenceOrder(prefix);
      var seen := UniqueSpeakersOf(prefix);
      var r := UniqueSpeakersOf(segments);
      forall i, j | 0 <= i < j < |r| ensures FirstIndex(segments, r[i]) < FirstIndex(segments, r[j]) {
        assert r[i] in seen;
        if j == |seen| {
          var name := segments[n].speakerUsername;
          assert r == seen + [name] && r[j] == name;
          assert !HasSpeaker(prefix, name);
          assert FirstIndex(segments, name) == n;
          assert FirstIndex(prefix, r[i]) < n;
          assert FirstIndex(segments, r[i]) == FirstIndex(prefix, r[i]);
        } else {
          assert r[i] == seen[i] && r[j] == seen[j];
          assert FirstIndex(segments, r[i]) == FirstIndex(prefix, r[i]);
          assert FirstIndex(segments, r[j]) == FirstIndex(prefix, r[j]);
          assert j < |seen|;
          assert FirstIndex(prefix, seen[i]) < FirstIndex(prefix, seen[j]);
        }
      }
    }
  }

  /** `xs.indexOf(x)`: the first position holding `x`, or -1. */
  function IndexOf(xs: seq<string>, x: string): (k: int)
    ensures k == -1 <==> x !in xs
    ensures 0 <= k ==> k < |xs| && xs[k] == x && x !in xs[..k]
    ensures -1 <= k
  {
    if xs == [] then -1
    else if xs[0] == x then 0
    else
      var k := IndexOf(xs[1..], x);
      if k == -1 then -1
      else
        assert xs[..k + 1] == [xs[0]] + xs[1..][..k];
        k + 1
  }

  /** JavaScript's `%`: the remainder has the sign of the dividend. */
  function JsRemainder(a: int, b: int): int
    requires b > 0
  {
    if a >= 0 then a % b else -((-a) % b)
  }

  /** `getSpeakerColor`: `SPEAKER_COLORS[index % 8]`, with `index` the
      speaker's position among all speakers. An unknown speaker has index -1,
      and `SPEAKER_COLORS[-1]` is `undefined`. */
  function GetSpeakerColor(speaker: string, allSpeakers: seq<string>): (r: Option<string>)
    ensures speaker !in allSpeakers ==> r == None
    ensures forall i :: 0 <= i < |allSpeakers| && allSpeakers[i] == speaker && speaker !in allSpeakers[..i] ==>
      r == Some(SpeakerColors[i % 8])
  {
    var index := IndexOf(allSpeakers, speaker);
    var k := JsRemainder(index, |SpeakerColors|);
    if 0 <= k < |SpeakerColors| then Some(SpeakerColors[k]) else None
  }

  /** Among distinct speakers, two whose positions differ modulo 8 get
      different colours; in particular the first eight all differ. */
  lemma DistinctSpeakersDistinctColors(allSpeakers: seq<string>, i: nat, j: nat)
    requires NoDuplicates(allSpeakers)
    requires i < |allSpeakers| && j < |allSpeakers| && i % 8 != j % 8
    ensures GetSpeakerColor(allSpeakers[i], allSpeakers) != GetSpeakerColor(allSpeakers[j], allSpeakers)
  {
    assert allSpeakers[i] !in allSpeakers[..i];
    assert allSpeakers[j] !in allSpeakers[..j];
    PaletteDistinct(i % 8, j % 8);
  }

  /** The eight palette entries differ from one another. */
  lemma PaletteDistinct(a: nat, b: nat)
    requires a < 8 && b < 8 && a != b
    ensures SpeakerColors[a] != SpeakerColors[b]
  {
    var key := ["bl", "gr", "pu", "or", "pi", "in", "ye", "re"];
    forall k | 0 <= k < 8 ensures SpeakerColors[k][3] == key[k][0] && SpeakerColors[k][4] == key[k][1] {
    }
    assert key[a] != key[b];
    assert key[a][0] != key[b][0] || key[a][1] != key[b][1];
  }

  // ---------------------------------------------------------------------
  // processSegments

  /** A segment joins the group of the segment before it when both have the
      same speaker and it came less than two minutes later. */
  predicate ShouldGroup(prev: Segment, segment: Segment) {
    prev.speakerUsername == segment.speakerUsername &&
    segment.timestamp - prev.timestamp < GroupingWindow
  }

  /** The group that a segment opens. */
  function NewGroup(segment: Segment, allSpeakers: seq<string>): ProcessedSegment {
    ProcessedSegment(segment.speakerUsername, segment.timestamp, segment.text,
      [segment.text], true, GetSpeakerColor(segment.speakerUsername, allSpeakers))
  }

  /** One step of the loop: add the segment's text to the last group when it
      joins that group, otherwise open a new group. */
  function Extend(done: seq<ProcessedSegment>, joins: bool, segment: Segment, allSpeakers: seq<string>): seq<ProcessedSegment> {
    if joins && |done| > 0 then
      var last := done[|done| - 1];
      done[..|done| - 1] + [last.(groupedMessages := last.groupedMessages + [segment.text])]
    else
      done + [NewGroup(segment, allSpeakers)]
  }

  /** Whether segment `i` joins the group of the segment before it. */
  predicate Joins(sorted: seq<Segment>, i: int)
    requires 0 <= i < |sorted|
  {
    i > 0 && ShouldGroup(sorted[i - 1], sorted[i])
  }

  /** The groups built from the sorted segments, one segment at a time, as
      the loop of `processSegments` builds them. */
  function Groups(sorted: seq<Segment>, allSpeakers: seq<string>): seq<ProcessedSegment>
  {
    if sorted == [] then []
    else
      var n := |sorted| - 1;
      Extend(Groups(sorted[..n], allSpeakers), Joins(sorted, n), sorted[n], allSpeakers)
  }

  /** One more segment of a sequence extends the groups of the segments
      before it. */
  lemma GroupsStep(sorted: seq<Segment>, i: nat, allSpeakers: seq<string>)
    requires i < |sorted|
    ensures Groups(sorted[..i + 1], allSpeakers) ==
      Extend(Groups(sorted[..i], allSpeakers), i > 0 && ShouldGroup(sorted[i - 1], sorted[i]), sorted[i], allSpeakers)
  {
    assert sorted[..i + 1][..i] == sorted[..i];
  }

  /** `processSegments`: sorts the segments by time, then walks them, adding
      each to the last group or opening a new one. */
  method ProcessSegments(segments: seq<Segment>) returns (processed: seq<ProcessedSegment>)
    ensures processed == Groups(SortByTime(segments), UniqueSpeakersOf(SortByTime(segments)))
  {
    if |segments| == 0 {
      return [];
    }
    var sorted := SortByTime(segments);
    var allSpeakers := GetUniqueSpeakers(sorted);
    processed := [];
    for i := 0 to |sorted|
      invariant processed == Groups(sorted[..i], allSpeakers)
    {
      var segment := sorted[i];
      var shouldGroup := i > 0 && ShouldGroup(sorted[i - 1], segment);
      GroupsStep(sorted, i, allSpeakers);
      if shouldGroup && |processed| > 0 {
        var lastProcessed := processed[|processed| - 1];
        lastProcessed := lastProcessed.(groupedMessages := lastProcessed.groupedMessages + [segment.text]);
        processed := processed[..|processed| - 1] + [lastProcessed];
      } else {
        processed := processed + [NewGroup(segment, allSpeakers)];
      }
    }
    assert sorted[..|sorted|] == sorted;
  }

  /** Segment `i` opens a group: it is the first, or it does not join the
      group of the segment before it. */
  predicate OpensGroup(s: seq<Segment>, i: int)
    requires 0 <= i < |s|
  {
    !Joins(s, i)
  }

  /** The positions of the segments that open a group, in increasing order. */
  function GroupStarts(s: seq<Segment>): (starts: seq<nat>)
    ensures forall k :: 0 <= k < |starts| ==> starts[k] < |s|
    ensures |starts| > 0 <==> |s| > 0
  {
    if s == [] then []
    else
      var n := |s| - 1;
      GroupStarts(s[..n]) + (if OpensGroup(s, n) then [n] else [])
  }

  /** The group starts are strictly increasing. */
  lemma {:induction false} GroupStartsIncreasing(s: seq<Segment>)
    ensures forall k, l :: 0 <= k < l < |GroupStarts(s)| ==> GroupStarts(s)[k] < GroupStarts(s)[l]
  {
    if s != [] {
      GroupStartsIncreasing(s[..|s| - 1]);
    }
  }

  /** The group starts are exactly the positions that open a group; the
      first segment always opens one. */
  lemma {:induction false} GroupStartsSpec(s: seq<Segment>)
    ensures forall i :: 0 <= i < |s| ==> (i in GroupStarts(s) <==> OpensGroup(s, i))
    ensures |s| > 0 ==> |GroupStarts(s)| > 0 && GroupStarts(s)[0] == 0
  {
    if s != [] {
      var n := |s| - 1;
      GroupStartsSpec(s[..n]);
      assert forall i :: 0 <= i < n ==> (OpensGroup(s[..n], i) <==> OpensGroup(s, i));
      if n > 0 {
        assert GroupStarts(s)[0] == GroupStarts(s[..n])[0];
      }
    }
  }

  function Texts(s: seq<Segment>): (r: seq<string>)
    ensures |r| == |s| && forall i :: 0 <= i < |s| ==> r[i] == s[i].text
  {
    seq(|s|, i requires 0 <= i < |s| => s[i].text)
  }

  lemma TextsSnoc(s: seq<Segment>, x: Segment)
    ensures Texts(s + [x]) == Texts(s) + [x.text]
  {
  }

  lemma TextsLast(s: seq<Segment>, n: nat)
    requires n == |s| - 1
    ensures Texts(s) == Texts(s[..n]) + [s[n].text]
  {
  }

  /** Where group `k` ends: where the next group starts, or at the end. */
  function GroupEnd(s: seq<Segment>, k: nat): (end: nat)
    requires k < |GroupStarts(s)|
    ensures GroupStarts(s)[k] < end <= |s|
  {
    var starts := GroupStarts(s);
    GroupStartsIncreasing(s);
    if k + 1 < |starts| then starts[k + 1] else |s|
  }

  /** Group `k` stated from the segments it spans: the fields of its first
      segment, the texts of all of them, and that speaker's colour. */
  function GroupOf(s: seq<Segment>, k: nat, allSpeakers: seq<string>): ProcessedSegment
    requires k < |GroupStarts(s)|
  {
    var a := GroupStarts(s)[k];
    ProcessedSegment(s[a].speakerUsername, s[a].timestamp, s[a].text,
      Texts(s[a..GroupEnd(s, k)]), true, GetSpeakerColor(s[a].speakerUsername, allSpeakers))
  }

  /** Adding a segment at the end leaves every group but the last of the
      prefix as it was. */
  lemma GroupOfEarlier(s: seq<Segment>, k: nat, allSpeakers: seq<string>)
    requires |s| > 0 && k + 1 < |GroupStarts(s[..|s| - 1])|
    ensures k + 1 < |GroupStarts(s)|
    ensures GroupOf(s, k, allSpeakers) == GroupOf(s[..|s| - 1], k, allSpeakers)
  {
    var p := s[..|s| - 1];
    var starts := GroupStarts(p);
    GroupStartsIncreasing(p);
    assert GroupStarts(s)[..|starts|] == starts;
    var a, b := starts[k], starts[k + 1];
    assert a < b < |p|;
    assert s[a..b] == p[a..b];
  }

  /** A segment that joins the last group extends its texts. */
  lemma GroupOfJoined(s: seq<Segment>, allSpeakers: seq<string>)
    requires |s| > 1 && Joins(s, |s| - 1)
    ensures GroupStarts(s) == GroupStarts(s[..|s| - 1])
    ensures var m := |GroupStarts(s[..|s| - 1])|; var g := GroupOf(s[..|s| - 1], m - 1, allSpeakers);
      GroupOf(s, m - 1, allSpeakers) == g.(groupedMessages := g.groupedMessages + [s[|s| - 1].text])
  {
    var n := |s| - 1;
    var p := s[..n];
    var starts := GroupStarts(p);
    var m := |starts|;
    assert GroupStarts(s) == starts + [];
    var a := starts[m - 1];
    assert GroupEnd(s, m - 1) == n + 1 && GroupEnd(p, m - 1) == n;
    assert s[a..n + 1] == p[a..n] + [s[n]];
    TextsSnoc(p[a..n], s[n]);
    var texts := Texts(p[a..n]);
    assert Texts(s[a..n + 1]) == texts + [s[n].text];
    var g := ProcessedSegment(p[a].speakerUsername, p[a].timestamp, p[a].text,
      texts, true, GetSpeakerColor(p[a].speakerUsername, allSpeakers));
    assert GroupOf(p, m - 1, allSpeakers) == g;
    assert GroupOf(s, m - 1, allSpeakers) == g.(groupedMessages := texts + [s[n].text]);
  }

  /** A segment that opens a group adds its start to the group starts, and
      the group it opens is its `NewGroup`. */
  lemma GroupOfOpened(s: seq<Segment>, allSpeakers: seq<string>)
    requires |s| > 0 && OpensGroup(s, |s| - 1)
    ensures GroupStarts(s) == GroupStarts(s[..|s| - 1]) + [|s| - 1]
    ensures GroupOf(s, |GroupStarts(s[..|s| - 1])|, allSpeakers) == NewGroup(s[|s| - 1], allSpeakers)
  {
    var n := |s| - 1;
    var starts := GroupStarts(s[..n]);
    var m := |starts|;
    assert GroupStarts(s) == starts + [n];
    assert GroupEnd(s, m) == n + 1;
    assert s[n..n + 1] == [] + [s[n]];
    TextsSnoc([], s[n]);
  }

  /** A segment that opens a group leaves the last group of the prefix as
      it was. */
  lemma GroupOfClosed(s: seq<Segment>, allSpeakers: seq<string>)
    requires |s| > 0 && OpensGroup(s, |s| - 1) && |GroupStarts(s[..|s| - 1])| > 0
    ensures var m := |GroupStarts(s[..|s| - 1])|;
      m < |GroupStarts(s)| && GroupOf(s, m - 1, allSpeakers) == GroupOf(s[..|s| - 1], m - 1, allSpeakers)
  {
    var n := |s| - 1;
    var p := s[..n];
    var starts := GroupStarts(p);
    var m := |starts|;
    assert GroupStarts(s) == starts + [n];
    var a := starts[m - 1];
    assert GroupEnd(s, m - 1) == n && GroupEnd(p, m - 1) == n;
    assert s[a..n] == p[a..n];
  }

  /** The groups are exactly the runs between consecutive group starts: the
      k-th group is `GroupOf(s, k)`. */
  lemma {:induction false} GroupsFollowStarts(s: seq<Segment>, allSpeakers: seq<string>)
    ensures |Groups(s, allSpeakers)| == |GroupStarts(s)|
    ensures forall k :: 0 <= k < |GroupStarts(s)| ==> Groups(s, allSpeakers)[k] == GroupOf(s, k, allSpeakers)
  {
    if s != [] {
      var n := |s| - 1;
      GroupsFollowStarts(s[..n], allSpeakers);
      if Joins(s, n) {
        JoinedFollowsStarts(s, allSpeakers);
      } else {
        OpenedFollowsStarts(s, allSpeakers);
      }
    }
  }

  /** The statement of `GroupsFollowStarts`. */
  ghost predicate FollowsStarts(s: seq<Segment>, allSpeakers: seq<string>) {
    |Groups(s, allSpeakers)| == |GroupStarts(s)| &&
    forall k :: 0 <= k < |GroupStarts(s)| ==> Groups(s, allSpeakers)[k] == GroupOf(s, k, allSpeakers)
  }

  /** The inductive step of `GroupsFollowStarts` for a segment that joins the
      last group. */
  lemma JoinedFollowsStarts(s: seq<Segment>, allSpeakers: seq<string>)
    requires |s| > 1 && Joins(s, |s| - 1)
    requires FollowsStarts(s[..|s| - 1], allSpeakers)
    ensures FollowsStarts(s, allSpeakers)
  {
    var n := |s| - 1;
    var p := s[..n];
    var done := Groups(p, allSpeakers);
    var m := |done|;
    GroupOfJoined(s, allSpeakers);
    var last := done[m - 1];
    var joined := last.(groupedMessages := last.groupedMessages + [s[n].text]);
    var groups := Groups(s, allSpeakers);
    assert |groups| == m && groups[m - 1] == joined;
    forall k | 0 <= k < m ensures groups[k] == GroupOf(s, k, allSpeakers) {
      if k < m - 1 {
        assert groups[k] == done[k] == GroupOf(p, k, allSpeakers);
        GroupOfEarlier(s, k, allSpeakers);
      } else {
        assert last == GroupOf(p, m - 1, allSpeakers);
      }
    }
  }

  /** The inductive step of `GroupsFollowStarts` for a segment that opens a
      group. */
  lemma OpenedFollowsStarts(s: seq<Segment>, allSpeakers: seq<string>)
    requires |s| > 0 && OpensGroup(s, |s| - 1)
    requires FollowsStarts(s[..|s| - 1], allSpeakers)
    ensures FollowsStarts(s, allSpeakers)
  {
    var n := |s| - 1;
    var p := s[..n];
    var done := Groups(p, allSpeakers);
    var m := |done|;
    GroupOfOpened(s, allSpeakers);
    if m > 0 {
      GroupOfClosed(s, allSpeakers);
    }
    var groups := Groups(s, allSpeakers);
    assert |groups| == m + 1 && groups[m] == NewGroup(s[n], allSpeakers);
    forall k | 0 <= k <= m ensures groups[k] == GroupOf(s, k, allSpeakers) {
      if k < m {
        assert groups[k] == done[k] == GroupOf(p, k, allSpeakers);
        if k + 1 < m {
          GroupOfEarlier(s, k, allSpeakers);
        }
      }
    }
  }

  /** Every group holds at least one message, is marked first in its group,
      and carries the text of its first segment as its first message. */
  lemma GroupsWellFormed(s: seq<Segment>, allSpeakers: seq<string>)
    ensures forall g :: g in Groups(s, allSpeakers) ==>
      g.isFirstInGroup && |g.groupedMessages| > 0 && g.groupedMessages[0] == g.text
  {
    GroupsFollowStarts(s, allSpeakers);
    var groups := Groups(s, allSpeakers);
    forall g | g in groups
      ensures g.isFirstInGroup && |g.groupedMessages| > 0 && g.groupedMessages[0] == g.text
    {
      var k :| 0 <= k < |groups| && groups[k] == g;
      assert GroupStarts(s)[k] < GroupEnd(s, k);
    }
  }

  /** All segments a group spans have the speaker of its first segment. */
  lemma RunHasOneSpeaker(s: seq<Segment>, k: nat, i: nat)
    requires k < |GroupStarts(s)|
    requires GroupStarts(s)[k] <= i < GroupEnd(s, k)
    ensures s[i].speakerUsername == s[GroupStarts(s)[k]].speakerUsername
    decreases i
  {
    var starts := GroupStarts(s);
    if i > starts[k] {
      GroupStartsSpec(s);
      GroupStartsIncreasing(s);
      assert i !in starts;
      assert !OpensGroup(s, i);
      RunHasOneSpeaker(s, k, i - 1);
    }
  }

  /** All segments a group spans have the group's speaker. */
  lemma GroupHasOneSpeaker(s: seq<Segment>, allSpeakers: seq<string>, k: nat, i: nat)
    requires k < |GroupStarts(s)|
    requires GroupStarts(s)[k] <= i < GroupEnd(s, k)
    ensures k < |Groups(s, allSpeakers)| && s[i].speakerUsername == Groups(s, allSpeakers)[k].speakerUsername
  {
    GroupsFollowStarts(s, allSpeakers);
    RunHasOneSpeaker(s, k, i);
  }

  /** With the palette indexed by the speakers of the same segments, as
      `processSegments` does, a group lacks a colour exactly when its
      speaker name is empty (`getUniqueSpeakers` skips empty names). */
  lemma GroupColourMissingIffUnnamed(s: seq<Segment>)
    ensures forall g :: g in Groups(s, UniqueSpeakersOf(s)) ==> (g.speakerColor.None? <==> g.speakerUsername == "")
  {
    var all := UniqueSpeakersOf(s);
    GroupsFollowStarts(s, all);
    var groups := Groups(s, all);
    forall g | g in groups ensures g.speakerColor.None? <==> g.speakerUsername == "" {
      var k :| 0 <= k < |groups| && groups[k] == g;
      var name := s[GroupStarts(s)[k]].speakerUsername;
      assert HasSpeaker(s, name);
      if name != "" {
        var i := IndexOf(all, name);
        assert GetSpeakerColor(name, all) == Some(SpeakerColors[i % 8]);
      }
    }
  }

  /** All grouped messages, group after group. */
  function Messages(groups: seq<ProcessedSegment>): seq<string> {
    if groups == [] then []
    else Messages(groups[..|groups| - 1]) + groups[|groups| - 1].groupedMessages
  }

  lemma MessagesAppend(groups: seq<ProcessedSegment>, g: ProcessedSegment)
    ensures Messages(groups + [g]) == Messages(groups) + g.groupedMessages
  {
    assert (groups + [g])[..|groups|] == groups;
  }

  /** One step of the loop adds the segment's text at the end of the
      messages, whether it joins the last group or opens a new one. */
  lemma MessagesExtend(done: seq<ProcessedSegment>, joins: bool, segment: Segment, allSpeakers: seq<string>)
    ensures Messages(Extend(done, joins, segment, allSpeakers)) == Messages(done) + [segment.text]
  {
    if joins && |done| > 0 {
      var last := done[|done| - 1];
      var init := done[..|done| - 1];
      assert done == init + [last];
      MessagesAppend(init, last);
      MessagesAppend(init, last.(groupedMessages := last.groupedMessages + [segment.text]));
    } else {
      MessagesAppend(done, NewGroup(segment, allSpeakers));
    }
  }

  /** Reading the groups' messages in order gives the texts of the sorted
      segments exactly: nothing lost, nothing repeated, nothing reordered. */
  lemma {:induction false} GroupsPartitionTexts(s: seq<Segment>, allSpeakers: seq<string>)
    ensures Messages(Groups(s, allSpeakers)) == Texts(s)
  {
    if s != [] {
      var n := |s| - 1;
      var p := s[..n];
      var done := Groups(p, allSpeakers);
      GroupsPartitionTexts(p, allSpeakers);
      MessagesExtend(done, Joins(s, n), s[n], allSpeakers);
      TextsLast(s, n);
    }
  }

  /** A single segment opens a single group. */
  lemma GroupsOfOne(x: Segment, allSpeakers: seq<string>)
    ensures Groups([x], allSpeakers) == [NewGroup(x, allSpeakers)]
  {
    assert [x][..0] == [];
  }

  /** Two segments: the second joins the first's group exactly when it
      should group with it. */
  lemma GroupsOfTwo(x: Segment, y: Segment, allSpeakers: seq<string>)
    ensures Groups([x, y], allSpeakers) ==
      if ShouldGroup(x, y) then [NewGroup(x, allSpeakers).(groupedMessages := [x.text, y.text])]
      else [NewGroup(x, allSpeakers), NewGroup(y, allSpeakers)]
  {
    assert [x, y][..1] == [x];
    GroupsOfOne(x, allSpeakers);
    assert [x.text] + [y.text] == [x.text, y.text];
  }

  /** Three segments, each grouping with the one before, form one group. */
  lemma GroupsOfThreeJoined(x: Segment, y: Segment, z: Segment, allSpeakers: seq<string>)
    requires ShouldGroup(x, y) && ShouldGroup(y, z)
    ensures Groups([x, y, z], allSpeakers) == [NewGroup(x, allSpeakers).(groupedMessages := [x.text, y.text, z.text])]
  {
    assert [x, y, z][..2] == [x, y];
    GroupsOfTwo(x, y, allSpeakers);
    assert [x.text, y.text] + [z.text] == [x.text, y.text, z.text];
  }

  /** Two utterances of one speaker exactly two minutes apart fall in
      separate groups: the window is strict. */
  lemma GapOfExactlyWindowSplits(speaker: string, t: int, a: string, b: string, allSpeakers: seq<string>)
    ensures |Groups([Segment(speaker, t, a), Segment(speaker, t + GroupingWindow, b)], allSpeakers)| == 2
  {
    GroupsOfTwo(Segment(speaker, t, a), Segment(speaker, t + GroupingWindow, b), allSpeakers);
  }

  /** Chained short gaps keep one group however long it lasts: three
      utterances 100 seconds apart form one group spanning 200 seconds. */
  lemma ChainedShortGapsJoin(speaker: string, t: int, a: string, b: string, c: string, allSpeakers: seq<string>)
    ensures var g := Groups([Segment(speaker, t, a), Segment(speaker, t + 100000, b), Segment(speaker, t + 200000, c)], allSpeakers);
      |g| == 1 && g[0].groupedMessages == [a, b, c]
  {
    GroupsOfThreeJoined(Segment(speaker, t, a), Segment(speaker, t + 100000, b), Segment(speaker, t + 200000, c), allSpeakers);
  }

  // ---------------------------------------------------------------------
  // searchInTranscript

  /** The segment's lowercased text or speaker contains the lowercased query. */
  predicate MatchesQuery(segment: Segment, lowerQuery: string) {
    Contains(Lower(segment.text), lowerQuery) || Contains(Lower(segment.speakerUsername), lowerQuery)
  }

  function Matcher(lowerQuery: string): Segment -> bool {
    segment => MatchesQuery(segment, lowerQuery)
  }

  /** `searchInTranscript`: a blank query returns the segments as they are;
      otherwise the segments whose text or speaker contains the query,
      ignoring case (the query itself is not trimmed). */
  function SearchInTranscript(segments: seq<Segment>, query: string): seq<Segment> {
    if Trim(query) == "" then segments else Filter(segments, Matcher(Lower(query)))
  }

  /** A blank query keeps everything; any other query keeps, in order, every
      occurrence of the matching segments and nothing else. */
  lemma SearchInTranscriptSpec(segments: seq<Segment>, query: string)
    ensures IsBlank(query) ==> SearchInTranscript(segments, query) == segments
    ensures !IsBlank(query) ==>
      var r := SearchInTranscript(segments, query);
      IsSubsequence(r, segments) &&
      forall x :: multiset(r)[x] == if MatchesQuery(x, Lower(query)) then multiset(segments)[x] else 0
  {
    TrimEmptyIffBlank(query);
    if !IsBlank(query) {
      var r := SearchInTranscript(segments, query);
      FilterIsSubsequence(segments, Matcher(Lower(query)));
      forall x ensures multiset(r)[x] == if MatchesQuery(x, Lower(query)) then multiset(segments)[x] else 0 {
        FilterCount(segments, Matcher(Lower(query)), x);
      }
    }
  }

  /** Searching the results again with the same query changes nothing. */
  lemma SearchInTranscriptIdempotent(segments: seq<Segment>, query: string)
    ensures SearchInTranscript(SearchInTranscript(segments, query), query) == SearchInTranscript(segments, query)
  {
    if Trim(query) != "" {
      FilterIdempotent(segments, Matcher(Lower(query)));
    }
  }

  // ---------------------------------------------------------------------
  // exportTranscript: the text of the exported file

  /** `${time} - ${segment.speaker_username}: ${segment.text}`, where `time`
      is the locale rendering of the timestamp, given as `formatTime`. */
  function ExportLine(segment: Segment, formatTime: int -> string): string {
    formatTime(segment.timestamp) + " - " + segment.speakerUsername + ": " + segment.text
  }

  function ExportLines(sorted: seq<Segment>, formatTime: int -> string): (lines: seq<string>)
    ensures |lines| == |sorted|
    ensures forall i :: 0 <= i < |sorted| ==> lines[i] == ExportLine(sorted[i], formatTime)
  {
    seq(|sorted|, i requires 0 <= i < |sorted| => ExportLine(sorted[i], formatTime))
  }

  lemma ExportLinesCons(y: Segment, r: seq<Segment>, formatTime: int -> string)
    ensures ExportLines([y] + r, formatTime) == [ExportLine(y, formatTime)] + ExportLines(r, formatTime)
  {
    var lines := ExportLines([y] + r, formatTime);
    var expected := [ExportLine(y, formatTime)] + ExportLines(r, formatTime);
    forall i | 0 <= i < |lines| ensures lines[i] == expected[i] {
      if i > 0 {
        assert ([y] + r)[i] == r[i - 1];
      }
    }
  }

  lemma {:induction false} ExportLinesInsert(x: Segment, s: seq<Segment>, formatTime: int -> string)
    ensures multiset(ExportLines(InsertByTime(x, s), formatTime)) ==
      multiset(ExportLines(s, formatTime)) + multiset{ExportLine(x, formatTime)}
  {
    if s == [] || x.timestamp <= s[0].timestamp {
      ExportLinesCons(x, s, formatTime);
    } else {
      var rest := s[1..];
      assert s == [s[0]] + rest;
      ExportLinesInsert(x, rest, formatTime);
      ExportLinesCons(s[0], InsertByTime(x, rest), formatTime);
      ExportLinesCons(s[0], rest, formatTime);
    }
  }

  /** Sorting before the export only reorders the lines: the exported lines
      are those of the segments as given, each as often as it occurs. */
  lemma {:induction false} ExportLinesPermutation(segments: seq<Segment>, formatTime: int -> string)
    ensures multiset(ExportLines(SortByTime(segments), formatTime)) == multiset(ExportLines(segments, formatTime))
  {
    if segments != [] {
      var rest := segments[1..];
      assert segments == [segments[0]] + rest;
      ExportLinesPermutation(rest, formatTime);
      ExportLinesInsert(segments[0], SortByTime(rest), formatTime);
      ExportLinesCons(segments[0], rest, formatTime);
    }
  }

  /** The text of the exported file: one line per segment in time order,
      joined with newlines. */
  function ExportContent(segments: seq<Segment>, formatTime: int -> string): string {
    Join(ExportLines(SortByTime(segments), formatTime), '\n')
  }

  /** When no rendered time, speaker or text holds a line break, splitting
      the exported text into lines gives back one line per segment, in time
      order; a meeting without segments exports "", a single empty line. */
  lemma ExportContentLines(segments: seq<Segment>, formatTime: int -> string)
    requires forall i :: 0 <= i < |segments| ==> '\n' !in ExportLine(segments[i], formatTime)
    ensures |segments| > 0 ==>
      Split(ExportContent(segments, formatTime), '\n') == ExportLines(SortByTime(segments), formatTime)
    ensures |segments| == 0 ==> Split(ExportContent(segments, formatTime), '\n') == [""]
  {
    var sorted := SortByTime(segments);
    var lines := ExportLines(sorted, formatTime);
    forall k | 0 <= k < |lines| ensures '\n' !in lines[k] {
      assert sorted[k] in multiset(segments);
    }
    SplitJoin(lines, '\n');
  }
}
