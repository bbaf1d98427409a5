/** The visualisation helper's data preparation: the emotion timeline
    frame, the words-per-second points, the combined emotion/speed
    frame and the clarity report. Data frames are sequences of records;
    a pandas or Python exception is an `Err` naming it. The emotion
    count metrics and the distribution chart are in `EmotionStats`. */
module Visualization {
  import opened Results
  import opened Text
  import opened Numbers
  import Timestamp
  import Timeline
  import Transcription
  import Pace

  // ---------------------------------------------------------------------
  // Emotion timeline frame

  datatype TimelineRow = TimelineRow(
    timeRange: string, emotion: string, startTime: string, endTime: string,
    startSeconds: int, endSeconds: int, midSeconds: real)

  /** The range has a second `" - "` piece (otherwise `IndexError`). */
  predicate HasEnd(seg: Timeline.Segment) {
    Timeline.EndText(seg.timeRange).Some?
  }

  /** Both pieces read as `MM:SS` (otherwise `ValueError`). */
  predicate ClocksParse(seg: Timeline.Segment)
    requires HasEnd(seg)
  {
    Timestamp.TimeToSeconds(Timeline.StartText(seg.timeRange)).Some?
    && Timestamp.TimeToSeconds(Timeline.EndText(seg.timeRange).value).Some?
  }

  function Row(seg: Timeline.Segment): TimelineRow
    requires HasEnd(seg) && ClocksParse(seg)
  {
    var a, b := Timeline.StartText(seg.timeRange), Timeline.EndText(seg.timeRange).value;
    var s, e := Timestamp.TimeToSeconds(a).value, Timestamp.TimeToSeconds(b).value;
    TimelineRow(seg.timeRange, seg.emotion, a, b, s, e, (s + e) as real / 2.0)
  }

  /** `prepare_emotion_timeline_data`. The columns are computed one after
      the other over all rows, so a range without `" - "` anywhere raises
      `IndexError` before any clock is parsed. */
  function PrepareEmotionTimelineData(segs: seq<Timeline.Segment>): (r: Result<seq<TimelineRow>>)
    ensures r == Err("IndexError") <==> exists i :: 0 <= i < |segs| && !HasEnd(segs[i])
    ensures r.Ok? <==> forall i :: 0 <= i < |segs| ==> HasEnd(segs[i]) && ClocksParse(segs[i])
    ensures r.Err? ==> r.error == "IndexError" || r.error == "ValueError"
    ensures r.Ok? ==> |r.value| == |segs| && forall i :: 0 <= i < |segs| ==>
      var row := r.value[i];
      && row.timeRange == segs[i].timeRange && row.emotion == segs[i].emotion
      && Timestamp.TimeToSeconds(Timeline.StartText(segs[i].timeRange)) == Some(row.startSeconds)
      && Timeline.EndText(segs[i].timeRange).value == row.endTime
      && Timestamp.TimeToSeconds(row.endTime) == Some(row.endSeconds)
      && row.midSeconds * 2.0 == (row.startSeconds + row.endSeconds) as real
  {
    if exists i :: 0 <= i < |segs| && !HasEnd(segs[i]) then Err("IndexError")
    else if exists i :: 0 <= i < |segs| && !ClocksParse(segs[i]) then Err("ValueError")
    else Ok(seq(|segs|, i requires 0 <= i < |segs| => Row(segs[i])))
  }

  /** On the processor's own timeline the frame always builds, and reads
      back the running totals: row `i` spans the whole seconds of the
      elapsed time before and after segment `i` (the last one ending at
      the probed total), and each row ends where the next one starts. */
  lemma TimelineFrameOfTimeline(entries: seq<(string, string)>, total: real, ds: seq<real>)
    ensures var r := PrepareEmotionTimelineData(Timeline.Timeline(entries, total, ds));
      && r.Ok? && |r.value| == |entries|
      && (forall i :: 0 <= i < |entries| ==>
            && r.value[i].emotion == entries[i].1
            && r.value[i].startSeconds == Timeline.Elapsed(ds, i).Floor
            && r.value[i].endSeconds == Timeline.EndSeconds(|entries|, total, ds, i).Floor)
      && (forall i :: 0 <= i < |entries| - 1 ==> r.value[i].endSeconds == r.value[i + 1].startSeconds)
  {
    var segs := Timeline.Timeline(entries, total, ds);
    var n := |entries|;
    forall i | 0 <= i < n
      ensures HasEnd(segs[i]) && ClocksParse(segs[i])
      ensures Timestamp.TimeToSeconds(Timeline.StartText(segs[i].timeRange)) == Some(Timeline.Elapsed(ds, i).Floor)
      ensures Timestamp.TimeToSeconds(Timeline.EndText(segs[i].timeRange).value)
           == Some(Timeline.EndSeconds(n, total, ds, i).Floor)
    {
      var a, b := Timeline.Elapsed(ds, i), Timeline.EndSeconds(n, total, ds, i);
      assert segs[i] == Timeline.Entry(entries, total, ds, i);
      Timeline.RangeTextParts(a, b);
      Timestamp.ParseOfFormat(a);
      Timestamp.ParseOfFormat(b);
    }
    var r := PrepareEmotionTimelineData(segs);
    forall i | 0 <= i < n - 1 ensures r.value[i].endSeconds == r.value[i + 1].startSeconds {
      assert Timeline.EndSeconds(n, total, ds, i) == Timeline.Elapsed(ds, i + 1);
    }
  }

  // ---------------------------------------------------------------------
  // Words-per-second points

  const OptimalMin: real := 2.0
  const OptimalMax: real := 3.0

  /** A point of the speed chart; the older helper has no `Emotion`
      column. */
  datatype WpsPoint = WpsPoint(time: real, wps: real, optimalMin: real, optimalMax: real, emotion: Option<string>)

  /** The midpoint of a segment. */
  function Midpoint(s: Transcription.TranscriptSegment): real {
    (s.start + s.end) / 2.0
  }

  function Point(s: Transcription.TranscriptSegment, withEmotion: bool): WpsPoint {
    WpsPoint(Midpoint(s), s.wps, OptimalMin, OptimalMax, if withEmotion then Some(s.emotion) else None)
  }

  /** `prepare_wps_data`: one point per segment at its midpoint. */
  function PrepareWpsData(data: seq<Transcription.TranscriptSegment>): (ps: seq<WpsPoint>)
    ensures |ps| == |data|
    ensures forall i :: 0 <= i < |data| ==>
      && ps[i].time * 2.0 == data[i].start + data[i].end && ps[i].wps == data[i].wps
      && ps[i].optimalMin == 2.0 && ps[i].optimalMax == 3.0 && ps[i].emotion == Some(data[i].emotion)
  {
    seq(|data|, i requires 0 <= i < |data| => Point(data[i], true))
  }

  /** The older helper's `prepare_wps_data`: the same points without an
      emotion. */
  function PrepareWpsDataLegacy(data: seq<Transcription.TranscriptSegment>): (ps: seq<WpsPoint>)
    ensures |ps| == |data|
    ensures forall i :: 0 <= i < |data| ==>
      && ps[i].time * 2.0 == data[i].start + data[i].end && ps[i].wps == data[i].wps
      && ps[i].optimalMin == 2.0 && ps[i].optimalMax == 3.0 && ps[i].emotion.None?
  {
    seq(|data|, i requires 0 <= i < |data| => Point(data[i], false))
  }

  /** For the transcription service's records the chart time of segment
      `k` is the middle of its slot, `(k + 1/2) * duration`. */
  lemma WpsPointsAtSlotMiddles(paths: seq<string>, duration: real, emotionData: Option<seq<(string, string)>>,
                               fileExists: string -> bool, transcribe: string -> Result<string>, j: nat)
    requires j < |Transcription.TranscribeSegments(true, paths, duration, emotionData, fileExists, transcribe)|
    ensures var data := Transcription.TranscribeSegments(true, paths, duration, emotionData, fileExists, transcribe);
      PrepareWpsData(data)[j].time == data[j].index as real * duration + duration / 2.0
  {
    var data := Transcription.TranscribeSegments(true, paths, duration, emotionData, fileExists, transcribe);
    var s := data[j];
    assert s == Transcription.Transcribed(s.index, duration, emotionData, transcribe(paths[s.index]).value);
    assert s.end == s.start + duration;
  }

  // ---------------------------------------------------------------------
  // Combined frame

  datatype CombinedPoint =
    | EmotionPoint(time: real, name: string, start: int, end: int)
    | SpeedPoint(time: real, rate: real, category: string, emotion: string)

  function SpeedPointOf(p: WpsPoint): CombinedPoint
    requires p.emotion.Some?
  {
    SpeedPoint(p.time, p.wps, Pace.CategoryName(Pace.BandOf(p.wps)), p.emotion.value)
  }

  function EmotionPointOf(row: TimelineRow): CombinedPoint {
    EmotionPoint(row.midSeconds, row.emotion, row.startSeconds, row.endSeconds)
  }

  /** `prepare_combined_timeline_data`: the emotion rows, then the speed
      rows with their category. A speed row without an emotion (the older
      helper's frame) raises `KeyError`. */
  function PrepareCombinedTimelineData(rows: seq<TimelineRow>, points: seq<WpsPoint>): (r: Result<seq<CombinedPoint>>)
    ensures r.Ok? <==> forall j :: 0 <= j < |points| ==> points[j].emotion.Some?
    ensures r.Err? ==> r.error == "KeyError"
    ensures r.Ok? ==> |r.value| == |rows| + |points|
    ensures r.Ok? ==> forall i :: 0 <= i < |rows| ==>
      r.value[i].EmotionPoint? && r.value[i].time == rows[i].midSeconds && r.value[i].name == rows[i].emotion
    ensures r.Ok? ==> forall j :: 0 <= j < |points| ==>
      var c := r.value[|rows| + j];
      && c.SpeedPoint? && c.time == points[j].time && c.rate == points[j].wps
      && (c.category == "Too Fast" <==> points[j].wps > 3.0)
      && (c.category == "Too Slow" <==> points[j].wps < 1.0)
      && (c.category == "Optimal" <==> 1.0 <= points[j].wps <= 3.0)
  {
    if exists j :: 0 <= j < |points| && points[j].emotion.None? then Err("KeyError")
    else
      Ok(seq(|rows|, i requires 0 <= i < |rows| => EmotionPointOf(rows[i]))
         + seq(|points|, j requires 0 <= j < |points| => SpeedPointOf(points[j])))
  }

  /** The newer points always combine; the older helper's points combine
      only when there are none. */
  lemma CombinedNeedsEmotionColumn(rows: seq<TimelineRow>, data: seq<Transcription.TranscriptSegment>)
    ensures PrepareCombinedTimelineData(rows, PrepareWpsData(data)).Ok?
    ensures PrepareCombinedTimelineData(rows, PrepareWpsDataLegacy(data)).Ok? <==> |data| == 0
  {
    if |data| > 0 {
      assert PrepareWpsDataLegacy(data)[0].emotion.None?;
    }
  }

  // ---------------------------------------------------------------------
  // Clarity report

  datatype ClarityData = ClarityData(avgWordsPerSegment: real, avgWps: real, clarityScore: real, issues: seq<string>)

  const Fillers: seq<string> := ["um", "uh", "like", "you know", "sort of", "kind of"]

  /** `sum(text.lower().count(w) for w in filler_words)`: raw substring
      counts, so a filler inside a longer word counts too. */
  function FillerCount(text: string): nat {
    var t := Lower(text);
    CountOccurrences(t, "um") + CountOccurrences(t, "uh") + CountOccurrences(t, "like")
    + CountOccurrences(t, "you know") + CountOccurrences(t, "sort of") + CountOccurrences(t, "kind of")
  }

  /** Fewer than three words over more than two seconds. */
  predicate FewWords(s: Transcription.TranscriptSegment) {
    WordCount(s.text) < 3 && s.end - s.start > 2.0
  }

  /** More fillers than a fifth of the words. */
  predicate ManyFillers(s: Transcription.TranscriptSegment) {
    FillerCount(s.text) as real > WordCount(s.text) as real * 0.2
  }

  const FewWordsTail: string := " has very few words for its duration"
  const FillersTail: string := " has many filler words"

  /** `f"Segment {i+1}{tail}"`. */
  function Message(i: nat, tail: string): string {
    "Segment " + (NatToString(i + 1) + tail)
  }

  function SegmentIssues(i: nat, s: Transcription.TranscriptSegment): (ms: seq<string>)
    ensures Message(i, FewWordsTail) in ms <==> FewWords(s)
    ensures Message(i, FillersTail) in ms <==> ManyFillers(s)
    ensures forall m :: m in ms ==> m == Message(i, FewWordsTail) || m == Message(i, FillersTail)
  {
    MessagesDiffer(i, i, FewWordsTail, FillersTail);
    (if FewWords(s) then [Message(i, FewWordsTail)] else [])
    + (if ManyFillers(s) then [Message(i, FillersTail)] else [])
  }

  /** The issues of the segments, in order. */
  function Issues(data: seq<Transcription.TranscriptSegment>): (ms: seq<string>)
    ensures forall m :: m in ms ==>
      exists i :: 0 <= i < |data| && (m == Message(i, FewWordsTail) || m == Message(i, FillersTail))
  {
    if |data| == 0 then []
    else
      var n := |data| - 1;
      var ms := Issues(data[..n]);
      assert forall m :: m in ms ==>
        exists i :: 0 <= i < |data| && (m == Message(i, FewWordsTail) || m == Message(i, FillersTail));
      ms + SegmentIssues(n, data[n])
  }

  /** `prepare_speech_clarity_data`. */
  function PrepareSpeechClarityData(data: seq<Transcription.TranscriptSegment>): (c: ClarityData)
    ensures |data| == 0 ==> c == ClarityData(0.0, 0.0, 0.0, [])
    ensures |data| > 0 ==> 0.0 <= c.clarityScore <= 100.0 && c.issues == Issues(data)
    ensures |data| > 0 ==> c.avgWordsPerSegment == SumNat(Transcription.WordCounts(data)) as real / |data| as real
    ensures |data| > 0 ==> c.clarityScore == Transcription.ClarityScore(c.avgWordsPerSegment)
  {
    if |data| == 0 then ClarityData(0.0, 0.0, 0.0, [])
    else
      var avgWords := SumNat(Transcription.WordCounts(data)) as real / |data| as real;
      ClarityData(avgWords, Mean(Transcription.WpsValues(data)), Transcription.ClarityScore(avgWords), Issues(data))
  }

  /** The clarity report and the transcription metrics compute the same
      average rate and clarity score from the same records. */
  lemma ClarityAgreesWithMetrics(data: seq<Transcription.TranscriptSegment>)
    ensures var c, m := PrepareSpeechClarityData(data), Transcription.GetSpeechMetrics(data);
      c.avgWps == m.avgWps && c.clarityScore == m.speechClarity
  {
  }

  // Distinct segments and distinct rules give distinct messages.

  /** The length of the run of digits a string starts with. */
  function LeadingDigits(s: string): (n: nat)
    ensures n <= |s|
  {
    if |s| > 0 && IsDigit(s[0]) then 1 + LeadingDigits(s[1..]) else 0
  }

  lemma {:induction false} LeadingDigitsOfConcat(a: string, x: string)
    requires AllDigits(a) && |x| > 0 && !IsDigit(x[0])
    ensures LeadingDigits(a + x) == |a|
  {
    if |a| > 0 {
      assert (a + x)[1..] == a[1..] + x;
      LeadingDigitsOfConcat(a[1..], x);
    } else {
      assert a + x == x;
    }
  }

  /** A run of digits followed by a non-digit splits uniquely. */
  lemma DigitsThenNonDigit(a: string, x: string, b: string, y: string)
    requires AllDigits(a) && AllDigits(b)
    requires |x| > 0 && !IsDigit(x[0]) && |y| > 0 && !IsDigit(y[0])
    requires a + x == b + y
    ensures a == b && x == y
  {
    LeadingDigitsOfConcat(a, x);
    LeadingDigitsOfConcat(b, y);
    assert a == (a + x)[..|a|] && b == (b + y)[..|b|];
    assert x == (a + x)[|a|..] && y == (b + y)[|b|..];
  }

  lemma NatToStringInjective(m: nat, n: nat)
    requires NatToString(m) == NatToString(n)
    ensures m == n
  {
    DigitsValueOfNatToString(m);
    DigitsValueOfNatToString(n);
  }

  lemma DropPrefix(p: string, s: string)
    ensures (p + s)[|p|..] == s
  {
  }

  lemma MessagesDiffer(i: nat, j: nat, tail: string, tail': string)
    requires tail == FewWordsTail || tail == FillersTail
    requires tail' == FewWordsTail || tail' == FillersTail
    ensures Message(i, tail) == Message(j, tail') <==> i == j && tail == tail'
  {
    if Message(i, tail) == Message(j, tail') {
      var a, b := NatToString(i + 1), NatToString(j + 1);
      DropPrefix("Segment ", a + tail);
      DropPrefix("Segment ", b + tail');
      assert tail[0] == ' ' && tail'[0] == ' ';
      DigitsThenNonDigit(a, tail, b, tail');
      NatToStringInjective(i + 1, j + 1);
    }
  }

  /** Each issue names the right segment: the few-words message for
      segment `k` is reported exactly when segment `k` has few words, and
      likewise for fillers. */
  lemma {:induction false} IssuesExactly(data: seq<Transcription.TranscriptSegment>, k: nat, tail: string)
    requires tail == FewWordsTail || tail == FillersTail
    ensures Message(k, tail) in Issues(data) <==>
      k < |data| && (if tail == FewWordsTail then FewWords(data[k]) else ManyFillers(data[k]))
    decreases |data|
  {
    if |data| > 0 {
      var n := |data| - 1;
      IssuesExactly(data[..n], k, tail);
      assert k < n ==> data[..n][k] == data[k];
      var other := if tail == FewWordsTail then FillersTail else FewWordsTail;
      MessagesDiffer(k, n, tail, tail);
      MessagesDiffer(k, n, tail, other);
      assert Message(k, tail) in SegmentIssues(n, data[n]) <==>
        k == n && (if tail == FewWordsTail then FewWords(data[n]) else ManyFillers(data[n]));
    }
  }

  /** Fillers are counted inside words: the single word "Alike" contains
      "like", which is more than a fifth of one word. */
  lemma FillerInsideWord()
    ensures FillerCount("Alike") == 1 && WordCount("Alike") == 1
    ensures ManyFillers(Transcription.TranscriptSegment(0, 0.0, 5.0, "Alike", 0.2, "calm"))
  {
    assert Lower("Alike") == "alike";
    FillersOfAlike();
    OneWordAlike();
  }

  lemma OneWordAlike()
    ensures WordCount("Alike") == 1
  {
    var s := "Alike";
    assert CountWordStarts(s, 5) == 0;
    assert !WordStart(s, 4) && CountWordStarts(s, 4) == 0;
    assert !WordStart(s, 3) && CountWordStarts(s, 3) == 0;
    assert !WordStart(s, 2) && CountWordStarts(s, 2) == 0;
    assert !WordStart(s, 1) && CountWordStarts(s, 1) == 0;
    assert WordStart(s, 0);
  }

  /** "alike" holds "like" once and no other filler. */
  lemma FillersOfAlike()
    ensures CountOccurrences("alike", "like") == 1
    ensures CountOccurrences("alike", "um") == 0 && CountOccurrences("alike", "uh") == 0
    ensures CountOccurrences("alike", "you know") == 0 && CountOccurrences("alike", "sort of") == 0
    ensures CountOccurrences("alike", "kind of") == 0
  {
    var t := "alike";
    assert "a" + "like" + "" == t;
    FindAfterPrefix("a", "like", "");
    assert t[5..] == "";
    FindAbsent(t, "um");
    FindAbsent(t, "uh");
    FindAbsent(t, "you know");
    FindAbsent(t, "sort of");
    assert |t| < |"kind of"|;
  }
}
