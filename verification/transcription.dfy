/** The transcription service: per-segment speech-to-text records, the
    speech metrics over them, and the two transcript renderings (timed
    lines and a speed-marked paragraph). The speech recogniser and the
    file system are parameters: `fileExists(path)` answers
    `os.path.exists`, `transcribe(path)` is the recogniser's raw text or
    the exception it raised. */
module Transcription {
  import opened Results
  import opened Text
  import opened Numbers
  import opened Sorting
  import Timestamp
  import Pace

  datatype TranscriptSegment = TranscriptSegment(
    index: nat, start: real, end: real, text: string, wps: real, emotion: string)

  const NoData: string := "No transcription data available."

  // ---------------------------------------------------------------------
  // Transcribing the segments

  /** The emotion label paired with segment `i`, or `"unknown"` when the
      emotion list is absent or too short. */
  function EmotionFor(emotionData: Option<seq<(string, string)>>, i: nat): (e: string)
    ensures emotionData.Some? && i < |emotionData.value| ==> e == emotionData.value[i].1
    ensures emotionData.None? || i >= |emotionData.value| ==> e == "unknown"
  {
    if emotionData.Some? && i < |emotionData.value| then emotionData.value[i].1 else "unknown"
  }

  /** Words per second, or 0 for a non-positive segment duration. */
  function WordsPerSecond(wordCount: nat, duration: real): (w: real)
    ensures duration > 0.0 ==> w >= 0.0 && w * duration == wordCount as real
    ensures duration <= 0.0 ==> w == 0.0
  {
    if duration > 0.0 then wordCount as real / duration else 0.0
  }

  /** The record of segment `i` whose recogniser output is `raw`. */
  function Transcribed(i: nat, duration: real, emotionData: Option<seq<(string, string)>>, raw: string): (s: TranscriptSegment)
    ensures s.index == i && s.text == Strip(raw)
    ensures s.start == i as real * duration && s.end == s.start + duration
  {
    var text := Strip(raw);
    TranscriptSegment(i, i as real * duration, (i + 1) as real * duration, text,
                      WordsPerSecond(WordCount(text), duration), EmotionFor(emotionData, i))
  }

  /** A segment yields a record when its file exists and the recogniser
      returns without raising. */
  predicate Kept(path: string, fileExists: string -> bool, transcribe: string -> Result<string>) {
    fileExists(path) && transcribe(path).Ok?
  }

  /** The positions among the first `k` whose segment yields a record,
      ascending: the indices the loop reaches without `continue`. */
  function KeptIndices(paths: seq<string>, k: nat, fileExists: string -> bool,
                       transcribe: string -> Result<string>): (ks: seq<nat>)
    requires k <= |paths|
    ensures forall i: nat :: i in ks <==> i < k && Kept(paths[i], fileExists, transcribe)
    ensures forall a, b :: 0 <= a < b < |ks| ==> ks[a] < ks[b]
    ensures forall a :: 0 <= a < |ks| ==> ks[a] < k
  {
    if k == 0 then []
    else
      var ks := KeptIndices(paths, k - 1, fileExists, transcribe);
      if Kept(paths[k - 1], fileExists, transcribe) then ks + [k - 1] else ks
  }

  function Indices(r: seq<TranscriptSegment>): (ix: seq<nat>)
    ensures |ix| == |r| && forall j :: 0 <= j < |r| ==> ix[j] == r[j].index
  {
    seq(|r|, j requires 0 <= j < |r| => r[j].index)
  }

  /** `transcribe_segments`: nothing without a loaded recogniser;
      otherwise one record per segment whose file exists and whose
      transcription succeeds, in segment order. */
  function TranscribeSegments(modelLoaded: bool, paths: seq<string>, duration: real,
                              emotionData: Option<seq<(string, string)>>,
                              fileExists: string -> bool, transcribe: string -> Result<string>): (r: seq<TranscriptSegment>)
    ensures !modelLoaded ==> r == []
    ensures modelLoaded ==> Indices(r) == KeptIndices(paths, |paths|, fileExists, transcribe)
    ensures forall a, b :: 0 <= a < b < |r| ==> r[a].index < r[b].index
    ensures forall j :: 0 <= j < |r| ==> r[j].index < |paths| && Kept(paths[r[j].index], fileExists, transcribe)
    ensures forall j :: 0 <= j < |r| ==>
      r[j] == Transcribed(r[j].index, duration, emotionData, transcribe(paths[r[j].index]).value)
  {
    if !modelLoaded then []
    else
      var ks := KeptIndices(paths, |paths|, fileExists, transcribe);
      assert forall j :: 0 <= j < |ks| ==> ks[j] in ks;
      seq(|ks|, j requires 0 <= j < |ks| => Transcribed(ks[j], duration, emotionData, transcribe(paths[ks[j]]).value))
  }

  /** A segment has a record exactly when it is kept. */
  lemma RecordIffKept(paths: seq<string>, duration: real, emotionData: Option<seq<(string, string)>>,
                       fileExists: string -> bool, transcribe: string -> Result<string>, i: nat)
    requires i < |paths|
    ensures var r := TranscribeSegments(true, paths, duration, emotionData, fileExists, transcribe);
      i in Indices(r) <==> Kept(paths[i], fileExists, transcribe)
  {
  }

  /** Each record's rate is its word count over the segment duration. */
  lemma RecordRateCountsWords(paths: seq<string>, duration: real, emotionData: Option<seq<(string, string)>>,
                              fileExists: string -> bool, transcribe: string -> Result<string>, j: nat)
    requires j < |TranscribeSegments(true, paths, duration, emotionData, fileExists, transcribe)|
    ensures var s := TranscribeSegments(true, paths, duration, emotionData, fileExists, transcribe)[j];
      s.wps == WordsPerSecond(WordCount(s.text), duration) && s.end - s.start == duration
  {
    var r := TranscribeSegments(true, paths, duration, emotionData, fileExists, transcribe);
    var i := r[j].index;
    assert r[j] == Transcribed(i, duration, emotionData, transcribe(paths[i]).value);
  }

  // ---------------------------------------------------------------------
  // Speech metrics

  datatype SpeechMetrics = SpeechMetrics(
    avgWps: real, wpsVariation: real, totalWords: nat, speechClarity: real,
    fastSegments: seq<nat>, slowSegments: seq<nat>)

  function WpsValues(data: seq<TranscriptSegment>): (ws: seq<real>)
    ensures |ws| == |data| && forall i :: 0 <= i < |data| ==> ws[i] == data[i].wps
  {
    seq(|data|, i requires 0 <= i < |data| => data[i].wps)
  }

  function WordCounts(data: seq<TranscriptSegment>): (cs: seq<nat>)
    ensures |cs| == |data| && forall i :: 0 <= i < |data| ==> cs[i] == WordCount(data[i].text)
  {
    seq(|data|, i requires 0 <= i < |data| => WordCount(data[i].text))
  }

  /** The positions whose rate falls in `band`, ascending. */
  function Positions(data: seq<TranscriptSegment>, band: Pace.Band): (ps: seq<nat>)
    ensures forall i: nat :: i in ps <==> i < |data| && Pace.BandOf(data[i].wps) == band
    ensures forall a, b :: 0 <= a < b < |ps| ==> ps[a] < ps[b]
    ensures forall a :: 0 <= a < |ps| ==> ps[a] < |data|
  {
    if |data| == 0 then []
    else
      var n := |data| - 1;
      var ps := Positions(data[..n], band);
      assert forall i :: 0 <= i < n ==> data[..n][i] == data[i];
      if Pace.BandOf(data[n].wps) == band then ps + [n] else ps
  }

  /** `min(100, max(0, avg_words / 20 * 100))`. */
  function ClarityScore(avgWords: real): (c: real)
    ensures 0.0 <= c <= 100.0
    ensures 0.0 <= avgWords <= 20.0 ==> c == avgWords * 5.0
    ensures avgWords >= 20.0 ==> c == 100.0
  {
    Clamp(avgWords / 20.0 * 100.0, 0.0, 100.0)
  }

  /** `get_speech_metrics`. */
  function GetSpeechMetrics(data: seq<TranscriptSegment>): (m: SpeechMetrics)
    ensures |data| == 0 ==> m == SpeechMetrics(0.0, 0.0, 0, 0.0, [], [])
    ensures |data| > 0 ==> m.totalWords == SumNat(WordCounts(data))
    ensures |data| > 0 ==> m.avgWps == Mean(WpsValues(data))
    ensures |data| > 0 ==> 0.0 <= m.wpsVariation && 0.0 <= m.speechClarity <= 100.0
    ensures |data| > 0 ==> forall i, j :: 0 <= i < |data| && 0 <= j < |data| ==> data[i].wps - data[j].wps <= m.wpsVariation
    ensures |data| > 0 ==> exists i, j :: 0 <= i < |data| && 0 <= j < |data| && data[i].wps - data[j].wps == m.wpsVariation
    ensures |data| > 0 ==> m.speechClarity == ClarityScore(m.totalWords as real / |data| as real)
    ensures |data| > 0 ==> forall i: nat :: i in m.fastSegments <==> i < |data| && data[i].wps > Pace.FastAbove
    ensures |data| > 0 ==> forall i: nat :: i in m.slowSegments <==> i < |data| && data[i].wps < Pace.SlowBelow
    ensures |data| > 0 ==> forall a, b :: 0 <= a < b < |m.fastSegments| ==> m.fastSegments[a] < m.fastSegments[b]
    ensures |data| > 0 ==> forall a, b :: 0 <= a < b < |m.slowSegments| ==> m.slowSegments[a] < m.slowSegments[b]
  {
    if |data| == 0 then SpeechMetrics(0.0, 0.0, 0, 0.0, [], [])
    else
      var ws := WpsValues(data);
      var total := SumNat(WordCounts(data));
      SpeechMetrics(Mean(ws), Spread(ws), total, ClarityScore(total as real / |data| as real),
                    Positions(data, Pace.TooFast), Positions(data, Pace.TooSlow))
  }

  /** The average rate lies between the slowest and the fastest segment. */
  lemma AverageWithinRange(data: seq<TranscriptSegment>)
    requires |data| > 0
    ensures MinOf(WpsValues(data)) <= GetSpeechMetrics(data).avgWps <= MaxOf(WpsValues(data))
  {
    MeanBetweenMinAndMax(WpsValues(data));
  }

  /** A segment is never both fast and slow, and the two lists plus the
      in-band segments account for every position. */
  lemma FastAndSlowDisjoint(data: seq<TranscriptSegment>, i: nat)
    requires i < |data|
    ensures var m := GetSpeechMetrics(data);
      !(i in m.fastSegments && i in m.slowSegments)
      && (i !in m.fastSegments && i !in m.slowSegments <==> Pace.SlowBelow <= data[i].wps <= Pace.FastAbove)
  {
  }

  /** A rate of `w` words per second over `d` seconds is `c` words. */
  predicate ScaledBy(w: real, c: nat, d: real) {
    w * d == c as real
  }

  lemma SumOfScaledRates(ws: seq<real>, cs: seq<nat>, duration: real)
    requires |ws| == |cs|
    requires forall i :: 0 <= i < |ws| ==> ScaledBy(ws[i], cs[i], duration)
    ensures ScaledBy(Sum(ws), SumNat(cs), duration)
  {
    assert ws[..|ws|] == ws && cs[..|cs|] == cs;
    ScaledPrefix(ws, cs, duration, |ws|);
  }

  /** The first `k` rates add up, scaled, to the first `k` counts. */
  lemma {:induction false} ScaledPrefix(ws: seq<real>, cs: seq<nat>, duration: real, k: nat)
    requires |ws| == |cs| && k <= |ws|
    requires forall i :: 0 <= i < |ws| ==> ScaledBy(ws[i], cs[i], duration)
    ensures ScaledBy(Sum(ws[..k]), SumNat(cs[..k]), duration)
  {
    if k > 0 {
      ScaledPrefix(ws, cs, duration, k - 1);
      assert ws[..k][..k - 1] == ws[..k - 1] && cs[..k][..k - 1] == cs[..k - 1];
      ScaledSumStep(Sum(ws[..k - 1]), ws[k - 1], duration, SumNat(cs[..k - 1]) as real, cs[k - 1] as real);
    }
  }

  lemma ScaledSumStep(a: real, w: real, d: real, sa: real, sw: real)
    requires a * d == sa && w * d == sw
    ensures (a + w) * d == sa + sw
  {
    Distribute(a, w, d);
  }

  /** On the service's own records (positive duration) the metrics agree
      with each other: the average rate times the duration is the average
      word count, so the clarity score is a function of the rate. */
  lemma MetricsOfTranscript(paths: seq<string>, duration: real, emotionData: Option<seq<(string, string)>>,
                            fileExists: string -> bool, transcribe: string -> Result<string>)
    requires duration > 0.0
    requires |TranscribeSegments(true, paths, duration, emotionData, fileExists, transcribe)| > 0
    ensures var data := TranscribeSegments(true, paths, duration, emotionData, fileExists, transcribe);
      var m := GetSpeechMetrics(data);
      WordsAtRate(m.avgWps, duration, |data|, m.totalWords)
      && ClarityAtRate(m.speechClarity, m.avgWps, duration)
  {
    var data := TranscribeSegments(true, paths, duration, emotionData, fileExists, transcribe);
    var ws, cs := WpsValues(data), WordCounts(data);
    forall j | 0 <= j < |data| ensures ws[j] == WordsPerSecond(cs[j], duration) {
      RecordRateCountsWords(paths, duration, emotionData, fileExists, transcribe, j);
    }
    MetricsOfScaledRates(data, duration);
  }

  /** The same relation for any records whose rates are word counts over
      a common positive duration. */
  lemma MetricsOfScaledRates(data: seq<TranscriptSegment>, duration: real)
    requires duration > 0.0 && |data| > 0
    requires forall j :: 0 <= j < |data| ==> WpsValues(data)[j] == WordsPerSecond(WordCounts(data)[j], duration)
    ensures var m := GetSpeechMetrics(data);
      WordsAtRate(m.avgWps, duration, |data|, m.totalWords)
      && ClarityAtRate(m.speechClarity, m.avgWps, duration)
  {
    var ws, cs := WpsValues(data), WordCounts(data);
    forall j | 0 <= j < |ws| ensures ScaledBy(ws[j], cs[j], duration) {
      RateTimesDuration(ws[j], cs[j], duration);
    }
    MeanOfScaledRates(ws, cs, duration);
    var m := GetSpeechMetrics(data);
    assert m.avgWps == Mean(ws) && m.totalWords == SumNat(cs);
    assert m.speechClarity == ClarityScore(SumNat(cs) as real / |ws| as real);
  }

  /** `count` segments of `duration` seconds at an average of `rate`
      words per second hold `words` words. */
  predicate WordsAtRate(rate: real, duration: real, count: nat, words: nat) {
    rate * duration * count as real == words as real
  }

  /** The clarity score of segments of `duration` seconds spoken at
      `rate` words per second. */
  predicate ClarityAtRate(clarity: real, rate: real, duration: real) {
    clarity == ClarityScore(rate * duration)
  }

  lemma MeanOfScaledRates(ws: seq<real>, cs: seq<nat>, duration: real)
    requires |ws| == |cs| > 0
    requires forall i :: 0 <= i < |ws| ==> ScaledBy(ws[i], cs[i], duration)
    ensures WordsAtRate(Mean(ws), duration, |ws|, SumNat(cs))
    ensures ClarityAtRate(ClarityScore(SumNat(cs) as real / |ws| as real), Mean(ws), duration)
  {
    SumOfScaledRates(ws, cs, duration);
    MeanTimesLength(ws);
    RatesAverage(Mean(ws), |ws|, Sum(ws), duration, SumNat(cs));
  }

  lemma RatesAverage(avg: real, n: nat, sum: real, duration: real, words: nat)
    requires n > 0 && avg * n as real == sum && ScaledBy(sum, words, duration)
    ensures WordsAtRate(avg, duration, n, words)
    ensures ClarityAtRate(ClarityScore(words as real / n as real), avg, duration)
  {
    AverageScales(avg, n as real, sum, duration, words as real);
  }

  lemma RateTimesDuration(w: real, c: nat, duration: real)
    requires duration > 0.0 && w == WordsPerSecond(c, duration)
    ensures w * duration == c as real
  {
  }

  lemma AverageScales(avg: real, n: real, sum: real, duration: real, total: real)
    requires n > 0.0 && avg * n == sum && sum * duration == total
    ensures avg * duration * n == total && total / n == avg * duration
  {
    assert avg * duration * n == avg * n * duration;
  }

  // ---------------------------------------------------------------------
  // Timed display

  /** `[MM:SS - MM:SS] (emotion) text`. */
  function DisplayLine(s: TranscriptSegment): string {
    "[" + Timestamp.FormatTimestamp(s.start) + " - " + Timestamp.FormatTimestamp(s.end) + "] (" + s.emotion + ") " + s.text
  }

  function DisplayLines(data: seq<TranscriptSegment>): (ls: seq<string>)
    ensures |ls| == |data| && forall i :: 0 <= i < |data| ==> ls[i] == DisplayLine(data[i])
  {
    seq(|data|, i requires 0 <= i < |data| => DisplayLine(data[i]))
  }

  /** `format_transcript_for_display`: the lines, separated by blank lines. */
  function FormatForDisplay(data: seq<TranscriptSegment>): (t: string)
    ensures |data| == 0 <==> t == NoData
  {
    if |data| == 0 then NoData
    else
      var ls := DisplayLines(data);
      JoinStartsWithFirst(ls, "\n\n");
      var t := Join(ls, "\n\n");
      assert t[0] == '[' != NoData[0];
      t
  }

  lemma {:induction false} JoinStartsWithFirst(xs: seq<string>, sep: string)
    requires |xs| > 0 && |xs[0]| > 0
    ensures |Join(xs, sep)| > 0 && Join(xs, sep)[0] == xs[0][0]
  {
  }

  lemma DisplayLineHasNoNewline(s: TranscriptSegment)
    requires '\n' !in s.text && '\n' !in s.emotion
    ensures '\n' !in DisplayLine(s)
  {
    var a, b := Timestamp.FormatTimestamp(s.start), Timestamp.FormatTimestamp(s.end);
    assert '\n' !in a by { Timestamp.FormatChars(s.start); }
    assert '\n' !in b by { Timestamp.FormatChars(s.end); }
    LineWithoutNewline(a, b, s.emotion, s.text);
  }

  lemma LineWithoutNewline(a: string, b: string, e: string, t: string)
    requires '\n' !in a && '\n' !in b && '\n' !in e && '\n' !in t
    ensures '\n' !in "[" + a + " - " + b + "] (" + e + ") " + t
  {
    var head := "[" + a + " - " + b + "] (";
    assert '\n' !in head;
    assert '\n' !in head + e + ") ";
  }

  /** The display is readable back: splitting it on blank lines gives the
      per-segment lines, as long as no text or emotion contains a line
      break. */
  lemma DisplaySplitsIntoLines(data: seq<TranscriptSegment>)
    requires |data| > 0
    requires forall i :: 0 <= i < |data| ==> '\n' !in data[i].text && '\n' !in data[i].emotion
    ensures Split(FormatForDisplay(data), "\n\n") == DisplayLines(data)
  {
    var ls := DisplayLines(data);
    forall i | 0 <= i < |ls| ensures "\n\n"[0] !in ls[i] {
      DisplayLineHasNoNewline(data[i]);
    }
    SplitOfJoin(ls, "\n\n");
  }

  /** The two clocks of a line sit at fixed columns and parse back to the
      segment's whole start and end seconds (for times under 100 minutes). */
  lemma DisplayClocksParse(s: TranscriptSegment)
    requires 0.0 <= s.start < 6000.0 && 0.0 <= s.end < 6000.0
    ensures |DisplayLine(s)| >= 14
    ensures Timestamp.TimeToSeconds(DisplayLine(s)[1..6]) == Some(s.start.Floor)
    ensures Timestamp.TimeToSeconds(DisplayLine(s)[9..14]) == Some(s.end.Floor)
  {
    var a, b := Timestamp.FormatTimestamp(s.start), Timestamp.FormatTimestamp(s.end);
    var line := DisplayLine(s);
    assert line == "[" + a + " - " + b + "] (" + s.emotion + ") " + s.text;
    assert line[1..6] == a;
    assert line[9..14] == b;
    Timestamp.ParseOfFormat(s.start);
    Timestamp.ParseOfFormat(s.end);
  }

  // ---------------------------------------------------------------------
  // Paragraph with speed markup

  /** Orders segments by start time (`key=lambda x: x["start"]`). */
  function ByStart(a: TranscriptSegment, b: TranscriptSegment): bool {
    a.start <= b.start
  }

  lemma ByStartIsTotal()
    ensures TotalPreorder(ByStart)
  {
  }

  /** A stripped text wrapped according to its segment's speed. */
  function Marked(wps: real, t: string): (p: string)
    ensures Pace.BandOf(wps) == Pace.TooFast ==> p == "<strong>" + t + "</strong>"
    ensures Pace.BandOf(wps) == Pace.TooSlow ==> p == "<em>" + t + "</em>"
    ensures Pace.BandOf(wps) == Pace.Optimal ==> p == t
  {
    match Pace.BandOf(wps)
    case TooFast => "<strong>" + t + "</strong>"
    case TooSlow => "<em>" + t + "</em>"
    case Optimal => t
  }

  predicate Blank(s: TranscriptSegment) {
    AllSpace(s.text)
  }

  /** The ascending positions of the segments whose text is not blank. */
  function NonBlankPositions(ss: seq<TranscriptSegment>): (ps: seq<nat>)
    ensures forall i: nat :: i in ps <==> i < |ss| && !Blank(ss[i])
    ensures forall a, b :: 0 <= a < b < |ps| ==> ps[a] < ps[b]
    ensures forall a :: 0 <= a < |ps| ==> ps[a] < |ss|
    ensures |ps| == NonBlankCount(ss)
  {
    if |ss| == 0 then []
    else
      var n := |ss| - 1;
      var ps := NonBlankPositions(ss[..n]);
      assert forall i :: 0 <= i < n ==> ss[..n][i] == ss[i];
      if Blank(ss[n]) then ps else ps + [n]
  }

  /** The marked parts of the non-blank segments, in the given order:
      part `k` is the stripped, marked text of the `k`-th non-blank
      segment. */
  function Parts(ss: seq<TranscriptSegment>): (ps: seq<string>)
    ensures |ps| == NonBlankCount(ss) == |NonBlankPositions(ss)|
    ensures forall i :: 0 <= i < |ps| ==> |ps[i]| > 0
    ensures forall k :: 0 <= k < |ps| ==>
      ps[k] == Marked(ss[NonBlankPositions(ss)[k]].wps, Strip(ss[NonBlankPositions(ss)[k]].text))
  {
    if |ss| == 0 then []
    else
      var n := |ss| - 1;
      var t := Strip(ss[n].text);
      var init := ss[..n];
      var ps := NonBlankPositions(init);
      forall k | 0 <= k < |ps| ensures init[ps[k]] == ss[ps[k]] {
      }
      if t == "" then Parts(init) else Parts(init) + [Marked(ss[n].wps, t)]
  }

  function NonBlankCount(ss: seq<TranscriptSegment>): nat {
    if |ss| == 0 then 0
    else NonBlankCount(ss[..|ss| - 1]) + if Blank(ss[|ss| - 1]) then 0 else 1
  }

  /** `format_transcript_as_paragraph`: the fixed message for no data;
      otherwise the marked texts of the non-blank segments, in start
      order, joined by single spaces, which is empty exactly when every
      text is blank. */
  function FormatAsParagraph(data: seq<TranscriptSegment>): (r: string)
    ensures |data| > 0 ==> (r == "" <==> NonBlankCount(data) == 0)
    ensures |data| == 0 ==> r == NoData
    ensures |data| > 0 ==> r == Join(Parts(Sort(data, ByStart)), " ")
  {
    if |data| == 0 then NoData
    else
      var parts := Parts(Sort(data, ByStart));
      NonBlankCountSort(data);
      assert |parts| > 0 ==> |Join(parts, " ")| >= |parts[0]| > 0;
      Join(parts, " ")
  }

  /** Data already in start order is joined in its given order. */
  lemma ParagraphOfSorted(data: seq<TranscriptSegment>)
    requires |data| > 0 && Sorted(data, ByStart)
    ensures FormatAsParagraph(data) == Join(Parts(data), " ")
  {
    SortOfSorted(data, ByStart);
  }

  lemma {:induction false} NonBlankCountAppend(s: seq<TranscriptSegment>, t: seq<TranscriptSegment>)
    ensures NonBlankCount(s + t) == NonBlankCount(s) + NonBlankCount(t)
    decreases |t|
  {
    if |t| == 0 {
      assert s + t == s;
    } else {
      var n := |t| - 1;
      assert (s + t)[..|s + t| - 1] == s + t[..n];
      NonBlankCountAppend(s, t[..n]);
    }
  }

  lemma {:induction false} NonBlankCountInsert(x: TranscriptSegment, s: seq<TranscriptSegment>)
    ensures NonBlankCount(Insert(x, s, ByStart)) == NonBlankCount(s) + NonBlankCount([x])
    decreases |s|
  {
    if |s| == 0 {
    } else if ByStart(s[|s| - 1], x) {
      NonBlankCountAppend(s, [x]);
    } else {
      NonBlankCountInsert(x, s[..|s| - 1]);
      NonBlankCountInsertStep(x, s);
    }
  }

  lemma NonBlankCountInsertStep(x: TranscriptSegment, s: seq<TranscriptSegment>)
    requires |s| > 0 && !ByStart(s[|s| - 1], x)
    requires NonBlankCount(Insert(x, s[..|s| - 1], ByStart)) == NonBlankCount(s[..|s| - 1]) + NonBlankCount([x])
    ensures NonBlankCount(Insert(x, s, ByStart)) == NonBlankCount(s) + NonBlankCount([x])
  {
    var n := |s| - 1;
    var r := Insert(x, s[..n], ByStart);
    var y := s[n];
    assert Insert(x, s, ByStart) == r + [y];
    assert (r + [y])[..|r + [y]| - 1] == r;
    var b := if Blank(y) then 0 else 1;
    assert NonBlankCount(r + [y]) == NonBlankCount(r) + b;
    assert NonBlankCount(s) == NonBlankCount(s[..n]) + b;
  }

  lemma {:induction false} NonBlankCountSort(xs: seq<TranscriptSegment>)
    ensures NonBlankCount(Sort(xs, ByStart)) == NonBlankCount(xs)
    decreases |xs|
  {
    if |xs| > 0 {
      var n := |xs| - 1;
      assert Sort(xs, ByStart) == Insert(xs[n], Sort(xs[..n], ByStart), ByStart);
      NonBlankCountSort(xs[..n]);
      NonBlankCountInsert(xs[n], Sort(xs[..n], ByStart));
      assert [xs[n]][..0] == [];
    }
  }

  /** Sorting neither adds nor loses text: the paragraph has exactly one
      part per segment whose text is not blank. */
  lemma ParagraphPartPerNonBlankSegment(data: seq<TranscriptSegment>)
    ensures |Parts(Sort(data, ByStart))| == NonBlankCount(data)
  {
    NonBlankCountSort(data);
  }

  /** The parts follow start time, and segments that start together keep
      their original relative order (Python's sort is stable). */
  lemma ParagraphOrder(data: seq<TranscriptSegment>, x0: TranscriptSegment)
    ensures Sorted(Sort(data, ByStart), ByStart)
    ensures EquivalentTo(Sort(data, ByStart), x0, ByStart) == EquivalentTo(data, x0, ByStart)
  {
    ByStartIsTotal();
    SortSorted(data, ByStart);
    SortStable(data, x0, ByStart);
  }

  lemma StartsInOrder(sa: TranscriptSegment, sb: TranscriptSegment, duration: real)
    requires sa.index <= sb.index && duration >= 0.0
    requires sa.start == sa.index as real * duration && sb.start == sb.index as real * duration
    ensures ByStart(sa, sb)
  {
    ScaleMonotone(sa.index as real, sb.index as real, duration);
  }

  /** The service's own records already start in order (for a
      non-negative duration), so the paragraph keeps transcription order. */
  lemma ParagraphOfTranscriptKeepsOrder(paths: seq<string>, duration: real, emotionData: Option<seq<(string, string)>>,
                                        fileExists: string -> bool, transcribe: string -> Result<string>)
    requires duration >= 0.0
    ensures var data := TranscribeSegments(true, paths, duration, emotionData, fileExists, transcribe);
      Sort(data, ByStart) == data
  {
    var data := TranscribeSegments(true, paths, duration, emotionData, fileExists, transcribe);
    forall j | 0 <= j < |data| ensures data[j].start == data[j].index as real * duration {
      RecordStart(paths, duration, emotionData, fileExists, transcribe, j);
    }
    StartsSorted(data, duration);
    SortOfSorted(data, ByStart);
  }

  /** So the paragraph of the service's own records joins their marked
      texts in transcription order. */
  lemma ParagraphOfTranscript(paths: seq<string>, duration: real, emotionData: Option<seq<(string, string)>>,
                              fileExists: string -> bool, transcribe: string -> Result<string>)
    requires duration >= 0.0
    ensures var data := TranscribeSegments(true, paths, duration, emotionData, fileExists, transcribe);
      |data| > 0 ==> FormatAsParagraph(data) == Join(Parts(data), " ")
  {
    ParagraphOfTranscriptKeepsOrder(paths, duration, emotionData, fileExists, transcribe);
  }

  /** Records at ascending indices, each starting at its index times a
      common non-negative duration, are in start order. */
  lemma StartsSorted(data: seq<TranscriptSegment>, duration: real)
    requires duration >= 0.0
    requires forall a, b :: 0 <= a < b < |data| ==> data[a].index < data[b].index
    requires forall j :: 0 <= j < |data| ==> data[j].start == data[j].index as real * duration
    ensures Sorted(data, ByStart)
  {
    forall a, b | 0 <= a < b < |data| ensures ByStart(data[a], data[b]) {
      StartsInOrder(data[a], data[b], duration);
    }
  }

  /** Each record starts at its segment index times the duration. */
  lemma RecordStart(paths: seq<string>, duration: real, emotionData: Option<seq<(string, string)>>,
                    fileExists: string -> bool, transcribe: string -> Result<string>, j: nat)
    requires j < |TranscribeSegments(true, paths, duration, emotionData, fileExists, transcribe)|
    ensures var s := TranscribeSegments(true, paths, duration, emotionData, fileExists, transcribe)[j];
      s.start == s.index as real * duration
  {
    var r := TranscribeSegments(true, paths, duration, emotionData, fileExists, transcribe);
    var i := r[j].index;
    assert r[j] == Transcribed(i, duration, emotionData, transcribe(paths[i]).value);
  }

}
