/** The data processor's emotion timeline: one `(time range, emotion)`
    pair per classified segment, the range text built from a running sum
    of segment durations and the last end snapped to the probed total.
    Also the conversion of those pairs to and from the saved analysis
    document. */
module Timeline {
  import opened Results
  import opened Text
  import opened Timestamp
  import Numbers

  /** A `(time_range, emotion)` tuple. */
  datatype Segment = Segment(timeRange: string, emotion: string)

  /** `segment_durations[i] if i < len(segment_durations) else 0`. */
  function DurationAt(ds: seq<real>, i: nat): real {
    if i < |ds| then ds[i] else 0.0
  }

  /** The running total before segment `i`: the durations of the segments
      before it, each missing one counted as 0. */
  function Elapsed(ds: seq<real>, i: nat): real {
    if i == 0 then 0.0 else Elapsed(ds, i - 1) + DurationAt(ds, i - 1)
  }

  const RangeSep: string := " - "

  /** `f"{start_time} - {end_time}"`. */
  function RangeText(start: string, end: string): string {
    start + RangeSep + end
  }

  /** The range text between two times. */
  function RangeOf(start: real, end: real): string {
    RangeText(FormatTimestamp(start), FormatTimestamp(end))
  }

  /** The time the range of segment `i` of `n` ends at: the probed total
      for the last one, the running total after it otherwise. */
  function EndSeconds(n: nat, total: real, ds: seq<real>, i: nat): real {
    if i == n - 1 then total else Elapsed(ds, i + 1)
  }

  /** The timeline as a whole: entry `i` of the emotion dictionary (file
      name, label) becomes the range from `Elapsed(i)` to its end, with
      the label unchanged. */
  function Timeline(entries: seq<(string, string)>, total: real, ds: seq<real>): (segs: seq<Segment>)
    ensures |segs| == |entries|
    ensures forall i :: 0 <= i < |entries| ==> segs[i].emotion == entries[i].1
  {
    seq(|entries|, i requires 0 <= i < |entries| => Entry(entries, total, ds, i))
  }

  /** Pair `i` of the timeline. */
  function Entry(entries: seq<(string, string)>, total: real, ds: seq<real>, i: nat): Segment
    requires i < |entries|
  {
    Segment(RangeOf(Elapsed(ds, i), EndSeconds(|entries|, total, ds, i)), entries[i].1)
  }

  /** `process_emotion_data`: the loop over the dictionary's items. */
  method ProcessEmotionData(entries: seq<(string, string)>, total: real, ds: seq<real>)
    returns (segs: seq<Segment>)
    ensures segs == Timeline(entries, total, ds)
  {
    var current := 0.0;
    segs := [];
    var i := 0;
    while i < |entries|
      invariant 0 <= i <= |entries|
      invariant current == Elapsed(ds, i)
      invariant segs == FirstEntries(entries, total, ds, i)
    {
      var d := if i < |ds| then ds[i] else 0.0;
      var endTime := if i == |entries| - 1 then total else current + d;
      var seg := Segment(RangeOf(current, endTime), entries[i].1);
      assert segs + [seg] == FirstEntries(entries, total, ds, i + 1) && current + d == Elapsed(ds, i + 1) by {
        assert d == DurationAt(ds, i);
        EntryStep(entries, total, ds, i, current);
        FirstEntriesStep(entries, total, ds, i);
      }
      segs := segs + [seg];
      current := current + d;
      i := i + 1;
    }
    assert segs == Timeline(entries, total, ds) by {
      FirstEntriesAll(entries, total, ds);
    }
  }

  /** The first `n` pairs of the timeline. */
  function FirstEntries(entries: seq<(string, string)>, total: real, ds: seq<real>, n: nat): seq<Segment>
    requires n <= |entries|
  {
    seq(n, k requires 0 <= k < n => Entry(entries, total, ds, k))
  }

  lemma FirstEntriesStep(entries: seq<(string, string)>, total: real, ds: seq<real>, n: nat)
    requires n < |entries|
    ensures FirstEntries(entries, total, ds, n + 1) == FirstEntries(entries, total, ds, n) + [Entry(entries, total, ds, n)]
  {
    var a := FirstEntries(entries, total, ds, n + 1);
    var b := FirstEntries(entries, total, ds, n) + [Entry(entries, total, ds, n)];
    forall k | 0 <= k < n + 1 ensures a[k] == b[k] {
      if k < n {
        assert b[k] == FirstEntries(entries, total, ds, n)[k];
      }
    }
  }

  lemma FirstEntriesAll(entries: seq<(string, string)>, total: real, ds: seq<real>)
    ensures FirstEntries(entries, total, ds, |entries|) == Timeline(entries, total, ds)
  {
  }

  /** One turn of the loop: the running total before entry `i` gives its
      pair and, with its duration, the running total after it. */
  lemma EntryStep(entries: seq<(string, string)>, total: real, ds: seq<real>, i: nat, current: real)
    requires i < |entries| && current == Elapsed(ds, i)
    ensures current + DurationAt(ds, i) == Elapsed(ds, i + 1)
    ensures Segment(RangeOf(current, if i == |entries| - 1 then total else current + DurationAt(ds, i)), entries[i].1)
         == Entry(entries, total, ds, i)
  {
  }

  /** `x.split(" - ")[0]`, the start text of a range. */
  function StartText(timeRange: string): string {
    Split(timeRange, RangeSep)[0]
  }

  /** `x.split(" - ")[1]`; a range without the separator is the
      `IndexError` case. */
  function EndText(timeRange: string): Option<string> {
    var parts := Split(timeRange, RangeSep);
    if |parts| >= 2 then Some(parts[1]) else None
  }

  lemma RangeTextParts(a: real, b: real)
    ensures StartText(RangeText(FormatTimestamp(a), FormatTimestamp(b))) == FormatTimestamp(a)
    ensures EndText(RangeText(FormatTimestamp(a), FormatTimestamp(b))) == Some(FormatTimestamp(b))
  {
    FormatChars(a);
    FormatChars(b);
    SplitOfPair(FormatTimestamp(a), RangeSep, FormatTimestamp(b));
  }

  // ---------------------------------------------------------------------
  // Properties of the timeline

  /** The file names are never read: only the labels, in order, matter. */
  lemma {:induction false} TimelineIgnoresFileNames(a: seq<(string, string)>, b: seq<(string, string)>, total: real, ds: seq<real>)
    requires |a| == |b|
    requires forall i :: 0 <= i < |a| ==> a[i].1 == b[i].1
    ensures Timeline(a, total, ds) == Timeline(b, total, ds)
  {
  }

  /** The first range starts at `00:00`. */
  lemma TimelineStartsAtZero(entries: seq<(string, string)>, total: real, ds: seq<real>)
    requires |entries| > 0
    ensures StartText(Timeline(entries, total, ds)[0].timeRange) == "00:00"
  {
    RangeTextParts(Elapsed(ds, 0), EndSeconds(|entries|, total, ds, 0));
    FormatZero();
  }

  /** Each range ends where the next one starts: both format the same
      running total. */
  lemma TimelineContiguous(entries: seq<(string, string)>, total: real, ds: seq<real>, i: nat)
    requires i + 1 < |entries|
    ensures EndText(Timeline(entries, total, ds)[i].timeRange)
         == Some(StartText(Timeline(entries, total, ds)[i + 1].timeRange))
  {
    var n := |entries|;
    RangeTextParts(Elapsed(ds, i), EndSeconds(n, total, ds, i));
    RangeTextParts(Elapsed(ds, i + 1), EndSeconds(n, total, ds, i + 1));
  }

  /** The last range ends at the probed total, whatever the durations sum
      to. */
  lemma TimelineEndsAtTotal(entries: seq<(string, string)>, total: real, ds: seq<real>)
    requires |entries| > 0
    ensures EndText(Timeline(entries, total, ds)[|entries| - 1].timeRange) == Some(FormatTimestamp(total))
  {
    var n := |entries|;
    RangeTextParts(Elapsed(ds, n - 1), total);
  }

  /** Every start reads back, through the visualisation's parser, as the
      whole seconds of the running total. */
  lemma TimelineStartSeconds(entries: seq<(string, string)>, total: real, ds: seq<real>, i: nat)
    requires i < |entries|
    ensures TimeToSeconds(StartText(Timeline(entries, total, ds)[i].timeRange)) == Some(Elapsed(ds, i).Floor)
  {
    RangeTextParts(Elapsed(ds, i), EndSeconds(|entries|, total, ds, i));
    ParseOfFormat(Elapsed(ds, i));
  }

  lemma {:induction false} ElapsedPadded(ds: seq<real>, i: nat)
    ensures Elapsed(ds + [0.0], i) == Elapsed(ds, i)
  {
    if i > 0 {
      ElapsedPadded(ds, i - 1);
      assert DurationAt(ds + [0.0], i - 1) == DurationAt(ds, i - 1);
    }
  }

  /** A missing duration counts as zero: padding the list with zeros
      changes nothing. */
  lemma MissingDurationIsZero(entries: seq<(string, string)>, total: real, ds: seq<real>)
    ensures Timeline(entries, total, ds + [0.0]) == Timeline(entries, total, ds)
  {
    forall i | 0 <= i <= |entries| ensures Elapsed(ds + [0.0], i) == Elapsed(ds, i) {
      ElapsedPadded(ds, i);
    }
  }

  /** The running total is the sum of the supplied durations once it is
      past them all; the snap of the last end does not feed into it. */
  lemma {:induction false} ElapsedIsSum(ds: seq<real>, i: nat)
    requires i <= |ds|
    ensures Elapsed(ds, i) == Numbers.Sum(ds[..i])
  {
    if i > 0 {
      ElapsedIsSum(ds, i - 1);
      assert ds[..i][..i - 1] == ds[..i - 1];
    }
  }

  const QuarterEntries: seq<(string, string)> :=
    [("segment_1.wav", "calm"), ("segment_2.wav", "happy"),
     ("segment_3.wav", "calm"), ("segment_4.wav", "surprised")]

  const QuarterDurations: seq<real> := [15.0, 15.0, 15.0, 15.0]

  lemma QuarterElapsed()
    ensures Elapsed(QuarterDurations, 0) == 0.0 && Elapsed(QuarterDurations, 1) == 15.0
    ensures Elapsed(QuarterDurations, 2) == 30.0 && Elapsed(QuarterDurations, 3) == 45.0
  {
  }

  function QuarterExpected(last: string): seq<Segment> {
    [Segment(RangeText("00:00", "00:15"), "calm"), Segment(RangeText("00:15", "00:30"), "happy"),
     Segment(RangeText("00:30", "00:45"), "calm"), Segment(RangeText("00:45", last), "surprised")]
  }

  /** The processor's own example: four labels of fifteen seconds each
      over a minute of audio give four quarter-minute ranges. */
  lemma FourQuarterMinutes()
    ensures Timeline(QuarterEntries, 60.0, QuarterDurations) == QuarterExpected("01:00")
  {
    MinuteClocks();
    QuarterTimeline(60.0, "01:00");
  }

  /** The same labels and durations with a probed total of 58 s: only
      the last end moves. */
  lemma LastEndSnapsToTotal()
    ensures Timeline(QuarterEntries, 58.0, QuarterDurations) == QuarterExpected("00:58")
  {
    MinuteClocks();
    QuarterTimeline(58.0, "00:58");
  }

  lemma QuarterTimeline(total: real, last: string)
    requires FormatTimestamp(total) == last
    ensures Timeline(QuarterEntries, total, QuarterDurations) == QuarterExpected(last)
  {
    var t := Timeline(QuarterEntries, total, QuarterDurations);
    QuarterEntry(total, 0, "00:00", "00:15");
    QuarterEntry(total, 1, "00:15", "00:30");
    QuarterEntry(total, 2, "00:30", "00:45");
    QuarterEntry(total, 3, "00:45", last);
    assert |t| == 4;
  }

  /** Entry `k` of the example, given the clock texts of its ends. */
  lemma QuarterEntry(total: real, k: nat, ta: string, tb: string)
    requires k < 4
    requires k == 0 ==> ta == "00:00" && tb == "00:15"
    requires k == 1 ==> ta == "00:15" && tb == "00:30"
    requires k == 2 ==> ta == "00:30" && tb == "00:45"
    requires k == 3 ==> ta == "00:45" && tb == FormatTimestamp(total)
    ensures Timeline(QuarterEntries, total, QuarterDurations)[k] == Segment(RangeText(ta, tb), QuarterEntries[k].1)
  {
    QuarterElapsed();
    QuarterClocks();
    EntryText(QuarterEntries, total, QuarterDurations, k, ta, tb);
  }

  lemma EntryText(entries: seq<(string, string)>, total: real, ds: seq<real>, k: nat, ta: string, tb: string)
    requires k < |entries|
    requires FormatTimestamp(Elapsed(ds, k)) == ta
    requires FormatTimestamp(EndSeconds(|entries|, total, ds, k)) == tb
    ensures Timeline(entries, total, ds)[k] == Segment(RangeText(ta, tb), entries[k].1)
  {
  }

  lemma MinuteClocks()
    ensures FormatTimestamp(60.0) == "01:00" && FormatTimestamp(58.0) == "00:58"
  {
    Clock(1, 0);
    Clock(0, 58);
  }

  lemma QuarterClocks()
    ensures FormatTimestamp(0.0) == "00:00" && FormatTimestamp(15.0) == "00:15"
    ensures FormatTimestamp(30.0) == "00:30" && FormatTimestamp(45.0) == "00:45"
  {
    FormatZero();
    Clock(0, 15);
    Clock(0, 30);
    Clock(0, 45);
  }

  lemma Clock(m: nat, s: nat)
    requires m < 10 && s < 60
    ensures FormatTimestamp((m * 60 + s) as real)
         == [DigitChar(0), DigitChar(m), ':', DigitChar(s / 10), DigitChar(s % 10)]
  {
    var x := (m * 60 + s) as real;
    assert FormatTimestamp(x) == Pad2(m) + ":" + Pad2(s) by {
      FormatOfParse(m, s);
    }
    assert Pad2(m) == [DigitChar(0), DigitChar(m)] by {
      Pad2Digits(m);
    }
    assert Pad2(s) == [DigitChar(s / 10), DigitChar(s % 10)] by {
      Pad2Digits(s);
    }
  }

  /** A number below 100 pads to its two decimal digits. */
  lemma Pad2Digits(n: int)
    requires 0 <= n < 100
    ensures Pad2(n) == [DigitChar(n / 10), DigitChar(n % 10)]
  {
    if n < 10 {
      assert Pad2(n) == "0" + [DigitChar(n)];
    } else {
      assert NatToString(n / 10) == [DigitChar(n / 10)];
    }
  }

  // ---------------------------------------------------------------------
  // Saving and loading the analysis document

  /** `{"time_range": ..., "emotion": ...}`. */
  datatype SegmentRecord = SegmentRecord(timeRange: string, emotion: string)

  /** The saved document: the emotion segments (a document read back may
      lack them), the transcript records and the optional assistant
      analysis, whose values stay uninterpreted. */
  datatype AnalysisDoc<J> = AnalysisDoc(
    emotionSegments: Option<seq<SegmentRecord>>,
    transcriptionData: seq<J>,
    geminiAnalysis: Option<map<string, J>>)

  function ToRecords(segs: seq<Segment>): (rs: seq<SegmentRecord>)
    ensures |rs| == |segs|
  {
    seq(|segs|, i requires 0 <= i < |segs| => SegmentRecord(segs[i].timeRange, segs[i].emotion))
  }

  function FromRecords(rs: seq<SegmentRecord>): (segs: seq<Segment>)
    ensures |segs| == |rs|
  {
    seq(|rs|, i requires 0 <= i < |rs| => Segment(rs[i].timeRange, rs[i].emotion))
  }

  /** `if gemini_analysis:` — only a present, non-empty analysis is truthy. */
  predicate Truthy<J>(g: Option<map<string, J>>) {
    g.Some? && |g.value| > 0
  }

  /** The document `save_analysis_results` writes. */
  function SaveAnalysisResults<J>(segs: seq<Segment>, transcription: seq<J>, gemini: Option<map<string, J>>)
    : (doc: AnalysisDoc<J>)
    ensures doc.emotionSegments.Some?
    ensures doc.geminiAnalysis.Some? <==> Truthy(gemini)
  {
    AnalysisDoc(Some(ToRecords(segs)), transcription, if Truthy(gemini) then gemini else None)
  }

  /** What `load_analysis_results` hands back: the document with the
      records turned back into pairs. */
  datatype LoadedAnalysis<J> = LoadedAnalysis(
    emotionSegments: Option<seq<Segment>>,
    transcriptionData: seq<J>,
    geminiAnalysis: Option<map<string, J>>)

  /** `stored` is the file: `None` when it does not exist, `Err` when it
      does not read as a document. */
  function LoadAnalysisResults<J>(path: string, stored: Option<Result<AnalysisDoc<J>>>)
    : (r: Result<LoadedAnalysis<J>>)
    ensures stored.None? ==> r == Err("File not found: " + path)
    ensures stored.Some? && stored.value.Err? ==> r == Err("Error loading results: " + stored.value.error)
    ensures r.Ok? ==> r.value.transcriptionData == stored.value.value.transcriptionData
  {
    match stored
    case None => Err("File not found: " + path)
    case Some(Err(e)) => Err("Error loading results: " + e)
    case Some(Ok(doc)) =>
      var segs := match doc.emotionSegments
        case None => None
        case Some(rs) => Some(FromRecords(rs));
      Ok(LoadedAnalysis(segs, doc.transcriptionData, doc.geminiAnalysis))
  }

  lemma RecordsRoundTrip(segs: seq<Segment>)
    ensures FromRecords(ToRecords(segs)) == segs
  {
  }

  /** Saving and loading gives back the pairs and the transcript, and the
      analysis exactly when it was truthy. */
  lemma SaveLoadRoundTrip<J>(path: string, segs: seq<Segment>, transcription: seq<J>, gemini: Option<map<string, J>>)
    ensures LoadAnalysisResults(path, Some(Ok(SaveAnalysisResults(segs, transcription, gemini))))
         == Ok(LoadedAnalysis(Some(segs), transcription, if Truthy(gemini) then gemini else None))
  {
    RecordsRoundTrip(segs);
  }
}
