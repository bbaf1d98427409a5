/** The dashboard's insight panel: the key sentence picked from the
    coaching summary, and the speed and emotion-shift figures beside
    it. */
module Insights {
  import opened Results
  import opened Text
  import opened Numbers
  import Pace
  import Timeline
  import Transcription
  import EmotionStats

  // ---------------------------------------------------------------------
  // Key insight

  /** The two keys of the analysis dictionary the picker reads; an empty
      or missing dictionary has neither. */
  datatype AnalysisView = AnalysisView(summary: Option<string>, improvementAreas: Option<seq<string>>)

  const NoAnalysis: string := "No analysis available yet."
  const SentenceSep: string := ". "

  /** Longer than 20 and shorter than 120 characters. */
  predicate Substantive(sentence: string) {
    20 < |sentence| < 120
  }

  /** The first substantive piece, if any. */
  function FirstSubstantive(pieces: seq<string>): (r: Option<nat>)
    ensures r.Some? ==> r.value < |pieces| && Substantive(pieces[r.value])
    ensures r.Some? ==> forall j :: 0 <= j < r.value ==> !Substantive(pieces[j])
    ensures r.None? <==> forall j :: 0 <= j < |pieces| ==> !Substantive(pieces[j])
  {
    if |pieces| == 0 then None
    else if Substantive(pieces[0]) then Some(0)
    else
      match FirstSubstantive(pieces[1..])
      case None => None
      case Some(k) => Some(k + 1)
  }

  /** `summary[:100] + "..." if len(summary) > 100 else summary`. */
  function Shorten(summary: string): (r: string)
    ensures |r| <= 103
    ensures |summary| <= 100 ==> r == summary
    ensures |summary| > 100 ==> r == summary[..100] + "..."
  {
    if |summary| > 100 then summary[..100] + "..." else summary
  }

  /** `get_key_insight` on a given analysis. */
  function KeyInsight(a: AnalysisView): (r: string)
    ensures a.summary.None? ==> r == NoAnalysis
    ensures a.summary.Some? ==>
      var pieces := Split(a.summary.value, SentenceSep);
      match FirstSubstantive(pieces)
      case Some(k) => r == pieces[k] + "." && |r| <= 120
      case None =>
        if a.improvementAreas.Some? && |a.improvementAreas.value| > 0 then r == a.improvementAreas.value[0]
        else r == Shorten(a.summary.value) && |r| <= 103
  {
    match a.summary
    case None => NoAnalysis
    case Some(summary) =>
      var pieces := Split(summary, SentenceSep);
      match FirstSubstantive(pieces)
      case Some(k) => pieces[k] + "."
      case None =>
        if a.improvementAreas.Some? && |a.improvementAreas.value| > 0 then a.improvementAreas.value[0]
        else Shorten(summary)
  }

  /** The sentence branch returns a piece of the summary: rejoining the
      pieces gives the summary back, and the answer is one of them with a
      full stop. */
  lemma InsightIsSummarySentence(a: AnalysisView)
    requires a.summary.Some? && FirstSubstantive(Split(a.summary.value, SentenceSep)).Some?
    ensures var pieces := Split(a.summary.value, SentenceSep);
      && Join(pieces, SentenceSep) == a.summary.value
      && KeyInsight(a)[..|KeyInsight(a)| - 1] in pieces
      && KeyInsight(a)[|KeyInsight(a)| - 1] == '.'
  {
    var pieces := Split(a.summary.value, SentenceSep);
    JoinOfSplit(a.summary.value, SentenceSep);
    var k := FirstSubstantive(pieces).value;
    assert KeyInsight(a)[..|KeyInsight(a)| - 1] == pieces[k];
  }

  /** A summary written as sentences without full stops inside them,
      joined by `". "`, yields its first substantive sentence. */
  lemma InsightOfJoinedSentences(sentences: seq<string>, areas: Option<seq<string>>, k: nat)
    requires FirstSubstantive(sentences) == Some(k)
    requires NoFullStops(sentences)
    ensures KeyInsight(AnalysisView(Some(Join(sentences, SentenceSep)), areas)) == sentences[k] + "."
  {
    SplitSentences(sentences);
    KeyInsightOfSentence(AnalysisView(Some(Join(sentences, SentenceSep)), areas), sentences, k);
  }

  predicate NoFullStops(sentences: seq<string>) {
    forall j :: 0 <= j < |sentences| ==> '.' !in sentences[j]
  }

  lemma SplitSentences(sentences: seq<string>)
    requires |sentences| > 0 && NoFullStops(sentences)
    ensures Split(Join(sentences, SentenceSep), SentenceSep) == sentences
  {
    assert SentenceSep[0] == '.';
    SplitOfJoin(sentences, SentenceSep);
  }

  lemma KeyInsightOfSentence(a: AnalysisView, pieces: seq<string>, k: nat)
    requires a.summary.Some? && Split(a.summary.value, SentenceSep) == pieces
    requires FirstSubstantive(pieces) == Some(k)
    ensures KeyInsight(a) == pieces[k] + "."
  {
  }

  /** A short summary with no substantive sentence and no improvement
      areas comes back whole. */
  lemma ShortSummaryComesBack(summary: string)
    requires |summary| <= 20
    ensures KeyInsight(AnalysisView(Some(summary), None)) == summary
  {
    var pieces := Split(summary, SentenceSep);
    JoinOfSplit(summary, SentenceSep);
    forall j | 0 <= j < |pieces| ensures !Substantive(pieces[j]) {
      JoinHasPiece(pieces, SentenceSep, j);
    }
  }

  /** Each piece is no longer than the joined text. */
  lemma {:induction false} JoinHasPiece(xs: seq<string>, sep: string, j: nat)
    requires j < |xs|
    ensures |xs[j]| <= |Join(xs, sep)|
    decreases |xs|
  {
    if |xs| > 1 {
      JoinCons(xs[0], xs[1..], sep);
      assert xs == [xs[0]] + xs[1..];
      if j > 0 {
        JoinHasPiece(xs[1..], sep, j - 1);
      }
    }
  }

  // ---------------------------------------------------------------------
  // Compact figures

  /** The speed badge: its own thresholds, 3.0 and 1.5. */
  datatype SpeedStatus = TooFastStatus | TooSlowStatus | Good

  function StatusOf(avgWps: real): (s: SpeedStatus)
    ensures s == TooFastStatus <==> avgWps > 3.0
    ensures s == TooSlowStatus <==> avgWps < 1.5
    ensures s == Good <==> 1.5 <= avgWps <= 3.0
  {
    if avgWps > 3.0 then TooFastStatus else if avgWps < 1.5 then TooSlowStatus else Good
  }

  /** The badge is stricter than the pace bands below: an average from
      1.0 up to 1.5 is optimal for the metrics but slow for the badge,
      and that is the only disagreement. */
  lemma StatusAgainstPace(avgWps: real)
    ensures (StatusOf(avgWps) == TooFastStatus) == (Pace.BandOf(avgWps) == Pace.TooFast)
    ensures (StatusOf(avgWps) == TooSlowStatus && Pace.BandOf(avgWps) == Pace.Optimal) <==> 1.0 <= avgWps < 1.5
    ensures Pace.BandOf(avgWps) == Pace.TooSlow ==> StatusOf(avgWps) == TooSlowStatus
  {
  }

  /** The shift count `len([i for i in range(1, n) if …])` is the
      transitions count of the emotion statistics. */
  lemma {:induction false} ShiftsAreTransitions(xs: seq<string>)
    ensures |EmotionStats.ShiftPositions(xs)| == EmotionStats.Transitions(xs)
    decreases |xs|
  {
    if |xs| > 1 {
      ShiftsAreTransitions(xs[..|xs| - 1]);
      assert xs[..|xs| - 1][|xs| - 2] == xs[|xs| - 2];
    }
  }

  /** The middle figure: the average speed with its badge when there is
      transcription data, otherwise the number of emotion shifts. */
  datatype SpeedFigure = AvgSpeed(avgWps: real, status: SpeedStatus) | EmotionShifts(count: nat)

  function SpeedFigureOf(segs: seq<Timeline.Segment>, data: seq<Transcription.TranscriptSegment>): (f: SpeedFigure)
    ensures f.AvgSpeed? <==> |data| > 0
    ensures f.AvgSpeed? ==> f.status == StatusOf(f.avgWps)
    ensures f.AvgSpeed? ==> MinOf(Transcription.WpsValues(data)) <= f.avgWps <= MaxOf(Transcription.WpsValues(data))
    ensures f.EmotionShifts? ==> f.count == |EmotionStats.ShiftPositions(EmotionStats.Labels(segs))|
  {
    if |data| > 0 then
      var ws := Transcription.WpsValues(data);
      MeanBetweenMinAndMax(ws);
      AvgSpeed(Mean(ws), StatusOf(Mean(ws)))
    else EmotionShifts(|EmotionStats.ShiftPositions(EmotionStats.Labels(segs))|)
  }

  /** The badge reads the same average as the transcript metrics. */
  lemma SpeedFigureAgreesWithMetrics(segs: seq<Timeline.Segment>, data: seq<Transcription.TranscriptSegment>)
    requires |data| > 0
    ensures SpeedFigureOf(segs, data).avgWps == Transcription.GetSpeechMetrics(data).avgWps
  {
  }

  /** The right-hand figure: the number of strengths when the analysis
      lists some, otherwise the number of distinct emotions. */
  datatype RangeFigure = Strengths(count: nat) | EmotionRange(count: nat)

  function RangeFigureOf(segs: seq<Timeline.Segment>, strengths: Option<seq<string>>): (f: RangeFigure)
    ensures f.Strengths? <==> strengths.Some? && |strengths.value| > 0
    ensures f.Strengths? ==> f.count == |strengths.value|
    ensures f.EmotionRange? ==> f.count == |EmotionStats.Distinct(EmotionStats.Labels(segs))| <= |segs|
    ensures f.EmotionRange? && |segs| > 0 ==> f.count >= 1
  {
    if strengths.Some? && |strengths.value| > 0 then Strengths(|strengths.value|)
    else
      var xs := EmotionStats.Labels(segs);
      assert |segs| > 0 ==> xs[0] in EmotionStats.Distinct(xs);
      EmotionRange(|EmotionStats.Distinct(xs)|)
  }
}
