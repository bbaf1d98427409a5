/** The coaching service around the language model: the statistics the
    detailed prompt reports, the choice between the detailed and the
    simple prompt, and the chain that turns the model's reply into an
    analysis. The model call and the JSON parser are parameters; the
    prompt prose carries no behaviour and is not modelled. */
module Gemini {
  import opened Results
  import opened Text
  import opened Numbers
  import Timestamp
  import Pace
  import Timeline
  import Transcription
  import EmotionStats

  // ---------------------------------------------------------------------
  // Prompt statistics

  /** A segment the prompt lists under "Specific segments to improve". */
  datatype SpeedIssue = SpeedIssue(startTime: string, endTime: string, band: Pace.Band, wps: real)

  /** `if wps > 3.0: … too fast … elif wps < 1.0: … too slow …`. */
  function IssueOf(s: Transcription.TranscriptSegment): (r: Option<SpeedIssue>)
    ensures r.None? <==> 1.0 <= s.wps <= 3.0
    ensures r.Some? ==> r.value.band != Pace.Optimal
  {
    var b := Pace.BandOf(s.wps);
    if b == Pace.Optimal then None
    else Some(SpeedIssue(Timestamp.FormatTimestamp(s.start), Timestamp.FormatTimestamp(s.end), b, s.wps))
  }

  /** Segment `i` raises an issue: its rate is outside `[1.0, 3.0]`. */
  predicate OffPaceAt(data: seq<Transcription.TranscriptSegment>, i: int) {
    0 <= i < |data| && !(1.0 <= data[i].wps <= 3.0)
  }

  /** The positions of the segments that raise an issue, ascending. */
  function OffPacePositions(data: seq<Transcription.TranscriptSegment>): (ps: seq<nat>)
    ensures forall i: nat :: i in ps <==> OffPaceAt(data, i)
    ensures forall a, b :: 0 <= a < b < |ps| ==> ps[a] < ps[b]
    ensures forall a :: 0 <= a < |ps| ==> ps[a] < |data|
  {
    if |data| == 0 then []
    else
      var n := |data| - 1;
      var ps := OffPacePositions(data[..n]);
      forall i | 0 <= i ensures OffPaceAt(data[..n], i) <==> i < n && OffPaceAt(data, i) {
        if i < n {
          assert data[..n][i] == data[i];
        }
      }
      if !(1.0 <= data[n].wps <= 3.0) then ps + [n] else ps
  }

  /** The issues in segment order, at most one per segment. */
  function SpeedIssues(data: seq<Transcription.TranscriptSegment>): (r: seq<SpeedIssue>)
    ensures |r| == |OffPacePositions(data)| <= |data|
    ensures forall k :: 0 <= k < |r| ==> Some(r[k]) == IssueOf(data[OffPacePositions(data)[k]])
  {
    var ps := OffPacePositions(data);
    PositionsFit(ps, |data|);
    assert forall k :: 0 <= k < |ps| ==> ps[k] in ps;
    seq(|ps|, k requires 0 <= k < |ps| => IssueOf(data[ps[k]]).value)
  }

  /** An ascending list of positions below `n` has at most `n` entries. */
  lemma {:induction false} PositionsFit(ps: seq<nat>, n: nat)
    requires forall a, b :: 0 <= a < b < |ps| ==> ps[a] < ps[b]
    requires forall a :: 0 <= a < |ps| ==> ps[a] < n
    ensures |ps| <= n
    decreases |ps|
  {
    if |ps| > 0 {
      var init := ps[..|ps| - 1];
      assert forall a :: 0 <= a < |init| ==> init[a] < ps[|ps| - 1];
      PositionsFit(init, ps[|ps| - 1]);
    }
  }

  function Emotions(data: seq<Transcription.TranscriptSegment>): (es: seq<string>)
    ensures |es| == |data| && forall i :: 0 <= i < |data| ==> es[i] == data[i].emotion
  {
    seq(|data|, i requires 0 <= i < |data| => data[i].emotion)
  }

  datatype PromptStats = PromptStats(issues: seq<SpeedIssue>, avgWps: real, variation: real, transitions: nat)

  /** The numbers `generate_speech_analysis_prompt` writes into the
      prompt. */
  function PromptStatsOf(data: seq<Transcription.TranscriptSegment>): (st: PromptStats)
    ensures |data| == 0 ==> st == PromptStats([], 0.0, 0.0, 0)
    ensures st.issues == SpeedIssues(data)
    ensures |data| > 0 ==> MinOf(Transcription.WpsValues(data)) <= st.avgWps <= MaxOf(Transcription.WpsValues(data))
    ensures |data| > 0 ==> st.variation >= 0.0 && st.transitions <= |data| - 1
    ensures |data| > 0 ==> forall i, j :: 0 <= i < |data| && 0 <= j < |data| ==> data[i].wps - data[j].wps <= st.variation
    ensures |data| > 0 ==> exists i, j :: 0 <= i < |data| && 0 <= j < |data| && data[i].wps - data[j].wps == st.variation
  {
    if |data| == 0 then PromptStats([], 0.0, 0.0, 0)
    else
      var ws := Transcription.WpsValues(data);
      MeanBetweenMinAndMax(ws);
      PromptStats(SpeedIssues(data), Mean(ws), Spread(ws), EmotionStats.Transitions(Emotions(data)))
  }

  /** The prompt repeats the transcript metrics: the same average and
      spread, and its issues are exactly the metrics' fast and slow
      segments, each tagged with its band. */
  lemma PromptAgreesWithMetrics(data: seq<Transcription.TranscriptSegment>)
    ensures var st, m := PromptStatsOf(data), Transcription.GetSpeechMetrics(data);
      && st.avgWps == m.avgWps && st.variation == m.wpsVariation
      && (forall i: nat :: i in OffPacePositions(data) <==> i in m.fastSegments || i in m.slowSegments)
      && (forall i: nat :: i in m.fastSegments <==> i in OffPacePositions(data) && IssueOf(data[i]).value.band == Pace.TooFast)
  {
  }

  /** The transitions the prompt reports are those of the emotion
      statistics; none exactly when every segment has the first
      segment's emotion. */
  lemma PromptTransitions(data: seq<Transcription.TranscriptSegment>)
    ensures PromptStatsOf(data).transitions == EmotionStats.Transitions(Emotions(data))
    ensures PromptStatsOf(data).transitions == 0 <==> forall i :: 0 <= i < |data| ==> data[i].emotion == data[0].emotion
  {
    EmotionStats.NoTransitionsIffConstant(Emotions(data));
  }

  // ---------------------------------------------------------------------
  // Prompt choice

  /** `f"{time_range}: {emotion}"`, the line used by the simple prompt
      and the chat context. */
  function ContextLine(seg: Timeline.Segment): string {
    seg.timeRange + ": " + seg.emotion
  }

  function ContextLines(segs: seq<Timeline.Segment>): (ls: seq<string>)
    ensures |ls| == |segs| && forall i :: 0 <= i < |segs| ==> ls[i] == ContextLine(segs[i])
  {
    seq(|segs|, i requires 0 <= i < |segs| => ContextLine(segs[i]))
  }

  /** The lines joined by newlines. */
  function EmotionTimelineText(segs: seq<Timeline.Segment>): string {
    Join(ContextLines(segs), "\n")
  }

  /** Splitting the text at newlines gives back one line per segment. */
  lemma EmotionTimelineLines(segs: seq<Timeline.Segment>)
    requires |segs| > 0
    requires forall i :: 0 <= i < |segs| ==> '\n' !in segs[i].timeRange && '\n' !in segs[i].emotion
    ensures Split(EmotionTimelineText(segs), "\n") == ContextLines(segs)
  {
    var ls := ContextLines(segs);
    forall i | 0 <= i < |ls| ensures "\n"[0] !in ls[i] {
      assert ls[i] == segs[i].timeRange + (": " + segs[i].emotion);
    }
    SplitOfJoin(ls, "\n");
  }

  datatype Prompt = Detailed(stats: PromptStats) | Simple(timeline: string)

  /** The detailed prompt when there is transcription data, otherwise
      the emotion timeline. */
  function ChoosePrompt(segs: seq<Timeline.Segment>, data: seq<Transcription.TranscriptSegment>): (p: Prompt)
    ensures p.Detailed? <==> |data| > 0
    ensures p.Detailed? ==> p.stats == PromptStatsOf(data)
    ensures p.Simple? ==> p.timeline == EmotionTimelineText(segs)
  {
    if |data| > 0 then Detailed(PromptStatsOf(data)) else Simple(EmotionTimelineText(segs))
  }

  // ---------------------------------------------------------------------
  // Reading the reply

  const OpenFence: string := "```json\n"
  const CloseFence: string := "\n```"

  /** `re.search(r'```json\n(.*?)\n```', text, re.DOTALL).group(1)`: the
      leftmost opening fence and the nearest closing fence after it. (If
      the first opening fence has no closing fence after it, no later one
      has either, so looking at the first one suffices.) */
  function FencedBody(text: string): (r: Option<string>)
    ensures r.Some? ==> exists a, b :: 0 <= a <= b <= |text| && r.value == text[a..b]
    ensures r.Some? ==> exists k, c :: OccursAt(text, OpenFence, k)
                                       && (forall j :: 0 <= j < k ==> !OccursAt(text, OpenFence, j))
                                       && k + |OpenFence| <= c && OccursAt(text, CloseFence, c)
                                       && (forall j :: k + |OpenFence| <= j < c ==> !OccursAt(text, CloseFence, j))
                                       && r.value == text[k + |OpenFence|..c]
    ensures r.None? ==> forall k, c :: OccursAt(text, OpenFence, k) && k + |OpenFence| <= c ==> !OccursAt(text, CloseFence, c)
  {
    match Find(text, OpenFence)
    case None => None
    case Some(k) =>
      match FindFrom(text, CloseFence, k + |OpenFence|)
      case None => None
      case Some(c) => Some(text[k + |OpenFence|..c])
  }

  /** A `{` at `i` before a `}` at `j`. */
  predicate BracePair(text: string, i: int, j: int) {
    0 <= i < j < |text| && text[i] == '{' && text[j] == '}'
  }

  /** `re.search(r'\{.*\}', text, re.DOTALL).group(0)`: a match exists
      exactly when some `{` comes before some `}`, and then it runs from
      the first `{` to the last `}`. */
  function BraceSpan(text: string): (r: Option<string>)
    ensures r.None? <==> !exists i, j :: BracePair(text, i, j)
    ensures r.Some? ==> exists i, j :: BracePair(text, i, j) && '{' !in text[..i] && '}' !in text[j + 1..]
                                      && r.value == text[i..j + 1]
  {
    match Find(text, "{")
    case None =>
      forall i | 0 <= i < |text| ensures text[i] != '{' {
        assert !OccursAt(text, "{", i);
        assert i + 1 <= |text| ==> text[i..i + 1] == [text[i]];
      }
      None
    case Some(i) =>
      assert text[i..i + 1] == "{";
      forall k | 0 <= k < i ensures text[k] != '{' {
        assert !OccursAt(text, "{", k);
        assert text[k..k + 1] == [text[k]];
      }
      assert '{' !in text[..i];
      match LastIndexOf(text, '}')
      case None => None
      case Some(j) =>
        forall k | j < k < |text| ensures text[k] != '}' {
          assert text[k] == text[j + 1..][k - j - 1];
        }
        if j > i then
          assert BracePair(text, i, j);
          Some(text[i..j + 1])
        else
          None
  }

  /** The text handed to the second parse, before cleanup: the fenced
      body, else the brace span, else the whole reply. */
  function Candidate(text: string): (c: string)
    ensures exists a, b :: 0 <= a <= b <= |text| && c == text[a..b]
    ensures FencedBody(text).None? && BraceSpan(text).None? ==> c == text
  {
    match FencedBody(text)
    case Some(body) => body
    case None =>
      match BraceSpan(text)
      case Some(span) => span
      case None => assert text == text[0..|text|]; text
  }

  /** `.replace('```json', '').replace('```', '').strip()`: no code
      fence survives, and the result neither starts nor ends with
      white space. */
  function Cleanup(s: string): (r: string)
    ensures !Contains(r, "```")
    ensures |r| == 0 || (!IsSpace(r[0]) && !IsSpace(r[|r| - 1]))
  {
    var u := RemoveAll(RemoveAll(s, "```json"), "```");
    RemoveAllUniformLeavesNone(RemoveAll(s, "```json"), "```");
    StripIsInfix(u);
    var a, b :| 0 <= a <= b <= |u| && Strip(u) == u[a..b];
    InfixHasNoOccurrence(u, a, b, "```");
    Strip(u)
  }

  /** A piece of a text without an occurrence has none either. */
  lemma InfixHasNoOccurrence(u: string, a: nat, b: nat, pat: string)
    requires a <= b <= |u| && !Contains(u, pat)
    ensures !Contains(u[a..b], pat)
  {
    forall k | 0 <= k <= b - a && OccursAt(u[a..b], pat, k) ensures OccursAt(u, pat, a + k) {
      forall t | 0 <= t < |pat| ensures u[a + k + t] == pat[t] {
        assert u[a..b][k..k + |pat|][t] == pat[t];
      }
      assert u[a + k..a + k + |pat|] == pat;
    }
  }

  /** The reply as the application keeps it. */
  datatype Analysis = Analysis(summary: string, improvementAreas: seq<string>, strengths: seq<string>, coachingTips: seq<string>)

  /** A reply is either whatever the parser produced, returned unchanged,
      or one of the service's own four-key records. */
  datatype Outcome<J> = Parsed(doc: J) | Structured(analysis: Analysis)

  const Unavailable: Analysis :=
    Analysis("Gemini analysis not available. Please check your API key configuration.", [], [], [])

  const SeeSummary: string := "Please see summary for details"

  /** The record built when neither parse succeeds: the raw reply as the
      summary. */
  function Manual(text: string): Analysis {
    Analysis(text, [SeeSummary], [SeeSummary], [SeeSummary])
  }

  /** The record built when the model call raises. */
  function Failure(message: string): Analysis {
    Analysis("Error during Gemini analysis: " + message,
             ["Unable to analyze with Gemini at this time"], [],
             ["Try again later or check your API configuration"])
  }

  /** `analyze_speech`. `generate` is the model call (an `Err` carries
      the exception text) and `parse` is `json.loads` (`None` for a
      `JSONDecodeError`). */
  function AnalyzeSpeech<J>(modelLoaded: bool, segs: seq<Timeline.Segment>, data: seq<Transcription.TranscriptSegment>,
                            generate: Prompt -> Result<string>, parse: string -> Option<J>): (r: Outcome<J>)
    ensures !modelLoaded ==> r == Structured(Unavailable)
    ensures modelLoaded && generate(ChoosePrompt(segs, data)).Err? ==>
      r == Structured(Failure(generate(ChoosePrompt(segs, data)).error))
    ensures modelLoaded && generate(ChoosePrompt(segs, data)).Ok? ==>
      var text := generate(ChoosePrompt(segs, data)).value;
      && (r.Parsed? <==> parse(text).Some? || parse(Cleanup(Candidate(text))).Some?)
      && (parse(text).Some? ==> r == Parsed(parse(text).value))
      && (parse(text).None? && parse(Cleanup(Candidate(text))).Some? ==>
            r == Parsed(parse(Cleanup(Candidate(text))).value))
      && (r.Structured? ==> r.analysis == Manual(text))
  {
    if !modelLoaded then Structured(Unavailable)
    else
      match generate(ChoosePrompt(segs, data))
      case Err(e) => Structured(Failure(e))
      case Ok(text) =>
        match parse(text)
        case Some(doc) => Parsed(doc)
        case None =>
          match parse(Cleanup(Candidate(text)))
          case Some(doc) => Parsed(doc)
          case None => Structured(Manual(text))
  }

  /** Every structured record has the four keys; only the manual record
      fills all three lists, and only the no-model record leaves all
      three empty. */
  lemma StructuredRecordsHaveSummary<J>(modelLoaded: bool, segs: seq<Timeline.Segment>, data: seq<Transcription.TranscriptSegment>,
                                        generate: Prompt -> Result<string>, parse: string -> Option<J>)
    ensures var r := AnalyzeSpeech(modelLoaded, segs, data, generate, parse);
      r.Structured? ==>
        && (|r.analysis.improvementAreas| == 0 <==> !modelLoaded)
        && (|r.analysis.strengths| > 0 <==> modelLoaded && generate(ChoosePrompt(segs, data)).Ok?)
  {
  }

  // The fenced block is found.

  /** `FindFrom` lands on an occurrence with none before it. */
  lemma FindFromFirst(s: string, pat: string, from: nat, p: nat)
    requires from <= p && OccursAt(s, pat, p)
    requires forall j :: from <= j < p ==> !OccursAt(s, pat, j)
    ensures FindFrom(s, pat, from) == Some(p)
  {
  }

  /** A body without backquotes cannot hide a closing fence. */
  lemma NoCloseInsideBody(pre: string, body: string, post: string, j: nat)
    requires '`' !in body
    requires |pre| <= j < |pre| + |body|
    ensures !OccursAt(pre + body + CloseFence + post, CloseFence, j)
  {
    var s := pre + body + CloseFence + post;
    if j + 1 < |pre| + |body| {
      assert s[j + 1] == body[j + 1 - |pre|];
    } else {
      assert s[j + 1] == CloseFence[0];
    }
  }

  /** A reply holding one fenced JSON block, with no backquote before
      it, yields the block's contents as the candidate. */
  lemma FencedCandidate(pre: string, body: string, post: string)
    requires '`' !in pre && '`' !in body
    ensures Candidate(pre + OpenFence + body + CloseFence + post) == body
  {
    FencedBodyOf(pre, body, post);
  }

  lemma FencedBodyOf(pre: string, body: string, post: string)
    requires '`' !in pre && '`' !in body
    ensures FencedBody(pre + OpenFence + body + CloseFence + post) == Some(body)
  {
    var a := pre + OpenFence;
    var s := a + body + CloseFence + post;
    FirstOpenFence(pre, body, post);
    FirstCloseFence(a, body, post);
    MiddleSlice(a, body, CloseFence, post);
    FencedBodyAt(s, |pre|, |a| + |body|);
  }

  /** With no backquote before it, the first opening fence is the one
      right after `pre`, whatever follows. */
  lemma FirstOpenFence(pre: string, body: string, post: string)
    requires '`' !in pre
    ensures Find(pre + OpenFence + body + CloseFence + post, OpenFence) == Some(|pre|)
  {
    var a := pre + OpenFence;
    assert a + "" == a;
    FindAfterPrefix(pre, OpenFence, "");
    FindExtend(a, body, OpenFence);
    FindExtend(a + body, CloseFence, OpenFence);
    FindExtend(a + body + CloseFence, post, OpenFence);
  }

  lemma FencedBodyAt(s: string, k: nat, c: nat)
    requires Find(s, OpenFence) == Some(k)
    requires FindFrom(s, CloseFence, k + |OpenFence|) == Some(c)
    ensures FencedBody(s) == Some(s[k + |OpenFence|..c])
  {
  }

  lemma MiddleSlice(a: string, b: string, c: string, d: string)
    ensures (a + b + c + d)[|a|..|a| + |b|] == b
  {
    var s := a + b + c + d;
    forall i | 0 <= i < |b| ensures s[|a| + i] == b[i] {
    }
  }

  /** The first closing fence at or after the start of a body without
      backquotes is the one right after it. */
  lemma FirstCloseFence(a: string, body: string, post: string)
    requires '`' !in body
    ensures FindFrom(a + body + CloseFence + post, CloseFence, |a|) == Some(|a| + |body|)
  {
    var s := a + body + CloseFence + post;
    var p := |a| + |body|;
    assert s[p..p + |CloseFence|] == CloseFence;
    forall j | |a| <= j < p ensures !OccursAt(s, CloseFence, j) {
      NoCloseInsideBody(a, body, post, j);
    }
    FindFromFirst(s, CloseFence, |a|, p);
  }

  /** A fenced body without backquotes and without surrounding
      whitespace survives cleanup unchanged. */
  lemma CleanupKeepsCleanBody(body: string)
    requires '`' !in body && Strip(body) == body
    ensures Cleanup(body) == body
  {
    FindAbsent(body, "```json");
    FindAbsent(body, "```");
  }

  /** End to end: when the direct parse fails on a reply that wraps a
      clean JSON body in a fenced block, the body is what gets parsed,
      and the raw reply becomes the summary if that parse fails too. */
  lemma FencedReplyParsesBody<J>(segs: seq<Timeline.Segment>, data: seq<Transcription.TranscriptSegment>,
                                 generate: Prompt -> Result<string>, parse: string -> Option<J>,
                                 pre: string, body: string, post: string)
    requires '`' !in pre && '`' !in body && Strip(body) == body
    requires generate(ChoosePrompt(segs, data)) == Ok(pre + OpenFence + body + CloseFence + post)
    requires parse(pre + OpenFence + body + CloseFence + post).None?
    ensures AnalyzeSpeech(true, segs, data, generate, parse) ==
      match parse(body)
      case Some(doc) => Parsed(doc)
      case None => Structured(Manual(pre + OpenFence + body + CloseFence + post))
  {
    FencedCandidate(pre, body, post);
    CleanupKeepsCleanBody(body);
  }

  /** Without a fence, the candidate runs from the first `{` to the last
      `}`. */
  lemma BraceCandidate(s: string, i: nat, j: nat)
    requires !Contains(s, OpenFence)
    requires i < j < |s| && s[i] == '{' && '{' !in s[..i]
    requires s[j] == '}' && '}' !in s[j + 1..]
    ensures Candidate(s) == s[i..j + 1]
  {
    FindCharAt(s, '{', i);
    LastIndexOfAt(s, '}', j);
  }
}
