/** The HTTP layer's own logic: the upload extension check, the order in
    which an upload request is refused, the shape of the parts of the
    upload response that the model covers, and the chat context. Flask,
    file saving and the identifiers are not modelled. */
module Routes {
  import opened Results
  import opened Text
  import Timeline
  import Transcription
  import Visualization
  import Gemini

  // ---------------------------------------------------------------------
  // Extension check

  const AllowedExtensions: set<string> := {"mp4", "mov", "avi", "webm"}

  /** `filename.rsplit('.', 1)[1]`: the text after the last dot. */
  function Extension(filename: string): (r: Option<string>)
    ensures r.None? <==> '.' !in filename
    ensures r.Some? ==> '.' !in r.value && EndsWith(filename, "." + r.value)
  {
    match LastIndexOf(filename, '.')
    case None => None
    case Some(k) =>
      assert filename[k..] == "." + filename[k + 1..];
      Some(filename[k + 1..])
  }

  /** Position `k` holds the last dot of `s`. */
  predicate LastDotAt(s: string, k: int) {
    0 <= k < |s| && s[k] == '.' && '.' !in s[k + 1..]
  }

  /** `'.' in filename and ….lower() in ALLOWED_EXTENSIONS`: the name
      has a last dot and what follows it lower-cases to an allowed
      extension. */
  function AllowedFile(filename: string): (ok: bool)
    ensures ok <==> exists k :: LastDotAt(filename, k) && Lower(filename[k + 1..]) in AllowedExtensions
  {
    match Extension(filename)
    case None => false
    case Some(ext) =>
      var j := |filename| - |ext| - 1;
      assert filename[j..] == "." + ext;
      assert filename[j + 1..] == ext;
      assert LastDotAt(filename, j);
      assert forall k :: LastDotAt(filename, k) ==> k == j;
      Lower(ext) in AllowedExtensions
  }

  /** Only the text after the last dot decides, whatever comes before:
      `AllowedFile(base + "." + ext)` holds exactly when `ext` (free of
      dots) lower-cases to an allowed extension. */
  lemma AllowedByLastExtension(base: string, ext: string)
    requires '.' !in ext
    ensures AllowedFile(base + "." + ext) <==> Lower(ext) in AllowedExtensions
  {
    var s := base + "." + ext;
    assert s == (base + ".") + ext;
    LastIndexOfBeforeSuffix(base + ".", '.', ext);
    assert s[|base| + 1..] == ext;
  }

  /** A name without a dot is refused. */
  lemma NoDotRefused(filename: string)
    requires '.' !in filename
    ensures !AllowedFile(filename)
  {
  }

  /** Upper case passes. */
  lemma UpperCaseExtensionAllowed()
    ensures AllowedFile("a.MP4")
  {
    assert "a.MP4" == "a" + "." + "MP4";
    assert Lower("MP4") == "mp4";
    AllowedByLastExtension("a", "MP4");
  }

  /** A second extension after the video one fails. */
  lemma DoubleExtensionRefused()
    ensures !AllowedFile("a.mp4.exe")
  {
    assert "a.mp4.exe" == "a.mp4" + "." + "exe";
    assert Lower("exe") !in AllowedExtensions by {
      assert Lower("exe")[0] == 'e';
    }
    AllowedByLastExtension("a.mp4", "exe");
  }

  // ---------------------------------------------------------------------
  // Request validation

  /** The outcome of the checks before processing: a refusal with its
      message (all with status 400) or the accepted file name. */
  datatype Validation = Refused(message: string, status: int) | Accepted(filename: string)

  /** `upload_video`'s checks, in order. `filePart` is the `file` part of
      the request, `None` when there is none. */
  function ValidateUpload(filePart: Option<string>): (v: Validation)
    ensures filePart.None? ==> v == Refused("No file part", 400)
    ensures filePart == Some("") ==> v == Refused("No selected file", 400)
    ensures filePart.Some? && filePart.value != "" && !AllowedFile(filePart.value) ==> v == Refused("File type not allowed", 400)
    ensures v.Accepted? <==> filePart.Some? && AllowedFile(filePart.value)
    ensures v.Refused? ==> v.status == 400
  {
    match filePart
    case None => Refused("No file part", 400)
    case Some(name) =>
      if name == "" then Refused("No selected file", 400)
      else if !AllowedFile(name) then Refused("File type not allowed", 400)
      else Accepted(name)
  }

  /** The empty name has no dot, so it is refused by the type check as
      well: the emptiness check only chooses the message. */
  lemma EmptyNameNeverAllowed()
    ensures !AllowedFile("")
  {
  }

  // ---------------------------------------------------------------------
  // Response parts

  /** `[{'time_range': tr, 'emotion': e} for tr, e in emotion_segments]`:
      the saved-document records. */
  function SerializeSegments(segs: seq<Timeline.Segment>): (rs: seq<Timeline.SegmentRecord>)
    ensures |rs| == |segs|
    ensures forall i :: 0 <= i < |segs| ==> rs[i].timeRange == segs[i].timeRange && rs[i].emotion == segs[i].emotion
  {
    Timeline.ToRecords(segs)
  }

  /** The serialised list reads back as the same pairs in the same order. */
  lemma SerializedSegmentsRoundTrip(segs: seq<Timeline.Segment>)
    ensures Timeline.FromRecords(SerializeSegments(segs)) == segs
  {
    Timeline.RecordsRoundTrip(segs);
  }

  /** The transcript-dependent part of the response. */
  datatype TranscriptViews = TranscriptViews(
    speechClarity: Option<Visualization.ClarityData>,
    wpsData: Option<seq<Visualization.WpsPoint>>)

  function TranscriptViewsOf(data: seq<Transcription.TranscriptSegment>): (v: TranscriptViews)
    ensures v.speechClarity.None? <==> |data| == 0
    ensures v.wpsData.None? <==> |data| == 0
    ensures v.speechClarity.Some? ==> 0.0 <= v.speechClarity.value.clarityScore <= 100.0
    ensures v.wpsData.Some? ==> |v.wpsData.value| == |data|
  {
    if |data| > 0 then
      TranscriptViews(Some(Visualization.PrepareSpeechClarityData(data)), Some(Visualization.PrepareWpsData(data)))
    else TranscriptViews(None, None)
  }

  /** When present, the response's clarity score is the transcript
      metrics' clarity. */
  lemma ResponseClarityIsMetricsClarity(data: seq<Transcription.TranscriptSegment>)
    requires |data| > 0
    ensures TranscriptViewsOf(data).speechClarity.value.clarityScore == Transcription.GetSpeechMetrics(data).speechClarity
  {
    Visualization.ClarityAgreesWithMetrics(data);
  }

  // ---------------------------------------------------------------------
  // Chat context

  /** `"\n".join(f"{seg['time_range']}: {seg['emotion']}" …)` over the
      records the client sends back; a request without them has none. */
  function ChatContext(records: Option<seq<Timeline.SegmentRecord>>): (t: string)
    ensures records.None? ==> t == ""
  {
    var rs := if records.Some? then records.value else [];
    Gemini.EmotionTimelineText(Timeline.FromRecords(rs))
  }

  /** The context of a chat about an upload is the simple prompt's
      timeline of that upload, one line per segment. */
  lemma ChatContextOfUpload(segs: seq<Timeline.Segment>)
    requires |segs| > 0
    requires forall i :: 0 <= i < |segs| ==> '\n' !in segs[i].timeRange && '\n' !in segs[i].emotion
    ensures ChatContext(Some(SerializeSegments(segs))) == Gemini.EmotionTimelineText(segs)
    ensures Split(ChatContext(Some(SerializeSegments(segs))), "\n") == Gemini.ContextLines(segs)
  {
    Timeline.RecordsRoundTrip(segs);
    Gemini.EmotionTimelineLines(segs);
  }
}
