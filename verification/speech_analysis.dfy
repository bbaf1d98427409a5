/** The emotion pass over the split folder: which files are classified,
    in which order the results are keyed, and what a failed
    classification gives. The classifier is a parameter (`Err` for a
    model that raises); the folder is its listing of names, `None` when
    the folder does not exist. Results are the dictionary's items in
    insertion order. */
module SpeechAnalysis {
  import opened Results
  import opened Text
  import opened Sorting

  // ---------------------------------------------------------------------
  // File names in Python's order

  /** Python's `<=` on strings: code point by code point, a proper prefix
      first. `sorted` on the glob's paths compares the names this way,
      since they share a folder. */
  predicate LexLe(a: string, b: string)
    decreases |a|
  {
    |a| == 0 || (|b| > 0 && (a[0] < b[0] || (a[0] == b[0] && LexLe(a[1..], b[1..]))))
  }

  lemma {:induction false} LexTotal(a: string, b: string)
    ensures LexLe(a, b) || LexLe(b, a)
    decreases |a|
  {
    if |a| > 0 && |b| > 0 && a[0] == b[0] {
      LexTotal(a[1..], b[1..]);
    }
  }

  lemma {:induction false} LexTransitive(a: string, b: string, c: string)
    requires LexLe(a, b) && LexLe(b, c)
    ensures LexLe(a, c)
    decreases |a|
  {
    if |a| > 0 && a[0] == b[0] && b[0] == c[0] {
      LexTransitive(a[1..], b[1..], c[1..]);
    }
  }

  lemma {:induction false} LexAntisymmetric(a: string, b: string)
    requires LexLe(a, b) && LexLe(b, a)
    ensures a == b
    decreases |a|
  {
    if |a| > 0 {
      LexAntisymmetric(a[1..], b[1..]);
      assert a == [a[0]] + a[1..] && b == [b[0]] + b[1..];
    }
  }

  lemma LexIsTotalPreorder()
    ensures TotalPreorder(LexLe)
  {
    forall a, b ensures LexLe(a, b) || LexLe(b, a) {
      LexTotal(a, b);
    }
    forall a, b, c | LexLe(a, b) && LexLe(b, c) ensures LexLe(a, c) {
      LexTransitive(a, b, c);
    }
  }

  /** A shared prefix does not change the comparison. */
  lemma {:induction false} LexCommonPrefix(p: string, a: string, b: string)
    ensures LexLe(p + a, p + b) <==> LexLe(a, b)
    decreases |p|
  {
    if |p| > 0 {
      assert (p + a)[1..] == p[1..] + a && (p + b)[1..] == p[1..] + b;
      LexCommonPrefix(p[1..], a, b);
    } else {
      assert p + a == a && p + b == b;
    }
  }

  // ---------------------------------------------------------------------
  // Selecting the files

  /** The newer service globs `segment_*.wav`; the older one `*.wav`. */
  datatype Pattern = SegmentWavs | AllWavs

  const SegmentPrefix: string := "segment_"
  const WavSuffix: string := ".wav"

  /** Glob matching of a name (case-sensitive, as on POSIX). */
  predicate Matches(pattern: Pattern, name: string) {
    match pattern
    case SegmentWavs => |name| >= 12 && name[..8] == SegmentPrefix && EndsWith(name, WavSuffix)
    case AllWavs => EndsWith(name, WavSuffix)
  }

  /** The matching regular files, in listing order. */
  function Select(listing: seq<string>, isFile: string -> bool, pattern: Pattern): (r: seq<string>)
    ensures forall x :: x in r <==> x in listing && isFile(x) && Matches(pattern, x)
    ensures |r| <= |listing|
  {
    if |listing| == 0 then []
    else
      var n := |listing| - 1;
      var r := Select(listing[..n], isFile, pattern);
      assert listing == listing[..n] + [listing[n]];
      if isFile(listing[n]) && Matches(pattern, listing[n]) then r + [listing[n]] else r
  }

  /** Selection keeps each chosen name as often as the listing has it. */
  lemma {:induction false} SelectCount(listing: seq<string>, isFile: string -> bool, pattern: Pattern, v: string)
    ensures multiset(Select(listing, isFile, pattern))[v]
         == if isFile(v) && Matches(pattern, v) then multiset(listing)[v] else 0
    decreases |listing|
  {
    if |listing| > 0 {
      var n := |listing| - 1;
      SelectCount(listing[..n], isFile, pattern, v);
      assert listing == listing[..n] + [listing[n]];
    }
  }

  /** Two listings of the same folder, in any order, select the same
      names. */
  lemma SelectPermutation(a: seq<string>, b: seq<string>, isFile: string -> bool, pattern: Pattern)
    requires multiset(a) == multiset(b)
    ensures multiset(Select(a, isFile, pattern)) == multiset(Select(b, isFile, pattern))
  {
    forall v ensures multiset(Select(a, isFile, pattern))[v] == multiset(Select(b, isFile, pattern))[v] {
      SelectCount(a, isFile, pattern, v);
      SelectCount(b, isFile, pattern, v);
    }
  }

  function Names(items: seq<(string, string)>): (ns: seq<string>)
    ensures |ns| == |items| && forall i :: 0 <= i < |items| ==> ns[i] == items[i].0
  {
    seq(|items|, i requires 0 <= i < |items| => items[i].0)
  }

  // ---------------------------------------------------------------------
  // The newer service

  const Neutral: string := "neutral"

  /** `analyze_speech`: the classifier's label, or `"neutral"` when the
      model is not loaded or inference raises. */
  function LabelOf(modelLoaded: bool, classify: string -> Result<string>, name: string): (l: string)
    ensures !modelLoaded || classify(name).Err? ==> l == Neutral
    ensures modelLoaded && classify(name).Ok? ==> l == classify(name).value
  {
    if modelLoaded && classify(name).Ok? then classify(name).value else Neutral
  }

  /** Each name with its label, never failing. */
  function LabelAll(names: seq<string>, modelLoaded: bool, classify: string -> Result<string>): (r: seq<(string, string)>)
    ensures Names(r) == names
    ensures forall i :: 0 <= i < |r| ==> r[i].1 == LabelOf(modelLoaded, classify, names[i])
  {
    seq(|names|, i requires 0 <= i < |names| => (names[i], LabelOf(modelLoaded, classify, names[i])))
  }

  /** `analyze_segments` of the newer service. */
  function AnalyzeSegments(folder: Option<seq<string>>, isFile: string -> bool, modelLoaded: bool,
                           classify: string -> Result<string>): (r: Result<seq<(string, string)>>)
    ensures r.Err? <==> folder.None?
    ensures r.Err? ==> r.error == "FileNotFoundError"
    ensures r.Ok? ==> Names(r.value) == Sort(Select(folder.value, isFile, SegmentWavs), LexLe)
    ensures r.Ok? ==> forall i :: 0 <= i < |r.value| ==> r.value[i].1 == LabelOf(modelLoaded, classify, r.value[i].0)
  {
    match folder
    case None => Err("FileNotFoundError")
    case Some(listing) => Ok(LabelAll(SortedSelection(listing, isFile, SegmentWavs), modelLoaded, classify))
  }

  /** The keys are exactly the segment files, in ascending name order; the
      full-length track is never among them, and no segment files give
      an empty result. */
  lemma AnalysisKeys(listing: seq<string>, isFile: string -> bool, modelLoaded: bool, classify: string -> Result<string>)
    ensures var r := AnalyzeSegments(Some(listing), isFile, modelLoaded, classify);
      && r.Ok? && Sorted(Names(r.value), LexLe)
      && (forall x :: x in Names(r.value) <==> x in listing && isFile(x) && Matches(SegmentWavs, x))
      && "full_audio.wav" !in Names(r.value)
      && (|r.value| == 0 <==> |Select(listing, isFile, SegmentWavs)| == 0)
  {
    var sel := Select(listing, isFile, SegmentWavs);
    var r := AnalyzeSegments(Some(listing), isFile, modelLoaded, classify);
    assert Names(r.value) == Sort(sel, LexLe);
    assert Sorted(Sort(sel, LexLe), LexLe) by {
      LexIsTotalPreorder();
      SortSorted(sel, LexLe);
    }
    assert forall x :: x in Sort(sel, LexLe) <==> x in sel by {
      SameElements(sel, LexLe);
    }
    assert !Matches(SegmentWavs, "full_audio.wav") by {
      assert "full_audio.wav"[0] != SegmentPrefix[0];
    }
  }

  /** Sorting keeps the members. */
  lemma SameElements(xs: seq<string>, le: (string, string) -> bool)
    ensures forall x :: x in Sort(xs, le) <==> x in xs
  {
    forall x ensures x in Sort(xs, le) <==> x in xs {
      assert x in Sort(xs, le) <==> x in multiset(Sort(xs, le));
    }
  }

  // ---------------------------------------------------------------------
  // The older service

  /** The first name, in order, whose classification raises. */
  function FirstFailure(names: seq<string>, classify: string -> Result<string>): (r: Option<nat>)
    ensures r.Some? ==> r.value < |names| && classify(names[r.value]).Err?
    ensures r.Some? ==> forall j :: 0 <= j < r.value ==> classify(names[j]).Ok?
    ensures r.None? <==> forall j :: 0 <= j < |names| ==> classify(names[j]).Ok?
  {
    if |names| == 0 then None
    else if classify(names[0]).Err? then Some(0)
    else
      match FirstFailure(names[1..], classify)
      case None => None
      case Some(k) => Some(k + 1)
  }

  /** Classifies each name in turn, stopping at the first error. */
  function ClassifyAll(names: seq<string>, classify: string -> Result<string>): (r: Result<seq<(string, string)>>)
    ensures r.Ok? <==> forall j :: 0 <= j < |names| ==> classify(names[j]).Ok?
    ensures r.Ok? ==> Names(r.value) == names
    ensures r.Ok? ==> forall i :: 0 <= i < |names| ==> r.value[i].1 == classify(names[i]).value
    ensures r.Err? ==> exists k :: 0 <= k < |names| && classify(names[k]).Err? && r.error == classify(names[k]).error
                                 && forall j :: 0 <= j < k ==> classify(names[j]).Ok?
  {
    match FirstFailure(names, classify)
    case Some(k) => Err(classify(names[k]).error)
    case None => Ok(seq(|names|, i requires 0 <= i < |names| => (names[i], classify(names[i]).value)))
  }

  /** The selected names in `sorted` order. */
  function SortedSelection(listing: seq<string>, isFile: string -> bool, pattern: Pattern): seq<string> {
    Sort(Select(listing, isFile, pattern), LexLe)
  }

  /** `analyze_segments` of the older service: every `.wav` file, and no
      fallback label, so the first classifier error ends the pass. */
  function AnalyzeSegmentsLegacy(folder: Option<seq<string>>, isFile: string -> bool,
                                 classify: string -> Result<string>): (r: Result<seq<(string, string)>>)
    ensures folder.None? ==> r == Err("FileNotFoundError")
    ensures folder.Some? ==> r == ClassifyAll(SortedSelection(folder.value, isFile, AllWavs), classify)
  {
    match folder
    case None => Err("FileNotFoundError")
    case Some(listing) => ClassifyAll(SortedSelection(listing, isFile, AllWavs), classify)
  }

  /** The older pattern also takes the full-length track, which the newer
      one leaves out; on segment files the two agree. */
  lemma PatternsDiffer(name: string)
    ensures Matches(SegmentWavs, name) ==> Matches(AllWavs, name)
    ensures Matches(AllWavs, "full_audio.wav") && !Matches(SegmentWavs, "full_audio.wav")
  {
    assert "full_audio.wav"[0] != SegmentPrefix[0];
    assert "full_audio.wav"[14 - 4..] == WavSuffix;
  }

  /** When every segment file classifies, the older pass over a folder of
      segment files only gives the newer pass's result with a loaded
      model. */
  lemma TwinsAgreeOnSegmentFolders(listing: seq<string>, isFile: string -> bool, classify: string -> Result<string>)
    requires forall x :: x in listing && isFile(x) ==> Matches(SegmentWavs, x) && classify(x).Ok?
    ensures AnalyzeSegmentsLegacy(Some(listing), isFile, classify) == AnalyzeSegments(Some(listing), isFile, true, classify)
  {
    SelectSamePattern(listing, isFile);
    var names := SortedSelection(listing, isFile, AllWavs);
    forall j | 0 <= j < |names| ensures classify(names[j]).Ok? {
      assert names[j] in multiset(names);
    }
    ClassifyAllSucceeds(names, classify);
  }

  /** A pass where nothing raises gives every name its classifier label. */
  lemma ClassifyAllSucceeds(names: seq<string>, classify: string -> Result<string>)
    requires forall j :: 0 <= j < |names| ==> classify(names[j]).Ok?
    ensures ClassifyAll(names, classify) == Ok(LabelAll(names, true, classify))
  {
    var a := ClassifyAll(names, classify).value;
    var b := LabelAll(names, true, classify);
    assert |a| == |Names(a)| == |names| == |Names(b)| == |b|;
    forall i | 0 <= i < |a| ensures a[i] == b[i] {
      assert a[i].0 == Names(a)[i] == names[i] == Names(b)[i] == b[i].0;
    }
    assert a == b;
  }

  lemma {:induction false} SelectSamePattern(listing: seq<string>, isFile: string -> bool)
    requires forall x :: x in listing && isFile(x) ==> Matches(SegmentWavs, x)
    ensures Select(listing, isFile, AllWavs) == Select(listing, isFile, SegmentWavs)
    decreases |listing|
  {
    if |listing| > 0 {
      var n := |listing| - 1;
      assert forall x :: x in listing[..n] ==> x in listing;
      SelectSamePattern(listing[..n], isFile);
      var x := listing[n];
      assert isFile(x) ==> Matches(SegmentWavs, x);
      assert isFile(x) && Matches(AllWavs, x) <==> isFile(x) && Matches(SegmentWavs, x);
    }
  }
}
