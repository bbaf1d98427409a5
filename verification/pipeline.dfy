/** The upload route's emotion pipeline: the segmenter writes the full
    track and `segment_1.wav` ... `segment_n.wav` into a fresh folder, the
    emotion pass keys its labels by file name in `sorted` order, and the
    timeline pairs those labels by position with the durations of the
    segment paths, which are in numeric order. With ten or more segments
    the two orders differ, so a time range is shown with the label of
    another segment. The numeric order is defined alongside and proved to
    line the labels up. */
module Pipeline {
  import opened Results
  import opened Text
  import opened Sorting
  import Segmenter
  import SpeechAnalysis
  import Timeline

  const FullAudio: string := "full_audio.wav"

  /** Every name in the split folder is a regular file. */
  const AllFiles: string -> bool := (x: string) => true

  /** The folder after a split into `n` segments, in some listing order. */
  function SplitFolder(n: nat): seq<string> {
    [FullAudio] + Segmenter.SegmentPaths(n)
  }

  /** The durations are listed for the segment paths, so duration `i`
      belongs to `segment_{i+1}.wav`. */
  function EmotionTimeline(keyed: seq<(string, string)>, total: real, ds: seq<real>): (segs: seq<Timeline.Segment>)
    ensures |segs| == |keyed|
    ensures forall i :: 0 <= i < |keyed| ==> segs[i].emotion == keyed[i].1
  {
    Timeline.Timeline(keyed, total, ds)
  }

  /** `total_duration / len(segment_paths) if segment_paths else 0`. */
  function AverageSegmentDuration(total: real, count: nat): (d: real)
    ensures count == 0 ==> d == 0.0
    ensures count > 0 ==> d * count as real == total
  {
    if count > 0 then total / count as real else 0.0
  }

  // ---------------------------------------------------------------------
  // Which files the emotion pass sees

  /** Each segment file matches `segment_*.wav`. */
  lemma SegmentNameMatches(k: nat)
    ensures SpeechAnalysis.Matches(SpeechAnalysis.SegmentWavs, Segmenter.SegmentName(k, ".wav"))
  {
    var name := Segmenter.SegmentName(k, ".wav");
    var digits := NatToString(k);
    assert name == "segment_" + digits + ".wav";
    assert name[..8] == "segment_";
    assert name[|name| - 4..] == ".wav";
  }

  lemma FullAudioDoesNotMatch()
    ensures !SpeechAnalysis.Matches(SpeechAnalysis.SegmentWavs, FullAudio)
  {
    assert FullAudio[0] != SpeechAnalysis.SegmentPrefix[0];
  }

  /** Whatever the listing order, the pass selects the segment files, each
      once, and not the full track. */
  lemma SplitFolderSelection(listing: seq<string>, n: nat)
    requires multiset(listing) == multiset(SplitFolder(n))
    ensures multiset(SpeechAnalysis.Select(listing, AllFiles, SpeechAnalysis.SegmentWavs))
         == multiset(Segmenter.SegmentPaths(n))
  {
    var sel := SpeechAnalysis.Select(listing, AllFiles, SpeechAnalysis.SegmentWavs);
    var ps := Segmenter.SegmentPaths(n);
    FullAudioDoesNotMatch();
    assert multiset(SplitFolder(n)) == multiset{FullAudio} + multiset(ps);
    forall v ensures multiset(sel)[v] == multiset(ps)[v] {
      SpeechAnalysis.SelectCount(listing, AllFiles, SpeechAnalysis.SegmentWavs, v);
      if !SpeechAnalysis.Matches(SpeechAnalysis.SegmentWavs, v) {
        NotAPath(n, v);
      }
    }
  }

  /** A name that does not match `segment_*.wav` is none of the paths. */
  lemma NotAPath(n: nat, v: string)
    requires !SpeechAnalysis.Matches(SpeechAnalysis.SegmentWavs, v)
    ensures v !in Segmenter.SegmentPaths(n)
  {
    var ps := Segmenter.SegmentPaths(n);
    forall i | 0 <= i < |ps| ensures ps[i] != v {
      SegmentNameMatches(i + 1);
    }
  }

  /** The keys are some order of the segment paths. */
  lemma KeysArePaths(listing: seq<string>, n: nat, le: (string, string) -> bool)
    requires multiset(listing) == multiset(SplitFolder(n))
    ensures multiset(Sort(SpeechAnalysis.Select(listing, AllFiles, SpeechAnalysis.SegmentWavs), le))
         == multiset(Segmenter.SegmentPaths(n))
    ensures |Sort(SpeechAnalysis.Select(listing, AllFiles, SpeechAnalysis.SegmentWavs), le)| == n
  {
    SplitFolderSelection(listing, n);
    var keys := Sort(SpeechAnalysis.Select(listing, AllFiles, SpeechAnalysis.SegmentWavs), le);
    assert |keys| == |multiset(keys)| == |multiset(Segmenter.SegmentPaths(n))| == n;
  }

  // ---------------------------------------------------------------------
  // As written: name order

  /** The labels of the as-written pipeline, keyed in name order. */
  function KeysByName(listing: seq<string>): (keys: seq<string>)
    ensures Sorted(keys, SpeechAnalysis.LexLe)
  {
    SpeechAnalysis.LexIsTotalPreorder();
    SortSorted(SpeechAnalysis.Select(listing, AllFiles, SpeechAnalysis.SegmentWavs), SpeechAnalysis.LexLe);
    SpeechAnalysis.SortedSelection(listing, AllFiles, SpeechAnalysis.SegmentWavs)
  }

  lemma NatToStringTwo()
    ensures NatToString(2) == "2"
  {
  }

  lemma NatToStringTen()
    ensures NatToString(10) == "10"
  {
    assert NatToString(1) == "1";
    assert NatToString(10) == NatToString(1) + [DigitChar(0)];
  }

  /** `segment_10.wav` sorts before `segment_2.wav`. */
  lemma TenBeforeTwo()
    ensures !SpeechAnalysis.LexLe(Segmenter.SegmentName(2, ".wav"), Segmenter.SegmentName(10, ".wav"))
    ensures Segmenter.SegmentName(2, ".wav") != Segmenter.SegmentName(10, ".wav")
  {
    NatToStringTwo();
    NatToStringTen();
    var two, ten := Segmenter.SegmentName(2, ".wav"), Segmenter.SegmentName(10, ".wav");
    assert two == "segment_" + "2.wav";
    assert ten == "segment_" + "10.wav";
    SpeechAnalysis.LexCommonPrefix("segment_", "2.wav", "10.wav");
    assert !SpeechAnalysis.LexLe("2.wav", "10.wav");
    Segmenter.SegmentNamesDistinct(2, 10, ".wav");
  }

  /** With ten or more segments the as-written keys put `segment_10.wav`
      before `segment_2.wav`, so some time slot `i` carries the label of a
      file other than `segment_{i+1}.wav`, the one its duration is of. */
  lemma NameOrderMisaligns(listing: seq<string>, n: nat, modelLoaded: bool,
                           classify: string -> Result<string>, total: real, ds: seq<real>)
    requires n >= 10 && multiset(listing) == multiset(SplitFolder(n))
    ensures var r := SpeechAnalysis.AnalyzeSegments(Some(listing), AllFiles, modelLoaded, classify);
      && r.Ok? && |r.value| == n
      && exists i :: 0 <= i < n && r.value[i].0 != Segmenter.SegmentName(i + 1, ".wav")
                     && EmotionTimeline(r.value, total, ds)[i].emotion
                        == SpeechAnalysis.LabelOf(modelLoaded, classify, r.value[i].0)
  {
    var r := SpeechAnalysis.AnalyzeSegments(Some(listing), AllFiles, modelLoaded, classify);
    var keys := KeysByName(listing);
    KeysArePaths(listing, n, SpeechAnalysis.LexLe);
    assert SpeechAnalysis.Names(r.value) == keys;
    TenBeforeTwo();
    var two, ten := Segmenter.SegmentName(2, ".wav"), Segmenter.SegmentName(10, ".wav");
    assert SpeechAnalysis.LexLe(keys[1], keys[9]);
    var w := if keys[1] == two then 9 else 1;
    assert keys[w] != Segmenter.SegmentName(w + 1, ".wav");
    assert r.value[w].0 == keys[w];
  }

  /** In the as-written keys `segment_10.wav` comes before `segment_2.wav`. */
  lemma TenKeyedBeforeTwo(listing: seq<string>)
    ensures var keys := KeysByName(listing);
      forall i, j ::
        (0 <= i < |keys| && 0 <= j < |keys|
         && keys[i] == Segmenter.SegmentName(10, ".wav") && keys[j] == Segmenter.SegmentName(2, ".wav")) ==> i < j
  {
    var keys := KeysByName(listing);
    TenBeforeTwo();
    forall i, j | 0 <= i < |keys| && 0 <= j < |keys|
      && keys[i] == Segmenter.SegmentName(10, ".wav") && keys[j] == Segmenter.SegmentName(2, ".wav")
      ensures i < j
    {
      SortedIndexOrder(keys, SpeechAnalysis.LexLe, i, j);
    }
  }

  /** One digit: `segment_a.wav` sorts before `segment_b.wav` for `a <= b`. */
  lemma OneDigitNamesInOrder(a: nat, b: nat)
    requires 1 <= a <= b <= 9
    ensures SpeechAnalysis.LexLe(Segmenter.SegmentName(a, ".wav"), Segmenter.SegmentName(b, ".wav"))
  {
    var sa, sb := Segmenter.SegmentName(a, ".wav"), Segmenter.SegmentName(b, ".wav");
    assert NatToString(a) == [DigitChar(a)] && NatToString(b) == [DigitChar(b)];
    assert sa == "segment_" + ([DigitChar(a)] + ".wav");
    assert sb == "segment_" + ([DigitChar(b)] + ".wav");
    SpeechAnalysis.LexCommonPrefix("segment_", [DigitChar(a)] + ".wav", [DigitChar(b)] + ".wav");
    if a == b {
      SpeechAnalysis.LexTotal(sa, sb);
    }
  }

  /** Below ten segments name order is numeric order, so the as-written
      pipeline lines up. */
  lemma NameOrderAlignedBelowTen(listing: seq<string>, n: nat)
    requires n <= 9 && multiset(listing) == multiset(SplitFolder(n))
    ensures KeysByName(listing) == Segmenter.SegmentPaths(n)
  {
    var keys := KeysByName(listing);
    var ps := Segmenter.SegmentPaths(n);
    assert multiset(keys) == multiset(ps) by {
      KeysArePaths(listing, n, SpeechAnalysis.LexLe);
    }
    assert TotalPreorder(SpeechAnalysis.LexLe) by {
      SpeechAnalysis.LexIsTotalPreorder();
    }
    assert Sorted(ps, SpeechAnalysis.LexLe) by {
      PathsByNameBelowTen(n);
    }
    assert forall a, b :: a in keys && b in keys && SpeechAnalysis.LexLe(a, b) && SpeechAnalysis.LexLe(b, a) ==> a == b by {
      LexAntisymmetricAll(keys);
    }
    SortedUnique(keys, ps, SpeechAnalysis.LexLe);
  }

  /** Up to nine segments, name order is number order. */
  lemma PathsByNameBelowTen(n: nat)
    requires n <= 9
    ensures Sorted(Segmenter.SegmentPaths(n), SpeechAnalysis.LexLe)
  {
    var ps := Segmenter.SegmentPaths(n);
    forall i, j | 0 <= i < j < |ps| ensures SpeechAnalysis.LexLe(ps[i], ps[j]) {
      OneDigitNamesInOrder(i + 1, j + 1);
    }
  }

  lemma LexAntisymmetricAll(keys: seq<string>)
    ensures forall a, b :: a in keys && b in keys && SpeechAnalysis.LexLe(a, b) && SpeechAnalysis.LexLe(b, a) ==> a == b
  {
    forall a, b | a in keys && b in keys && SpeechAnalysis.LexLe(a, b) && SpeechAnalysis.LexLe(b, a)
      ensures a == b
    {
      SpeechAnalysis.LexAntisymmetric(a, b);
    }
  }

  // ---------------------------------------------------------------------
  // Corrected: numeric order

  /** The number in `segment_<digits>.wav`; 0 for any other name. */
  function NumberOf(name: string): nat {
    if |name| >= 12 && AllDigits(name[8..|name| - 4]) then DigitsValue(name[8..|name| - 4]) else 0
  }

  /** Ordering by segment number, as `sorted(…, key=number)` would. */
  predicate ByNumber(a: string, b: string) {
    NumberOf(a) <= NumberOf(b)
  }

  lemma ByNumberIsTotalPreorder()
    ensures TotalPreorder(ByNumber)
  {
  }

  lemma NumberOfSegmentName(k: nat)
    ensures NumberOf(Segmenter.SegmentName(k, ".wav")) == k
  {
    var name := Segmenter.SegmentName(k, ".wav");
    var digits := NatToString(k);
    assert name == "segment_" + digits + ".wav";
    assert name[8..|name| - 4] == digits;
    DigitsValueOfNatToString(k);
  }

  /** The emotion pass with the files taken in segment-number order. */
  function AnalyzeSegmentsByNumber(folder: Option<seq<string>>, isFile: string -> bool, modelLoaded: bool,
                                   classify: string -> Result<string>): (r: Result<seq<(string, string)>>)
    ensures r.Err? <==> folder.None?
    ensures r.Ok? ==> Sorted(SpeechAnalysis.Names(r.value), ByNumber)
    ensures r.Ok? ==> forall i :: 0 <= i < |r.value| ==> r.value[i].1 == SpeechAnalysis.LabelOf(modelLoaded, classify, r.value[i].0)
    ensures r.Ok? ==>
      multiset(SpeechAnalysis.Names(r.value)) == multiset(SpeechAnalysis.Select(folder.value, isFile, SpeechAnalysis.SegmentWavs))
  {
    match folder
    case None => Err("FileNotFoundError")
    case Some(listing) =>
      var sel := SpeechAnalysis.Select(listing, isFile, SpeechAnalysis.SegmentWavs);
      ByNumberIsTotalPreorder();
      SortSorted(sel, ByNumber);
      Ok(SpeechAnalysis.LabelAll(Sort(sel, ByNumber), modelLoaded, classify))
  }

  /** The segment paths are in number order. */
  lemma PathsByNumber(n: nat)
    ensures Sorted(Segmenter.SegmentPaths(n), ByNumber)
  {
    var ps := Segmenter.SegmentPaths(n);
    forall i, j | 0 <= i < j < |ps| ensures ByNumber(ps[i], ps[j]) {
      NumberOfSegmentName(i + 1);
      NumberOfSegmentName(j + 1);
    }
  }

  /** For any listing order of the split folder, the corrected keys are
      `segment_1.wav` ... `segment_n.wav` in that order. */
  lemma NumberOrderAligned(listing: seq<string>, n: nat, modelLoaded: bool, classify: string -> Result<string>)
    requires multiset(listing) == multiset(SplitFolder(n))
    ensures var r := AnalyzeSegmentsByNumber(Some(listing), AllFiles, modelLoaded, classify);
      r.Ok? && SpeechAnalysis.Names(r.value) == Segmenter.SegmentPaths(n)
  {
    var r := AnalyzeSegmentsByNumber(Some(listing), AllFiles, modelLoaded, classify);
    var keys := SpeechAnalysis.Names(r.value);
    var ps := Segmenter.SegmentPaths(n);
    SplitFolderSelection(listing, n);
    PathsByNumber(n);
    ByNumberIsTotalPreorder();
    forall a, b | a in keys && b in keys && ByNumber(a, b) && ByNumber(b, a) ensures a == b {
      assert a in multiset(ps) && b in multiset(ps);
      SameNumberSamePath(n, a, b);
    }
    SortedUnique(keys, ps, ByNumber);
  }

  /** Two segment paths with the same number are the same path. */
  lemma SameNumberSamePath(n: nat, a: string, b: string)
    requires a in Segmenter.SegmentPaths(n) && b in Segmenter.SegmentPaths(n)
    requires NumberOf(a) == NumberOf(b)
    ensures a == b
  {
    var ps := Segmenter.SegmentPaths(n);
    var i :| 0 <= i < |ps| && ps[i] == a;
    var j :| 0 <= j < |ps| && ps[j] == b;
    NumberOfSegmentName(i + 1);
    NumberOfSegmentName(j + 1);
  }

  /** With the correction every time slot `i`, whose duration is that of
      `segment_{i+1}.wav`, shows that file's label. */
  lemma CorrectedTimelineLabels(listing: seq<string>, n: nat, modelLoaded: bool,
                                classify: string -> Result<string>, total: real, ds: seq<real>)
    requires multiset(listing) == multiset(SplitFolder(n))
    ensures var r := AnalyzeSegmentsByNumber(Some(listing), AllFiles, modelLoaded, classify);
      && r.Ok? && |EmotionTimeline(r.value, total, ds)| == n
      && forall i :: 0 <= i < n ==>
        EmotionTimeline(r.value, total, ds)[i].emotion == SpeechAnalysis.LabelOf(modelLoaded, classify, Segmenter.SegmentName(i + 1, ".wav"))
  {
    var r := AnalyzeSegmentsByNumber(Some(listing), AllFiles, modelLoaded, classify);
    assert r.Ok? && SpeechAnalysis.Names(r.value) == Segmenter.SegmentPaths(n) by {
      NumberOrderAligned(listing, n, modelLoaded, classify);
    }
    TimelineOfLabelledPaths(r.value, n, modelLoaded, classify, total, ds);
  }

  /** A timeline over labels keyed by the paths in number order carries
      the label of `segment_(i+1).wav` at position `i`. */
  lemma TimelineOfLabelledPaths(keyed: seq<(string, string)>, n: nat, modelLoaded: bool,
                                classify: string -> Result<string>, total: real, ds: seq<real>)
    requires SpeechAnalysis.Names(keyed) == Segmenter.SegmentPaths(n)
    requires forall i :: 0 <= i < |keyed| ==> keyed[i].1 == SpeechAnalysis.LabelOf(modelLoaded, classify, keyed[i].0)
    ensures |EmotionTimeline(keyed, total, ds)| == n
    ensures forall i :: 0 <= i < n ==>
      EmotionTimeline(keyed, total, ds)[i].emotion == SpeechAnalysis.LabelOf(modelLoaded, classify, Segmenter.SegmentName(i + 1, ".wav"))
  {
    assert |keyed| == |SpeechAnalysis.Names(keyed)| == n;
    forall i | 0 <= i < n
      ensures keyed[i].0 == Segmenter.SegmentName(i + 1, ".wav")
    {
      assert keyed[i].0 == SpeechAnalysis.Names(keyed)[i];
    }
  }
}
