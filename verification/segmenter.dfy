/** The audio segmenter's planning arithmetic: from the probed duration
    and the configured bounds it picks a segment count and length, then
    cuts `[i * L, min((i + 1) * L, D)]` for each segment. The media tool
    that extracts and cuts the audio is outside the model. */
module Segmenter {
  import opened Results
  import opened Text
  import Numbers

  /** `AudioSegmenterConfig`; `ffmpegPath` is `None` until resolved. */
  datatype Config = Config(
    minDuration: real,
    maxDuration: real,
    ffmpegPath: Option<string>,
    sampleRate: int,
    channels: int)

  /** The segmenter's configuration after construction: the dataclass
      defaults when no configuration is given, and the system `ffmpeg`
      whenever the tool path is missing or empty. */
  function Configure(config: Option<Config>): (c: Config)
    ensures c.ffmpegPath.Some? && c.ffmpegPath.value != ""
    ensures config.None? ==> c == Config(4.0, 7.0, Some("ffmpeg"), 16000, 1)
    ensures config.Some? ==>
      && c.minDuration == config.value.minDuration
      && c.maxDuration == config.value.maxDuration
      && c.sampleRate == config.value.sampleRate
      && c.channels == config.value.channels
    ensures config.Some? && config.value.ffmpegPath.Some? && config.value.ffmpegPath.value != ""
      ==> c == config.value
  {
    var base := config.GetOr(Config(4.0, 7.0, None, 16000, 1));
    if base.ffmpegPath.None? || base.ffmpegPath.value == "" then
      base.(ffmpegPath := Some("ffmpeg"))
    else base
  }

  /** A planned cut: the segment count and the common segment length.
      The count may be non-positive for negative bounds, in which case
      no segment is cut. */
  datatype Plan = Plan(count: int, length: real)

  datatype Range = Range(start: real, end: real)

  /** `int(D // max_duration) + 1` and `D / n`: the first pass. A zero
      `max_duration`, or a count of 0, is Python's `ZeroDivisionError`. */
  function FirstPass(d: real, maxDuration: real): (r: Result<Plan>)
    ensures r.Ok? ==> r.value.count != 0 && r.value.length * r.value.count as real == d
    ensures maxDuration > 0.0 && d >= 0.0 ==> r.Ok? && r.value.count >= 1
  {
    if maxDuration == 0.0 then Err("ZeroDivisionError")
    else
      var n := (d / maxDuration).Floor + 1;
      if n == 0 then Err("ZeroDivisionError")
      else
        Numbers.DivTimes(d, n as real);
        Ok(Plan(n, d / n as real))
  }

  /** `extract_and_split_audio`'s count and length: the first pass, then a
      re-pack to `max(1, int(D // min_duration))` segments when the first
      pass left several segments shorter than `min_duration`. */
  function PlanSegments(d: nat, cfg: Config): (r: Result<Plan>)
    ensures r.Ok? ==> r.value.length * r.value.count as real == d as real
    ensures r.Err? <==> FirstPass(d as real, cfg.maxDuration).Err?
    ensures cfg.maxDuration > 0.0 ==> r.Ok? && r.value.count >= 1
  {
    match FirstPass(d as real, cfg.maxDuration)
    case Err(e) => Err(e)
    case Ok(p) =>
      if p.length < cfg.minDuration && p.count > 1 then
        // a count above 1 makes the length non-negative, so the minimum
        // is positive here and the division below is defined
        assert p.length >= 0.0 by { PositiveCountLength(d as real, p); }
        var n := (d as real / cfg.minDuration).Floor;
        var n' := if n < 1 then 1 else n;
        Numbers.DivTimes(d as real, n' as real);
        Ok(Plan(n', d as real / n' as real))
      else Ok(p)
  }

  lemma PositiveCountLength(d: real, p: Plan)
    requires d >= 0.0 && p.count >= 1 && p.length * p.count as real == d
    ensures p.length >= 0.0
  {
    assert p.length == d / p.count as real;
  }

  /** The ranges cut for a plan: `range(n)` is empty for `n <= 0`. */
  function Ranges(p: Plan, d: real): (rs: seq<Range>)
    ensures |rs| == if p.count > 0 then p.count else 0
  {
    var n := if p.count > 0 then p.count else 0;
    seq(n, i requires 0 <= i < n =>
      Range(i as real * p.length,
            if (i + 1) as real * p.length < d then (i + 1) as real * p.length else d))
  }

  /** The file names `segment_1.wav` ... `segment_n.wav`, in numeric order. */
  function SegmentName(k: nat, ext: string): string {
    "segment_" + NatToString(k) + ext
  }

  function SegmentPaths(n: int): (ps: seq<string>)
    ensures |ps| == if n > 0 then n else 0
    ensures forall i :: 0 <= i < |ps| ==> ps[i] == SegmentName(i + 1, ".wav")
  {
    var m := if n > 0 then n else 0;
    seq(m, i requires 0 <= i < m => SegmentName(i + 1, ".wav"))
  }

  // ---------------------------------------------------------------------
  // Properties of the plan

  lemma LengthBelow(d: real, n: real, m: real)
    requires n > 0.0 && m > 0.0 && d < n * m
    ensures d / n < m
  {
    assert d / n * n == d;
  }

  /** The first pass always leaves segments strictly shorter than
      `max_duration`. */
  lemma FirstPassBelowMax(d: real, maxDuration: real)
    requires d >= 0.0 && maxDuration > 0.0
    ensures FirstPass(d, maxDuration).Ok?
    ensures FirstPass(d, maxDuration).value.length < maxDuration
  {
    var p := FirstPass(d, maxDuration).value;
    var q := d / maxDuration;
    assert q < p.count as real;
    assert q * maxDuration == d;
    assert d < p.count as real * maxDuration;
    LengthBelow(d, p.count as real, maxDuration);
  }

  /** Whether `extract_and_split_audio` re-packs. */
  predicate Repacks(d: nat, cfg: Config)
    requires FirstPass(d as real, cfg.maxDuration).Ok?
  {
    var p := FirstPass(d as real, cfg.maxDuration).value;
    p.length < cfg.minDuration && p.count > 1
  }

  lemma LengthAtLeast(d: real, n: real, m: real)
    requires n > 0.0 && m > 0.0 && n * m <= d
    ensures m <= d / n
  {
    assert d / n * n == d;
  }

  /** A plan that was not re-packed keeps the first pass; one that was
      re-packed reaches `min_duration` exactly when the audio is at least
      that long (a shorter one becomes one segment of its whole length). */
  lemma PlanLengthBounds(d: nat, cfg: Config)
    requires cfg.maxDuration > 0.0
    ensures PlanSegments(d, cfg).Ok?
    ensures !Repacks(d, cfg) ==> PlanSegments(d, cfg).value.length < cfg.maxDuration
    ensures Repacks(d, cfg) ==>
      (PlanSegments(d, cfg).value.length >= cfg.minDuration <==> d as real >= cfg.minDuration)
  {
    FirstPassBelowMax(d as real, cfg.maxDuration);
    var p := FirstPass(d as real, cfg.maxDuration).value;
    if Repacks(d, cfg) {
      PositiveCountLength(d as real, p);
      RepackLength(d as real, cfg.minDuration);
    }
  }

  /** The re-pack to `max(1, int(D // m))` segments reaches length `m`
      exactly when `D >= m`. */
  lemma RepackLength(d: real, m: real)
    requires d >= 0.0 && m > 0.0
    ensures var n := (d / m).Floor;
      var n' := if n < 1 then 1 else n;
      d / n' as real >= m <==> d >= m
  {
    var q := d / m;
    var n := q.Floor;
    if d >= m {
      Numbers.QuotientAtLeastOne(d, m);
      assert q * m == d;
      Numbers.ScaleMonotone(n as real, q, m);
      LengthAtLeast(d, n as real, m);
    } else {
      Numbers.QuotientBelowOne(d, m);
    }
  }

  /** With the default bounds, seven seconds of audio is one segment of
      seven seconds: the first pass makes two of 3.5 s, below the minimum,
      and the re-pack brings them back to one. */
  lemma SevenSecondsIsOneSegment()
    ensures PlanSegments(7, Configure(None)) == Ok(Plan(1, 7.0))
    ensures Ranges(PlanSegments(7, Configure(None)).value, 7.0) == [Range(0.0, 7.0)]
  {
    var cfg := Configure(None);
    assert (7.0 / 7.0).Floor == 1;
    assert FirstPass(7.0, 7.0) == Ok(Plan(2, 3.5));
    assert (7.0 / 4.0).Floor == 1;
  }

  /** The ranges of a count `n >= 1` and length `L >= 0` with `n * L == D`
      cover `[0, D]` without gaps or overlaps, in order. */
  lemma {:induction false} RangesPartition(p: Plan, d: real)
    requires p.count >= 1 && p.length >= 0.0 && p.length * p.count as real == d
    ensures var rs := Ranges(p, d);
      && rs[0].start == 0.0
      && rs[|rs| - 1].end == d
      && (forall i :: 0 <= i < |rs| ==> 0.0 <= rs[i].start <= rs[i].end <= d)
      && (forall i :: 0 <= i < |rs| - 1 ==> rs[i].end == rs[i + 1].start)
  {
    var rs := Ranges(p, d);
    var n := p.count;
    forall i | 0 <= i < n
      ensures 0.0 <= rs[i].start <= rs[i].end <= d
      ensures i == 0 ==> rs[i].start == 0.0
      ensures i < n - 1 ==> rs[i].end == rs[i + 1].start
      ensures i == n - 1 ==> rs[i].end == d
    {
      RangeAt(p, d, i);
    }
  }

  /** Range `i` lies inside `[0, D]`, ends where the next one starts, and
      the last one ends at `D`. */
  lemma RangeAt(p: Plan, d: real, i: nat)
    requires p.count >= 1 && p.length >= 0.0 && p.length * p.count as real == d
    requires i < p.count
    ensures var rs := Ranges(p, d);
      && 0.0 <= rs[i].start <= rs[i].end <= d
      && (i == 0 ==> rs[i].start == 0.0)
      && (i < p.count - 1 ==> rs[i].end == rs[i + 1].start)
      && (i == p.count - 1 ==> rs[i].end == d)
  {
    var rs := Ranges(p, d);
    var l := p.length;
    var a, b := i as real * l, (i + 1) as real * l;
    assert 0.0 <= a <= b by {
      Numbers.ScaleMonotone(0.0, i as real, l);
      Numbers.ScaleMonotone(i as real, (i + 1) as real, l);
    }
    assert b <= d by {
      Numbers.ScaleMonotone((i + 1) as real, p.count as real, l);
    }
    assert rs[i].start == a;
    if i < p.count - 1 {
      assert rs[i + 1].start == b;
    }
  }

  /** Boundaries never decrease from one range to the next. */
  lemma RangesMonotone(p: Plan, d: real)
    requires p.count >= 1 && p.length >= 0.0 && p.length * p.count as real == d
    ensures var rs := Ranges(p, d);
      forall i, j :: 0 <= i <= j < |rs| ==> rs[i].start <= rs[j].start && rs[i].end <= rs[j].end
  {
    var rs := Ranges(p, d);
    forall i, j | 0 <= i <= j < |rs| ensures rs[i].start <= rs[j].start && rs[i].end <= rs[j].end {
      RangePairMonotone(p, d, i, j);
    }
  }

  lemma RangePairMonotone(p: Plan, d: real, i: nat, j: nat)
    requires p.count >= 1 && p.length >= 0.0
    requires i <= j < p.count
    ensures var rs := Ranges(p, d);
      rs[i].start <= rs[j].start && rs[i].end <= rs[j].end
  {
    var rs := Ranges(p, d);
    var l := p.length;
    Numbers.ScaleMonotone(i as real, j as real, l);
    Numbers.ScaleMonotone((i + 1) as real, (j + 1) as real, l);
    assert rs[i].start == i as real * l;
    assert rs[j].start == j as real * l;
  }

  /** The segmenter's whole output for positive bounds: at least one
      range, partitioning `[0, D]`, and one path per range. */
  lemma {:induction false} SegmentsPartitionDuration(d: nat, cfg: Config)
    requires cfg.maxDuration > 0.0
    ensures PlanSegments(d, cfg).Ok?
    ensures var rs := Ranges(PlanSegments(d, cfg).value, d as real);
      && |rs| >= 1
      && |rs| == |SegmentPaths(PlanSegments(d, cfg).value.count)|
      && rs[0].start == 0.0
      && rs[|rs| - 1].end == d as real
      && (forall i :: 0 <= i < |rs| ==> 0.0 <= rs[i].start <= rs[i].end <= d as real)
      && (forall i :: 0 <= i < |rs| - 1 ==> rs[i].end == rs[i + 1].start)
  {
    var p := PlanSegments(d, cfg).value;
    PositiveCountLength(d as real, p);
    RangesPartition(p, d as real);
  }

  /** The digits of distinct numbers differ, so no two segments share a
      file name. */
  lemma SegmentNamesDistinct(j: nat, k: nat, ext: string)
    requires j != k
    ensures SegmentName(j, ext) != SegmentName(k, ext)
  {
    var a, b := SegmentName(j, ext), SegmentName(k, ext);
    if a == b {
      var sj, sk := NatToString(j), NatToString(k);
      assert |sj| == |sk|;
      assert sj == a[8..8 + |sj|];
      assert sk == b[8..8 + |sk|];
      DigitsValueOfNatToString(j);
      DigitsValueOfNatToString(k);
    }
  }

  lemma SegmentPathsDistinct(n: int)
    ensures var ps := SegmentPaths(n);
      forall i, j :: 0 <= i < j < |ps| ==> ps[i] != ps[j]
  {
    var ps := SegmentPaths(n);
    forall i, j | 0 <= i < j < |ps| ensures ps[i] != ps[j] {
      SegmentNamesDistinct(i + 1, j + 1, ".wav");
    }
  }
}

/** The older `split_and_extract_audio`: the same first pass, but the
    re-pack runs whenever the length is below the minimum, without the
    guard on the count and without the clamp to at least one segment. */
module LegacySegmenter {
  import opened Results
  import opened Text
  import Numbers
  import Segmenter

  const DefaultMin: real := 4.0
  const DefaultMax: real := 7.0

  /** Count and length for a clip of `d` seconds (`clip.duration`, a
      float); `Err` is the `ZeroDivisionError` of either division. */
  function LegacyPlan(d: real, minDuration: real, maxDuration: real): (r: Result<Segmenter.Plan>)
    ensures r.Ok? ==> r.value.count != 0 && r.value.length * r.value.count as real == d
  {
    match Segmenter.FirstPass(d, maxDuration)
    case Err(e) => Err(e)
    case Ok(p) =>
      if p.length < minDuration then
        if minDuration == 0.0 then Err("ZeroDivisionError")
        else
          var n := (d / minDuration).Floor;
          if n == 0 then Err("ZeroDivisionError")
          else Ok(Segmenter.Plan(n, d / n as real))
      else Ok(p)
  }

  /** A cut of the older script: the same range written twice, as
      `segment_k.mp4` (video and audio) and `segment_k.wav` (mono audio). */
  datatype Cut = Cut(range: Segmenter.Range, video: string, audio: string)

  function LegacyCuts(p: Segmenter.Plan, d: real): (cs: seq<Cut>)
    ensures |cs| == |Segmenter.Ranges(p, d)|
    ensures forall i :: 0 <= i < |cs| ==> cs[i].range == Segmenter.Ranges(p, d)[i]
    ensures forall i :: 0 <= i < |cs| ==>
      cs[i].video == Segmenter.SegmentName(i + 1, ".mp4") && cs[i].audio == Segmenter.SegmentName(i + 1, ".wav")
  {
    var rs := Segmenter.Ranges(p, d);
    seq(|rs|, i requires 0 <= i < |rs| =>
      Cut(rs[i], Segmenter.SegmentName(i + 1, ".mp4"), Segmenter.SegmentName(i + 1, ".wav")))
  }

  /** For non-negative durations and positive bounds the older script fails
      exactly when the clip is shorter than the minimum: a short clip is
      first planned as one segment, which the unguarded re-pack turns into
      zero segments and a division by zero. */
  lemma {:induction false} LegacyFailsIffShort(d: real, minDuration: real, maxDuration: real)
    requires d >= 0.0 && minDuration > 0.0 && maxDuration > 0.0
    ensures LegacyPlan(d, minDuration, maxDuration).Err? <==> d < minDuration
  {
    var p := Segmenter.FirstPass(d, maxDuration).value;
    Segmenter.PositiveCountLength(d, p);
    if d < minDuration {
      Numbers.PartAtMostTotal(p.length, p.count as real, d);
      Numbers.QuotientBelowOne(d, minDuration);
    } else {
      Numbers.QuotientAtLeastOne(d, minDuration);
    }
  }

  /** With the default bounds, an empty clip already fails. */
  lemma LegacyEmptyClipFails()
    ensures LegacyPlan(0.0, DefaultMin, DefaultMax).Err?
  {
    LegacyFailsIffShort(0.0, DefaultMin, DefaultMax);
  }

  /** Whenever the older script succeeds on a whole-second duration, the
      newer segmenter plans the same cut: the guard and the clamp only
      matter on the inputs where the older one divides by zero. */
  lemma {:induction false} LegacyAgreesWhenDefined(d: nat, cfg: Segmenter.Config)
    requires cfg.minDuration > 0.0 && cfg.maxDuration > 0.0
    requires LegacyPlan(d as real, cfg.minDuration, cfg.maxDuration).Ok?
    ensures Segmenter.PlanSegments(d, cfg) == LegacyPlan(d as real, cfg.minDuration, cfg.maxDuration)
  {
    var dr := d as real;
    LegacyFailsIffShort(dr, cfg.minDuration, cfg.maxDuration);
    var p := Segmenter.FirstPass(dr, cfg.maxDuration).value;
    Segmenter.PositiveCountLength(dr, p);
    if p.length < cfg.minDuration {
      var q := dr / cfg.minDuration;
      Segmenter.LengthAtLeast(dr, cfg.minDuration, 1.0);
      assert q.Floor >= 1;
      assert p.length < dr;
      assert p.count != 1;
    }
  }

  /** Each cut's video and audio share the segment's number and differ
      only in the extension, and no two cuts share a file. */
  lemma LegacyCutNames(p: Segmenter.Plan, d: real)
    ensures var cs := LegacyCuts(p, d);
      && (forall i :: 0 <= i < |cs| ==>
            cs[i].video[..|cs[i].video| - 4] == cs[i].audio[..|cs[i].audio| - 4]
            && EndsWith(cs[i].video, ".mp4") && EndsWith(cs[i].audio, ".wav"))
      && (forall i, j :: 0 <= i < j < |cs| ==> cs[i].video != cs[j].video && cs[i].audio != cs[j].audio)
  {
    var cs := LegacyCuts(p, d);
    forall i | 0 <= i < |cs|
      ensures cs[i].video[..|cs[i].video| - 4] == cs[i].audio[..|cs[i].audio| - 4]
      ensures EndsWith(cs[i].video, ".mp4") && EndsWith(cs[i].audio, ".wav")
    {
      var stem := "segment_" + NatToString(i + 1);
      assert cs[i].video == stem + ".mp4";
      assert cs[i].audio == stem + ".wav";
      assert cs[i].video[..|cs[i].video| - 4] == stem;
      assert cs[i].audio[..|cs[i].audio| - 4] == stem;
    }
    forall i, j | 0 <= i < j < |cs| ensures cs[i].video != cs[j].video && cs[i].audio != cs[j].audio {
      Segmenter.SegmentNamesDistinct(i + 1, j + 1, ".mp4");
      Segmenter.SegmentNamesDistinct(i + 1, j + 1, ".wav");
    }
  }
}
