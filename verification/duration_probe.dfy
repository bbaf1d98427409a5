/** The duration prober: the media tool's diagnostic text is searched for
    `Duration: HH:MM:SS.ff` and the first match becomes whole seconds;
    without a match the prober answers 0. Running the tool is outside the
    model; its error-stream text is the input. Both copies of the prober
    (the data processor's and the audio segmenter's) use the same pattern
    and arithmetic. */
module DurationProbe {
  import opened Results
  import opened Text

  const Marker: string := "Duration: "

  /** Length of a full match: the marker, `HH:MM:SS`, a dot, two digits. */
  const MatchLength: nat := 21

  function TwoDigits(u: string, i: nat): (v: nat)
    requires i + 2 <= |u| && IsDigit(u[i]) && IsDigit(u[i + 1])
    ensures v < 100
  {
    DigitValue(u[i]) * 10 + DigitValue(u[i + 1])
  }

  /** The 21 characters `u` are exactly one match of
      `Duration: (\d{2}):(\d{2}):(\d{2})\.\d{2}`. */
  predicate IsMatch(u: string) {
    && |u| == MatchLength
    && u[..10] == Marker
    && IsDigit(u[10]) && IsDigit(u[11]) && u[12] == ':'
    && IsDigit(u[13]) && IsDigit(u[14]) && u[15] == ':'
    && IsDigit(u[16]) && IsDigit(u[17]) && u[18] == '.'
    && IsDigit(u[19]) && IsDigit(u[20])
  }

  /** Hours, minutes and seconds captured by a match, as whole seconds;
      the hundredths are not captured. */
  function MatchSeconds(u: string): nat
    requires IsMatch(u)
  {
    TwoDigits(u, 10) * 3600 + TwoDigits(u, 13) * 60 + TwoDigits(u, 16)
  }

  /** The pattern matches at position `i` of `t`. */
  predicate MatchesAt(t: string, i: nat) {
    i + MatchLength <= |t| && IsMatch(t[i..i + MatchLength])
  }

  /** `re.search`: the leftmost match at or after `from`. */
  function FirstMatch(t: string, from: nat): (r: Option<nat>)
    ensures r.Some? ==> from <= r.value && MatchesAt(t, r.value)
    ensures r.Some? ==> forall j: nat :: from <= j < r.value ==> !MatchesAt(t, j)
    ensures r.None? ==> forall j: nat :: from <= j ==> !MatchesAt(t, j)
    decreases |t| - from
  {
    if from + MatchLength > |t| then None
    else if MatchesAt(t, from) then Some(from)
    else FirstMatch(t, from + 1)
  }

  /** `get_audio_duration` / `_get_audio_duration` after the subprocess:
      the seconds of the leftmost `Duration:` match, or 0 without one. */
  function ProbeDuration(stderr: string): (secs: nat)
    ensures (forall j: nat :: !MatchesAt(stderr, j)) ==> secs == 0
    ensures secs <= 99 * 3600 + 99 * 60 + 99
  {
    match FirstMatch(stderr, 0)
    case None => 0
    case Some(i) => MatchSeconds(stderr[i..i + MatchLength])
  }

  /** The prober reads the leftmost match and only that one. */
  lemma ProbeReadsFirstMatch(t: string, j: nat)
    requires MatchesAt(t, j)
    requires forall i: nat :: i < j ==> !MatchesAt(t, i)
    ensures ProbeDuration(t) == MatchSeconds(t[j..j + MatchLength])
  {
    var r := FirstMatch(t, 0);
    assert r.Some?;
    assert r.value == j;
  }

  /** The text a media tool prints for a duration of `h:m:s.cs`. */
  function DurationText(h: nat, m: nat, s: nat, cs: nat): string
    requires h < 100 && m < 100 && s < 100 && cs < 100
  {
    Marker + Pad2(h) + ":" + Pad2(m) + ":" + Pad2(s) + "." + Pad2(cs)
  }

  lemma Pad2Digits(n: nat)
    requires n < 100
    ensures Pad2(n) == [DigitChar(n / 10), DigitChar(n % 10)]
  {
    if n >= 10 {
      assert NatToString(n / 10) == [DigitChar(n / 10)];
    }
  }

  lemma DurationTextMatches(h: nat, m: nat, s: nat, cs: nat)
    requires h < 100 && m < 100 && s < 100 && cs < 100
    ensures IsMatch(DurationText(h, m, s, cs))
    ensures MatchSeconds(DurationText(h, m, s, cs)) == h * 3600 + m * 60 + s
  {
    Pad2Digits(h);
    Pad2Digits(m);
    Pad2Digits(s);
    Pad2Digits(cs);
    var line := DurationText(h, m, s, cs);
    assert line == Marker + [DigitChar(h / 10), DigitChar(h % 10), ':',
                             DigitChar(m / 10), DigitChar(m % 10), ':',
                             DigitChar(s / 10), DigitChar(s % 10), '.',
                             DigitChar(cs / 10), DigitChar(cs % 10)];
    assert line[..10] == Marker;
  }

  /** A `Duration:` line preceded by text that holds no `Duration: `
      marker is the one the prober reads: its hours, minutes and seconds
      come back as seconds and the hundredths are dropped. (A window that
      starts before the line and reaches into it would need the line's
      `D` somewhere other than the marker's first place.) */
  lemma ProbeReadsDurationLine(prefix: string, h: nat, m: nat, s: nat, cs: nat, rest: string)
    requires h < 100 && m < 100 && s < 100 && cs < 100
    requires !Contains(prefix, Marker)
    ensures ProbeDuration(prefix + DurationText(h, m, s, cs) + rest) == h * 3600 + m * 60 + s
  {
    var line := DurationText(h, m, s, cs);
    var t := prefix + line + rest;
    var i := |prefix|;
    DurationTextMatches(h, m, s, cs);
    assert t[i..i + MatchLength] == line;
    assert t[i] == 'D';
    forall j: nat | j < i ensures !MatchesAt(t, j) {
      if j + MatchLength <= |t| {
        var w := t[j..j + MatchLength];
        if j + 10 <= i {
          assert !OccursAt(prefix, Marker, j);
          assert w[..10] == prefix[j..j + 10];
        } else {
          assert forall k :: 1 <= k < 10 ==> Marker[k] != 'D';
          assert w[..10][i - j] == t[i] == 'D';
        }
      }
    }
    ProbeReadsFirstMatch(t, i);
  }
}
