/** `MM:SS` clock text. The formatter is the data processor's
    `format_timestamp` (and the identical `format_time` helpers of the
    transcription services and the prompt builder); the parser is the
    visualisation helpers' `_time_to_seconds`. */
module Timestamp {
  import opened Results
  import opened Text

  /** `int(seconds // 60)`: Python's float floor division. */
  function MinutesOf(seconds: real): int {
    (seconds / 60.0).Floor
  }

  /** `int(seconds % 60)`: Python's `%` takes the sign of the divisor, so
      the remainder lies in [0, 60) and `int` floors it. */
  function SecondsOf(seconds: real): (s: int)
    ensures 0 <= s < 60
  {
    var m := MinutesOf(seconds);
    assert m as real <= seconds / 60.0 < m as real + 1.0;
    (seconds - 60.0 * m as real).Floor
  }

  /** The two fields together are the whole seconds of the input. */
  lemma FieldsAreWholeSeconds(seconds: real)
    ensures MinutesOf(seconds) * 60 + SecondsOf(seconds) == seconds.Floor
  {
    var m := MinutesOf(seconds);
    var r := seconds - 60.0 * m as real;
    assert (r + (60 * m) as real).Floor == r.Floor + 60 * m;
  }

  /** `f"{minutes:02d}:{seconds:02d}"`. */
  function FormatTimestamp(seconds: real): (t: string)
    ensures seconds >= 0.0 ==> |t| >= 5 && t[|t| - 3] == ':'
    ensures 0.0 <= seconds < 6000.0 ==> |t| == 5
  {
    var m := MinutesOf(seconds);
    assert seconds >= 0.0 ==> m >= 0;
    assert seconds < 6000.0 ==> m < 100;
    Pad2(m) + ":" + Pad2(SecondsOf(seconds))
  }

  /** `_time_to_seconds`: `minutes, seconds = map(int, t.split(":"))`,
      then `minutes * 60 + seconds`. Anything other than exactly two
      integer fields raises `ValueError`, modelled as `None`. */
  function TimeToSeconds(t: string): (r: Option<int>)
    ensures ':' !in t ==> r.None?
  {
    var parts := Split(t, ":");
    assert ':' !in t ==> |parts| == 1 by {
      if ':' !in t {
        FindAbsent(t, ":");
      }
    }
    if |parts| != 2 then None
    else match (ParseInt(parts[0]), ParseInt(parts[1]))
      case (Some(m), Some(s)) => Some(m * 60 + s)
      case _ => None
  }

  lemma Pad2HasNoColon(n: int)
    ensures ':' !in Pad2(n)
  {
    var p := Pad2(n);
    if n >= 0 {
      forall i | 0 <= i < |p| ensures p[i] != ':' { assert IsDigit(p[i]); }
    } else {
      var d := NatToString(-n);
      assert p == "-" + d;
      forall i | 0 <= i < |p| ensures p[i] != ':' {
        if i > 0 { assert p[i] == d[i - 1] && IsDigit(d[i - 1]); }
      }
    }
  }

  /** Formatted times hold only digits, the colon and a minus sign, so
      they never contain the separators (`" - "`, blank lines) that the
      range text and the transcript display put around them. */
  lemma FormatChars(seconds: real)
    ensures forall c :: c in FormatTimestamp(seconds) ==> IsDigit(c) || c == ':' || c == '-'
  {
    var m := MinutesOf(seconds);
    var s := SecondsOf(seconds);
    Pad2Chars(m);
    Pad2Chars(s);
    var t := FormatTimestamp(seconds);
    assert t == Pad2(m) + ":" + Pad2(s);
  }

  lemma Pad2Chars(n: int)
    ensures forall c :: c in Pad2(n) ==> IsDigit(c) || c == '-'
  {
    var p := Pad2(n);
    if n < 0 {
      var d := NatToString(-n);
      assert p == "-" + d;
      forall c | c in p ensures IsDigit(c) || c == '-' {
        var i :| 0 <= i < |p| && p[i] == c;
        if i > 0 { assert p[i] == d[i - 1]; }
      }
    } else {
      forall c | c in p ensures IsDigit(c) {
        var i :| 0 <= i < |p| && p[i] == c;
      }
    }
  }

  /** Round trip: parsing a formatted time gives back the whole seconds,
      for every input (negative ones included). */
  lemma {:induction false} ParseOfFormat(seconds: real)
    ensures TimeToSeconds(FormatTimestamp(seconds)) == Some(seconds.Floor)
  {
    var m := MinutesOf(seconds);
    var s := SecondsOf(seconds);
    Pad2HasNoColon(m);
    Pad2HasNoColon(s);
    SplitOfPair(Pad2(m), ":", Pad2(s));
    ParseIntOfPad2(m);
    ParseIntOfPad2(s);
    FieldsAreWholeSeconds(seconds);
  }

  /** The other direction: canonical text (non-negative minutes, seconds
      below 60, both zero padded) is reproduced by formatting its value. */
  lemma {:induction false} FormatOfParse(m: nat, s: nat)
    requires s < 60
    ensures TimeToSeconds(Pad2(m) + ":" + Pad2(s)) == Some(m * 60 + s)
    ensures FormatTimestamp((m * 60 + s) as real) == Pad2(m) + ":" + Pad2(s)
  {
    Pad2HasNoColon(m);
    Pad2HasNoColon(s);
    SplitOfPair(Pad2(m), ":", Pad2(s));
    ParseIntOfPad2(m);
    ParseIntOfPad2(s);
    var x := (m * 60 + s) as real;
    assert x / 60.0 == m as real + s as real / 60.0;
    assert MinutesOf(x) == m;
    assert x - 60.0 * m as real == s as real;
  }

  /** The clock starts at `00:00`. */
  lemma FormatZero()
    ensures FormatTimestamp(0.0) == "00:00"
  {
    assert MinutesOf(0.0) == 0;
    assert SecondsOf(0.0) == 0;
    assert NatToString(0) == "0";
  }

  /** Formatting only looks at the whole seconds. */
  lemma FormatDependsOnWholeSeconds(a: real, b: real)
    requires a.Floor == b.Floor
    ensures FormatTimestamp(a) == FormatTimestamp(b)
  {
    FieldsAreWholeSeconds(a);
    FieldsAreWholeSeconds(b);
    var ma, mb := MinutesOf(a), MinutesOf(b);
    var sa, sb := SecondsOf(a), SecondsOf(b);
    assert ma == mb by {
      assert ma * 60 + sa == mb * 60 + sb;
      assert (ma - mb) * 60 == sb - sa;
    }
  }
}
