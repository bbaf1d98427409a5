/** String primitives the Python code takes from its standard library:
    decimal rendering and parsing of integers, `str.split(sep)`,
    `sep.join`, `str.find`, `str.replace(pat, "")`, `str.count`,
    `str.strip()`, `str.split()` and ASCII lower-casing. Strings are
    sequences of code points, as in Python 3. */
module Text {
  import opened Results

  // ---------------------------------------------------------------------
  // Decimal digits

  predicate IsDigit(c: char) { '0' <= c <= '9' }

  predicate AllDigits(s: string) {
    forall i :: 0 <= i < |s| ==> IsDigit(s[i])
  }

  function DigitChar(d: nat): (c: char)
    requires d < 10
    ensures IsDigit(c)
  {
    (d + '0' as int) as char
  }

  function DigitValue(c: char): (d: nat)
    requires IsDigit(c)
    ensures d < 10
  {
    c as int - '0' as int
  }

  /** Decimal rendering of a natural number (Python's `str(n)` for n >= 0). */
  function NatToString(n: nat): (s: string)
    ensures |s| >= 1 && AllDigits(s)
    ensures n < 10 ==> |s| == 1
    ensures 10 <= n < 100 ==> |s| == 2
    ensures n >= 10 ==> |s| >= 2
    decreases n
  {
    if n < 10 then [DigitChar(n)] else NatToString(n / 10) + [DigitChar(n % 10)]
  }

  /** Value of a string of decimal digits, most significant first. */
  function DigitsValue(s: string): nat
    requires AllDigits(s)
  {
    if |s| == 0 then 0 else DigitsValue(s[..|s| - 1]) * 10 + DigitValue(s[|s| - 1])
  }

  lemma {:induction false} DigitsValueOfNatToString(n: nat)
    ensures DigitsValue(NatToString(n)) == n
    decreases n
  {
    if n >= 10 {
      var s := NatToString(n);
      assert s[..|s| - 1] == NatToString(n / 10);
      DigitsValueOfNatToString(n / 10);
    }
  }

  /** Python's `f"{n:02d}"`: at least two characters, zero padded for
      non-negative values; a negative value is its sign followed by its
      digits (the sign already fills the width of two). */
  function Pad2(n: int): (s: string)
    ensures n >= 0 ==> |s| >= 2 && AllDigits(s)
    ensures 0 <= n < 100 ==> |s| == 2
  {
    if n < 0 then "-" + NatToString(-n)
    else if n < 10 then "0" + NatToString(n)
    else NatToString(n)
  }

  /** Python's `int(s)` restricted to an optional sign followed by ASCII
      digits; anything else is the `ValueError` case. */
  function ParseInt(s: string): (r: Option<int>)
    ensures r.Some? ==> |s| >= 1
  {
    if |s| >= 2 && (s[0] == '-' || s[0] == '+') && AllDigits(s[1..]) then
      var v: int := DigitsValue(s[1..]);
      Some(if s[0] == '-' then -v else v)
    else if |s| >= 1 && AllDigits(s) then Some(DigitsValue(s))
    else None
  }

  lemma ParseIntOfNat(n: nat)
    ensures ParseInt(NatToString(n)) == Some(n)
  {
    DigitsValueOfNatToString(n);
  }

  /** Zero-padded two-digit rendering reads back as the same integer. */
  lemma ParseIntOfPad2(n: int)
    ensures ParseInt(Pad2(n)) == Some(n)
  {
    if n < 0 {
      ParseIntOfNegative(-n);
    } else if n < 10 {
      ParseIntOfPaddedDigit(n);
    } else {
      ParseIntOfNat(n);
    }
  }

  lemma ParseIntOfNegative(m: nat)
    requires m > 0
    ensures ParseInt("-" + NatToString(m)) == Some(-(m as int))
  {
    var s := "-" + NatToString(m);
    assert s[1..] == NatToString(m);
    DigitsValueOfNatToString(m);
  }

  lemma ParseIntOfPaddedDigit(n: nat)
    requires n < 10
    ensures ParseInt("0" + NatToString(n)) == Some(n)
  {
    var s := "0" + NatToString(n);
    assert s == ['0', DigitChar(n)];
    assert s[..|s| - 1] == ['0'];
    assert ['0'][..0] == [];
    assert DigitsValue(['0']) == 0;
    assert DigitsValue(s) == n;
  }

  // ---------------------------------------------------------------------
  // Substring search

  predicate OccursAt(s: string, pat: string, k: int) {
    0 <= k && k + |pat| <= |s| && s[k..k + |pat|] == pat
  }

  predicate Contains(s: string, pat: string) {
    exists k :: 0 <= k <= |s| && OccursAt(s, pat, k)
  }

  /** Lowest index at or after `from` where `pat` occurs in `s`. */
  function FindFrom(s: string, pat: string, from: nat): (r: Option<nat>)
    ensures r.Some? ==> from <= r.value && OccursAt(s, pat, r.value)
    ensures r.Some? ==> forall j :: from <= j < r.value ==> !OccursAt(s, pat, j)
    ensures r.None? ==> forall j :: from <= j ==> !OccursAt(s, pat, j)
    decreases |s| - from
  {
    if from + |pat| > |s| then None
    else if s[from..from + |pat|] == pat then Some(from)
    else FindFrom(s, pat, from + 1)
  }

  /** Python's `s.find(pat)` with -1 as `None`. */
  function Find(s: string, pat: string): (r: Option<nat>)
    ensures r.Some? ==> OccursAt(s, pat, r.value)
    ensures r.Some? ==> forall j :: 0 <= j < r.value ==> !OccursAt(s, pat, j)
    ensures r.None? <==> !Contains(s, pat)
  {
    FindFrom(s, pat, 0)
  }

  /** When the first character of `pat` never appears in `a`, the first
      occurrence of `pat` in `a + pat + b` is right after `a`. */
  lemma FindAfterPrefix(a: string, pat: string, b: string)
    requires |pat| > 0 && pat[0] !in a
    ensures Find(a + pat + b, pat) == Some(|a|)
  {
    var s := a + pat + b;
    assert s[|a|..|a| + |pat|] == pat;
    assert OccursAt(s, pat, |a|);
    forall j | 0 <= j < |a| ensures !OccursAt(s, pat, j) {
      assert s[j] == a[j] && a[j] in a;
      if j + |pat| <= |s| {
        assert s[j..j + |pat|][0] != pat[0];
      }
    }
    var r := Find(s, pat);
    assert r.Some?;
    assert r.value <= |a|;
  }

  /** Text appended after the first occurrence does not move it. */
  lemma FindExtend(u: string, v: string, pat: string)
    requires Find(u, pat).Some?
    ensures Find(u + v, pat) == Find(u, pat)
  {
    var k := Find(u, pat).value;
    var s := u + v;
    assert OccursAt(s, pat, k) by {
      assert s[k..k + |pat|] == u[k..k + |pat|];
    }
    forall j | 0 <= j < k ensures !OccursAt(s, pat, j) {
      assert !OccursAt(u, pat, j);
      assert s[j..j + |pat|] == u[j..j + |pat|];
    }
    var r := Find(s, pat);
    assert r.Some? by {
      assert r.None? ==> !OccursAt(s, pat, k);
    }
    assert r.value <= k by {
      assert r.value > k ==> !OccursAt(s, pat, k);
    }
  }

  lemma FindAbsent(a: string, pat: string)
    requires |pat| > 0 && pat[0] !in a
    ensures Find(a, pat) == None
  {
    forall j | 0 <= j < |a| ensures !OccursAt(a, pat, j) {
      assert a[j] in a;
      if j + |pat| <= |a| {
        assert a[j..j + |pat|][0] != pat[0];
      }
    }
  }

  // ---------------------------------------------------------------------
  // Split and join

  /** Python's `s.split(sep)` for a non-empty separator (an empty one
      raises `ValueError`, which no caller in the source can trigger). */
  function Split(s: string, sep: string): (parts: seq<string>)
    requires |sep| > 0
    ensures |parts| >= 1
    decreases |s|
  {
    match Find(s, sep)
    case None => [s]
    case Some(k) => [s[..k]] + Split(s[k + |sep|..], sep)
  }

  /** Python's `sep.join(xs)`. */
  function Join(xs: seq<string>, sep: string): string
  {
    if |xs| == 0 then "" else if |xs| == 1 then xs[0] else xs[0] + sep + Join(xs[1..], sep)
  }

  lemma JoinCons(x: string, xs: seq<string>, sep: string)
    requires |xs| >= 1
    ensures Join([x] + xs, sep) == x + sep + Join(xs, sep)
  {
    assert ([x] + xs)[1..] == xs;
  }

  /** Joining the pieces of a split with the same separator gives back
      the original text. */
  lemma {:induction false} JoinOfSplit(s: string, sep: string)
    requires |sep| > 0
    ensures Join(Split(s, sep), sep) == s
    decreases |s|
  {
    var f := Find(s, sep);
    if f.Some? {
      var k := f.value;
      var rest := s[k + |sep|..];
      assert Split(s, sep) == [s[..k]] + Split(rest, sep);
      JoinOfSplit(rest, sep);
      JoinCons(s[..k], Split(rest, sep), sep);
      Reassemble(s, sep, k);
    }
  }

  /** A text is its part before an occurrence, the occurrence and the
      rest. */
  lemma Reassemble(s: string, sep: string, k: nat)
    requires OccursAt(s, sep, k)
    ensures s == s[..k] + sep + s[k + |sep|..]
  {
    assert s[k..k + |sep|] == sep;
    assert s == s[..k] + s[k..k + |sep|] + s[k + |sep|..];
  }

  /** Splitting a join gives back the pieces, provided no piece contains
      the separator's first character. */
  lemma {:induction false} SplitOfJoin(xs: seq<string>, sep: string)
    requires |xs| >= 1 && |sep| > 0
    requires forall i :: 0 <= i < |xs| ==> sep[0] !in xs[i]
    ensures Split(Join(xs, sep), sep) == xs
    decreases |xs|
  {
    if |xs| == 1 {
      FindAbsent(xs[0], sep);
    } else {
      var rest := Join(xs[1..], sep);
      assert Join(xs, sep) == xs[0] + sep + rest;
      SplitOfCons(xs[0], sep, rest);
      SplitOfJoin(xs[1..], sep);
      assert xs == [xs[0]] + xs[1..];
    }
  }

  /** A first piece without the separator's first character splits off. */
  lemma SplitOfCons(x: string, sep: string, rest: string)
    requires |sep| > 0 && sep[0] !in x
    ensures Split(x + sep + rest, sep) == [x] + Split(rest, sep)
  {
    var s := x + sep + rest;
    FindAfterPrefix(x, sep, rest);
    assert s[|x| + |sep|..] == rest;
    assert s[..|x|] == x;
  }

  /** The two-piece special case used by the `"MM:SS"` and
      `"start - end"` parsers. */
  lemma SplitOfPair(a: string, sep: string, b: string)
    requires |sep| > 0 && sep[0] !in a && sep[0] !in b
    ensures Split(a + sep + b, sep) == [a, b]
  {
    SplitOfJoin([a, b], sep);
    assert [a, b][1..] == [b];
  }

  // ---------------------------------------------------------------------
  // Counting and removing occurrences

  /** Python's `s.count(pat)`: non-overlapping occurrences, scanned left
      to right. */
  function CountOccurrences(s: string, pat: string): nat
    requires |pat| > 0
    decreases |s|
  {
    match Find(s, pat)
    case None => 0
    case Some(k) => 1 + CountOccurrences(s[k + |pat|..], pat)
  }

  /** Python's `s.replace(pat, "")`: the same occurrences as `count`,
      each deleted. */
  function RemoveAll(s: string, pat: string): (r: string)
    requires |pat| > 0
    ensures |r| == |s| - |pat| * CountOccurrences(s, pat)
    decreases |s|
  {
    var f := Find(s, pat);
    if f.None? then s
    else
      var k := f.value;
      var rest := s[k + |pat|..];
      var r := RemoveAll(rest, pat);
      MulDistributes(|pat|, CountOccurrences(rest, pat));
      s[..k] + r
  }

  lemma MulDistributes(a: nat, c: nat)
    ensures a * (1 + c) == a + a * c
  {
  }

  /** A pattern made of one repeated character, such as a code fence. */
  predicate Uniform(pat: string) {
    |pat| > 0 && forall i :: 0 <= i < |pat| ==> pat[i] == pat[0]
  }

  /** Deleting every occurrence of a one-character run leaves none behind:
      the text before the first occurrence cannot end with that character,
      so no new occurrence forms across a deletion. */
  lemma {:induction false} RemoveAllUniformLeavesNone(s: string, pat: string)
    requires Uniform(pat)
    ensures !Contains(RemoveAll(s, pat), pat)
    decreases |s|
  {
    var f := Find(s, pat);
    var r := RemoveAll(s, pat);
    if f.Some? {
      var k := f.value;
      var rest := s[k + |pat|..];
      RemoveAllUniformLeavesNone(rest, pat);
      var tail := RemoveAll(rest, pat);
      assert r == s[..k] + tail;
      forall j: nat ensures !OccursAt(r, pat, j) {
        NoOccurrenceAcrossRemoval(s, pat, k, tail, j);
      }
    }
  }

  /** One position of the induction step above. */
  lemma NoOccurrenceAcrossRemoval(s: string, pat: string, k: nat, tail: string, j: nat)
    requires Uniform(pat) && Find(s, pat) == Some(k) && !Contains(tail, pat)
    ensures !OccursAt(s[..k] + tail, pat, j)
  {
    var r := s[..k] + tail;
    if j + |pat| <= k {
      assert r[j..j + |pat|] == s[j..j + |pat|];
      assert !OccursAt(s, pat, j);
    } else if j >= k {
      if j + |pat| <= |r| {
        SliceAfterSeam(s[..k], tail, j - k, |pat|);
        assert !OccursAt(tail, pat, j - k);
      }
    } else if j + |pat| <= |r| && r[j..j + |pat|] == pat {
      StraddleMovesEarlier(s, pat, k, tail, j);
    }
  }

  /** A slice lying after the seam of `x + y` is a slice of `y`. */
  lemma SliceAfterSeam(x: string, y: string, i: nat, n: nat)
    requires i + n <= |y|
    ensures (x + y)[|x| + i..|x| + i + n] == y[i..i + n]
  {
  }

  /** An occurrence in `x + y` lies inside `x`, inside `y`, or straddles
      the seam. */
  lemma OccurrenceInConcat(x: string, y: string, pat: string, j: int)
    requires OccursAt(x + y, pat, j)
    ensures j + |pat| <= |x| ==> OccursAt(x, pat, j)
    ensures j >= |x| ==> OccursAt(y, pat, j - |x|)
  {
    if j + |pat| <= |x| {
      assert (x + y)[j..j + |pat|] == x[j..j + |pat|];
    }
    if j >= |x| {
      assert (x + y)[j..j + |pat|] == y[j - |x|..j - |x| + |pat|];
    }
  }

  /** For a one-character run, an occurrence straddling position `k` of
      the prefix `s[..k]` means the run already occurs at `k - 1` in `s`. */
  lemma StraddleMovesEarlier(s: string, pat: string, k: nat, tail: string, j: int)
    requires Uniform(pat) && OccursAt(s, pat, k)
    requires 0 <= j < k < j + |pat| && j + |pat| <= k + |tail|
    requires (s[..k] + tail)[j..j + |pat|] == pat
    ensures OccursAt(s, pat, k - 1)
  {
    var r := s[..k] + tail;
    assert r[k - 1] == pat[k - 1 - j];
    assert s[k - 1] == pat[0];
    forall t | 0 <= t < |pat| ensures s[k - 1 + t] == pat[t] {
      if t > 0 {
        assert s[k..k + |pat|][t - 1] == pat[t - 1];
      }
    }
    assert s[k - 1..k - 1 + |pat|] == pat;
  }

  // ---------------------------------------------------------------------
  // Whitespace: Python's `str.isspace`, `str.strip()` and `str.split()`

  /** The characters Python 3's `str.isspace` accepts. */
  predicate IsSpace(c: char) {
    ('\t' <= c <= '\r') || ('\U{1C}' <= c <= '\U{1F}') || c == ' '
    || c == '\U{85}' || c == '\U{A0}' || c == '\U{1680}'
    || ('\U{2000}' <= c <= '\U{200A}') || c == '\U{2028}' || c == '\U{2029}'
    || c == '\U{202F}' || c == '\U{205F}' || c == '\U{3000}'
  }

  predicate NoSpace(s: string) {
    forall i :: 0 <= i < |s| ==> !IsSpace(s[i])
  }

  predicate AllSpace(s: string) {
    forall i :: 0 <= i < |s| ==> IsSpace(s[i])
  }

  function LeadingSpaces(s: string): (n: nat)
    ensures n <= |s| && AllSpace(s[..n])
    ensures n < |s| ==> !IsSpace(s[n])
    decreases |s|
  {
    if |s| > 0 && IsSpace(s[0]) then
      var n := 1 + LeadingSpaces(s[1..]);
      assert s[..n] == [s[0]] + s[1..][..n - 1];
      n
    else 0
  }

  function TrailingSpaces(s: string): (n: nat)
    ensures n <= |s| && AllSpace(s[|s| - n..])
    ensures n < |s| ==> !IsSpace(s[|s| - n - 1])
    ensures |s| > 0 && !IsSpace(s[0]) ==> n < |s|
    decreases |s|
  {
    if |s| > 0 && IsSpace(s[|s| - 1]) then
      var n := 1 + TrailingSpaces(s[..|s| - 1]);
      assert s[|s| - n..] == s[..|s| - 1][|s| - 1 - (n - 1)..] + [s[|s| - 1]];
      n
    else 0
  }

  /** Python's `s.strip()`. */
  function Strip(s: string): (r: string)
    ensures |r| == 0 || (!IsSpace(r[0]) && !IsSpace(r[|r| - 1]))
    ensures |r| == 0 <==> AllSpace(s)
  {
    var a := LeadingSpaces(s);
    if a == |s| then
      assert s[..a] == s;
      ""
    else
      var t := s[a..];
      var b := TrailingSpaces(t);
      assert !IsSpace(t[0]);
      assert !AllSpace(s) by { assert !IsSpace(s[a]); }
      t[..|t| - b]
  }

  /** A stripped text occurs inside the original. */
  lemma StripIsInfix(s: string)
    ensures exists a, b :: 0 <= a <= b <= |s| && Strip(s) == s[a..b]
  {
    var a := LeadingSpaces(s);
    if a == |s| {
      assert Strip(s) == s[0..0];
    } else {
      var t := s[a..];
      var b := TrailingSpaces(t);
      assert !IsSpace(t[0]);
      assert t[..|t| - b] == s[a..|s| - b];
      assert Strip(s) == s[a..|s| - b];
    }
  }

  /** The longest prefix free of whitespace. */
  function WordPrefix(s: string): (n: nat)
    ensures n <= |s| && NoSpace(s[..n])
    ensures n < |s| ==> IsSpace(s[n])
    decreases |s|
  {
    if |s| > 0 && !IsSpace(s[0]) then
      var n := 1 + WordPrefix(s[1..]);
      assert s[..n] == [s[0]] + s[1..][..n - 1];
      n
    else 0
  }

  /** Python's `s.split()` with no argument: the maximal runs of
      non-whitespace characters, in order. */
  function Words(s: string): (ws: seq<string>)
    ensures forall i :: 0 <= i < |ws| ==> |ws[i]| > 0 && NoSpace(ws[i])
    decreases |s|
  {
    var a := LeadingSpaces(s);
    if a == |s| then []
    else
      var t := s[a..];
      var n := WordPrefix(t);
      [t[..n]] + Words(t[n..])
  }

  /** Positions where a word begins: a non-space character with nothing
      or a space before it. */
  predicate WordStart(s: string, i: int) {
    0 <= i < |s| && !IsSpace(s[i]) && (i == 0 || IsSpace(s[i - 1]))
  }

  function CountWordStarts(s: string, from: nat): nat
    decreases |s| - from
  {
    if from >= |s| then 0 else (if WordStart(s, from) then 1 else 0) + CountWordStarts(s, from + 1)
  }

  lemma {:induction false} CountWordStartsShift(c: char, s: string, from: nat)
    requires from >= 1
    ensures CountWordStarts([c] + s, from + 1) == CountWordStarts(s, from)
    decreases |s| - from
  {
    if from < |s| {
      assert WordStart([c] + s, from + 1) == WordStart(s, from);
      CountWordStartsShift(c, s, from + 1);
    }
  }

  lemma {:induction false} CountWordStartsSkipSpace(s: string)
    requires |s| > 0 && IsSpace(s[0])
    ensures CountWordStarts(s, 0) == CountWordStarts(s[1..], 0)
  {
    var t := s[1..];
    assert s == [s[0]] + t;
    if |t| > 0 {
      assert WordStart(s, 1) == WordStart(t, 0);
      CountWordStartsShift(s[0], t, 1);
      assert WordStart(t, 0) ==> CountWordStarts(t, 0) == 1 + CountWordStarts(t, 1);
    }
  }

  lemma {:induction false} CountWordStartsSkipWord(s: string)
    requires |s| > 0 && !IsSpace(s[0])
    ensures CountWordStarts(s, 0) == 1 + CountWordStarts(s[1..], 0) - (if WordStart(s[1..], 0) then 1 else 0)
  {
    var t := s[1..];
    assert s == [s[0]] + t;
    if |t| > 0 {
      CountWordStartsShift(s[0], t, 1);
      assert !WordStart(s, 1);
    }
  }

  lemma {:induction false} WordsCountsWordStarts(s: string)
    ensures |Words(s)| == CountWordStarts(s, 0)
    decreases |s|, 1
  {
    if |s| == 0 {
    } else if IsSpace(s[0]) {
      CountWordStartsSkipSpace(s);
      WordsCountsWordStarts(s[1..]);
      WordsSkipSpace(s);
    } else {
      WordsOfWordStart(s);
    }
  }

  /** `len(s.split())`, counted as the positions where a word begins. */
  function WordCount(s: string): nat {
    CountWordStarts(s, 0)
  }

  /** The count agrees with the number of pieces `split()` returns. */
  lemma WordCountIsSplitLength(s: string)
    ensures WordCount(s) == |Words(s)|
  {
    WordsCountsWordStarts(s);
  }

  lemma WordsSkipSpace(s: string)
    requires |s| > 0 && IsSpace(s[0])
    ensures Words(s) == Words(s[1..])
  {
    assert LeadingSpaces(s) == 1 + LeadingSpaces(s[1..]);
    assert s[LeadingSpaces(s)..] == s[1..][LeadingSpaces(s[1..])..];
  }

  /** A text starting with a non-space character: one word for the first
      run, then the words of the remainder. */
  lemma {:induction false} WordsOfWordStart(s: string)
    requires |s| > 0 && !IsSpace(s[0])
    ensures |Words(s)| == CountWordStarts(s, 0)
    decreases |s|, 0
  {
    var n := WordPrefix(s);
    assert s[0..] == s;
    assert |Words(s)| == 1 + |Words(s[n..])|;
    WordsCountsWordStarts(s[n..]);
    WordRunCount(s, n);
  }

  /** Inside the first run of `s` there is exactly one word start. */
  lemma {:induction false} WordRunCount(s: string, n: nat)
    requires 0 < n <= |s| && NoSpace(s[..n]) && (n < |s| ==> IsSpace(s[n]))
    ensures CountWordStarts(s, 0) == 1 + CountWordStarts(s[n..], 0)
    decreases n
  {
    CountWordStartsSkipWord(s);
    if n == 1 {
      if |s| > 1 {
        assert !WordStart(s[1..], 0);
      }
    } else {
      var t := s[1..];
      assert t[..n - 1] == s[1..n];
      assert NoSpace(t[..n - 1]) by {
        forall i | 0 <= i < n - 1 ensures !IsSpace(t[i]) { assert t[i] == s[..n][i + 1]; }
      }
      assert !IsSpace(t[0]) by { assert t[0] == s[..n][1]; }
      WordRunCount(t, n - 1);
      assert t[n - 1..] == s[n..];
      CountWordStartsSkipWord(t);
      assert WordStart(t, 0);
    }
  }

  // ---------------------------------------------------------------------
  // Case

  function LowerChar(c: char): char {
    if 'A' <= c <= 'Z' then (c as int + 32) as char else c
  }

  /** ASCII lower-casing; see README for why this is enough where the
      source calls `str.lower()`. */
  function Lower(s: string): (r: string)
    ensures |r| == |s|
    ensures forall i :: 0 <= i < |s| ==> r[i] == LowerChar(s[i])
  {
    seq(|s|, i requires 0 <= i < |s| => LowerChar(s[i]))
  }

  predicate EndsWith(s: string, suffix: string) {
    |suffix| <= |s| && s[|s| - |suffix|..] == suffix
  }

  /** Index of the last occurrence of `c`, as `str.rfind`. */
  function LastIndexOf(s: string, c: char): (r: Option<nat>)
    ensures r.Some? ==> r.value < |s| && s[r.value] == c && c !in s[r.value + 1..]
    ensures r.None? <==> c !in s
    decreases |s|
  {
    if |s| == 0 then None
    else if s[|s| - 1] == c then Some(|s| - 1)
    else
      var r := LastIndexOf(s[..|s| - 1], c);
      assert r.Some? ==> s[r.value + 1..] == s[..|s| - 1][r.value + 1..] + [s[|s| - 1]];
      assert c in s[..|s| - 1] ==> c in s;
      assert c in s ==> c in s[..|s| - 1] by {
        if c in s {
          var i :| 0 <= i < |s| && s[i] == c;
          assert s[..|s| - 1][i] == c;
        }
      }
      r
  }

  /** The last `c` is the one ending `a` when `b` has none. */
  lemma LastIndexOfBeforeSuffix(a: string, c: char, b: string)
    requires |a| > 0 && a[|a| - 1] == c && c !in b
    ensures LastIndexOf(a + b, c) == Some(|a| - 1)
  {
    var s := a + b;
    assert s[|a|..] == b;
    LastIndexOfAt(s, c, |a| - 1);
  }

  /** A position holding `c` with no `c` after it is the last one. */
  lemma LastIndexOfAt(s: string, c: char, j: nat)
    requires j < |s| && s[j] == c && c !in s[j + 1..]
    ensures LastIndexOf(s, c) == Some(j)
  {
    assert s[j] in s;
    var k := LastIndexOf(s, c).value;
    assert forall i :: k < i < |s| ==> s[i] != c by {
      forall i | k < i < |s| ensures s[i] != c {
        assert s[i] == s[k + 1..][i - k - 1];
      }
    }
    assert forall i :: j < i < |s| ==> s[i] != c by {
      forall i | j < i < |s| ensures s[i] != c {
        assert s[i] == s[j + 1..][i - j - 1];
      }
    }
  }

  /** A position holding `c` with no `c` before it is the first one. */
  lemma FindCharAt(s: string, c: char, i: nat)
    requires i < |s| && s[i] == c && c !in s[..i]
    ensures Find(s, [c]) == Some(i)
  {
    assert s[i..i + 1] == [c];
    assert OccursAt(s, [c], i);
    assert forall j :: 0 <= j < i ==> !OccursAt(s, [c], j) by {
      forall j | 0 <= j < i ensures !OccursAt(s, [c], j) {
        assert s[j] == s[..i][j];
        assert s[j..j + 1][0] == s[j];
      }
    }
  }
}
