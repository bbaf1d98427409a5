/** Arithmetic folds the source computes with `sum`, `len`, `max`, `min`
    and the nested `min(100, max(0, x))` clamp. Floats are modelled as
    exact reals. */
module Numbers {

  /** Python's `sum(xs)`, added left to right. */
  function Sum(xs: seq<real>): real
  {
    if |xs| == 0 then 0.0 else Sum(xs[..|xs| - 1]) + xs[|xs| - 1]
  }

  function SumNat(xs: seq<nat>): nat
  {
    if |xs| == 0 then 0 else SumNat(xs[..|xs| - 1]) + xs[|xs| - 1]
  }

  /** `sum(xs) / len(xs)`. */
  function Mean(xs: seq<real>): real
    requires |xs| > 0
  {
    Sum(xs) / |xs| as real
  }

  /** Python's `max(xs)`. */
  function MaxOf(xs: seq<real>): (m: real)
    requires |xs| > 0
    ensures m in xs
    ensures forall i :: 0 <= i < |xs| ==> xs[i] <= m
  {
    if |xs| == 1 then xs[0]
    else
      var m := MaxOf(xs[..|xs| - 1]);
      assert forall i :: 0 <= i < |xs| - 1 ==> xs[..|xs| - 1][i] == xs[i];
      if xs[|xs| - 1] > m then xs[|xs| - 1] else m
  }

  /** Python's `min(xs)`. */
  function MinOf(xs: seq<real>): (m: real)
    requires |xs| > 0
    ensures m in xs
    ensures forall i :: 0 <= i < |xs| ==> m <= xs[i]
  {
    if |xs| == 1 then xs[0]
    else
      var m := MinOf(xs[..|xs| - 1]);
      assert forall i :: 0 <= i < |xs| - 1 ==> xs[..|xs| - 1][i] == xs[i];
      if xs[|xs| - 1] < m then xs[|xs| - 1] else m
  }

  /** Every element bounded below by `lo` and above by `hi` bounds the
      sum by `n * lo` and `n * hi`. */
  lemma {:induction false} SumBetween(xs: seq<real>, lo: real, hi: real)
    requires forall i :: 0 <= i < |xs| ==> lo <= xs[i] <= hi
    ensures |xs| as real * lo <= Sum(xs) <= |xs| as real * hi
  {
    if |xs| > 0 {
      var init := xs[..|xs| - 1];
      assert forall i :: 0 <= i < |init| ==> init[i] == xs[i];
      SumBetween(init, lo, hi);
    }
  }

  /** The mean lies between the minimum and the maximum. */
  lemma {:induction false} MeanBetweenMinAndMax(xs: seq<real>)
    requires |xs| > 0
    ensures MinOf(xs) <= Mean(xs) <= MaxOf(xs)
  {
    var lo, hi := MinOf(xs), MaxOf(xs);
    SumBetween(xs, lo, hi);
    DivideBounds(Sum(xs), |xs| as real, lo, hi);
  }

  /** `sum(xs) / len(xs) * len(xs)` gives the sum back. */
  lemma MeanTimesLength(xs: seq<real>)
    requires |xs| > 0
    ensures Mean(xs) * |xs| as real == Sum(xs)
  {
  }

  lemma ScaleMonotone(a: real, b: real, l: real)
    requires a <= b && l >= 0.0
    ensures a * l <= b * l
  {
  }

  lemma Distribute(a: real, b: real, c: real)
    ensures (a + b) * c == a * c + b * c
  {
  }

  lemma DivTimes(x: real, n: real)
    requires n != 0.0
    ensures x / n * n == x
  {
  }

  /** A non-negative total of `n >= 1` equal parts is at least one part. */
  lemma PartAtMostTotal(l: real, n: real, d: real)
    requires l >= 0.0 && n >= 1.0 && l * n == d
    ensures l <= d
  {
    ScaleMonotone(1.0, n, l);
  }

  lemma QuotientBelowOne(d: real, m: real)
    requires 0.0 <= d < m
    ensures 0.0 <= d / m < 1.0
  {
    assert d / m * m == d;
  }

  lemma QuotientAtLeastOne(d: real, m: real)
    requires 0.0 < m <= d
    ensures d / m >= 1.0
  {
    assert d / m * m == d;
  }

  lemma DivideBounds(s: real, n: real, lo: real, hi: real)
    requires n > 0.0 && n * lo <= s <= n * hi
    ensures lo <= s / n <= hi
  {
    assert s / n * n == s;
  }

  /** Python's `min(hi, max(lo, x))`. */
  function Clamp(x: real, lo: real, hi: real): (r: real)
    requires lo <= hi
    ensures lo <= r <= hi
    ensures lo <= x <= hi ==> r == x
    ensures x < lo ==> r == lo
    ensures x > hi ==> r == hi
  {
    if hi < (if lo < x then x else lo) then hi else if lo < x then x else lo
  }

  /** The spread `max - min` of a non-empty sequence: the largest
      difference between two of its elements. */
  function Spread(xs: seq<real>): (r: real)
    requires |xs| > 0
    ensures r >= 0.0
    ensures forall i, j :: 0 <= i < |xs| && 0 <= j < |xs| ==> xs[i] - xs[j] <= r
    ensures exists i, j :: 0 <= i < |xs| && 0 <= j < |xs| && xs[i] - xs[j] == r
  {
    MaxOf(xs) - MinOf(xs)
  }
}
