/** Folds over a sequence of emotion labels: the counting dictionary,
    distinct labels in first-seen order, the dominant label picked by a
    stable descending sort on counts, and adjacent transitions. The data
    processor's `calculate_emotion_stats` and both visualisation helpers
    are built from these. */
module EmotionStats {
  import opened Sorting
  import opened Numbers
  import Timeline

  /** Occurrences of `x` in `xs`. */
  function Count(xs: seq<string>, x: string): nat {
    multiset(xs)[x]
  }

  /** The labels of `xs` without repeats, in order of first appearance. */
  function Distinct(xs: seq<string>): (d: seq<string>)
    ensures forall x :: x in d <==> x in xs
    ensures forall i, j :: 0 <= i < j < |d| ==> d[i] != d[j]
    ensures |d| <= |xs|
  {
    if |xs| == 0 then []
    else
      var init := xs[..|xs| - 1];
      var d := Distinct(init);
      assert xs == init + [xs[|xs| - 1]];
      if xs[|xs| - 1] in d then d else d + [xs[|xs| - 1]]
  }

  /** The keys of a counting dictionary, in insertion order. */
  function Keys(t: seq<(string, nat)>): (ks: seq<string>)
    ensures |ks| == |t|
    ensures forall i :: 0 <= i < |t| ==> ks[i] == t[i].0
  {
    seq(|t|, i requires 0 <= i < |t| => t[i].0)
  }

  predicate UniqueKeys(t: seq<(string, nat)>) {
    forall i, j :: 0 <= i < j < |t| ==> t[i].0 != t[j].0
  }

  /** `counts[x] = counts.get(x, 0) + 1` on a dictionary kept as its
      items in insertion order. */
  function Bump(t: seq<(string, nat)>, x: string): (r: seq<(string, nat)>)
    requires UniqueKeys(t)
    ensures UniqueKeys(r)
    ensures |r| == if x in Keys(t) then |t| else |t| + 1
    ensures forall i :: 0 <= i < |t| ==> r[i] == (t[i].0, if t[i].0 == x then t[i].1 + 1 else t[i].1)
    ensures x !in Keys(t) ==> r[|t|] == (x, 1)
  {
    if x in Keys(t) then
      seq(|t|, i requires 0 <= i < |t| => if t[i].0 == x then (x, t[i].1 + 1) else t[i])
    else
      t + [(x, 1)]
  }

  /** The counting dictionary of `xs`: each distinct label, in first-seen
      order, with its number of occurrences. */
  function Tally(xs: seq<string>): (t: seq<(string, nat)>)
    ensures UniqueKeys(t)
    ensures Keys(t) == Distinct(xs)
    ensures forall i :: 0 <= i < |t| ==> t[i].1 == Count(xs, t[i].0)
  {
    if |xs| == 0 then []
    else
      var init := xs[..|xs| - 1];
      var x := xs[|xs| - 1];
      assert xs == init + [x];
      assert forall y :: Count(xs, y) == Count(init, y) + (if y == x then 1 else 0);
      Bump(Tally(init), x)
  }

  function SumCounts(t: seq<(string, nat)>): nat {
    if |t| == 0 then 0 else t[0].1 + SumCounts(t[1..])
  }

  lemma {:induction false} SumCountsBump(t: seq<(string, nat)>, x: string)
    requires UniqueKeys(t)
    ensures SumCounts(Bump(t, x)) == SumCounts(t) + 1
    decreases |t|
  {
    if |t| > 0 && t[0].0 != x {
      SumCountsBump(t[1..], x);
      assert Bump(t, x)[1..] == Bump(t[1..], x);
    } else if |t| > 0 {
      assert Bump(t, x)[1..] == t[1..];
    }
  }

  /** The counts add up to the number of labels. */
  lemma {:induction false} TallySum(xs: seq<string>)
    ensures SumCounts(Tally(xs)) == |xs|
  {
    if |xs| > 0 {
      var init := xs[..|xs| - 1];
      TallySum(init);
      SumCountsBump(Tally(init), xs[|xs| - 1]);
    }
  }

  // ---------------------------------------------------------------------
  // The dominant label

  /** `key=lambda x: x[1], reverse=True`: higher counts first; the sort is
      stable, so entries with equal counts keep their order. */
  function ByCountDesc(a: (string, nat), b: (string, nat)): bool {
    a.1 >= b.1
  }

  lemma ByCountDescIsTotal()
    ensures TotalPreorder(ByCountDesc)
  {
  }

  /** The first entry with the largest count, scanning left to right. */
  function FirstMax(t: seq<(string, nat)>): (m: (string, nat))
    requires |t| > 0
    ensures m in t
    ensures forall i :: 0 <= i < |t| ==> t[i].1 <= m.1
    ensures exists k :: 0 <= k < |t| && t[k] == m && forall j :: 0 <= j < k ==> t[j].1 < m.1
  {
    if |t| == 1 then t[0]
    else
      var init := t[..|t| - 1];
      var m := FirstMax(init);
      assert forall i :: 0 <= i < |init| ==> init[i] == t[i];
      if t[|t| - 1].1 > m.1 then
        assert forall j :: 0 <= j < |t| - 1 ==> t[j].1 < t[|t| - 1].1;
        t[|t| - 1]
      else m
  }

  lemma {:induction false} InsertHead(x: (string, nat), s: seq<(string, nat)>)
    requires Sorted(s, ByCountDesc)
    ensures Insert(x, s, ByCountDesc)[0] == if |s| == 0 || x.1 > s[0].1 then x else s[0]
    decreases |s|
  {
    if |s| > 0 && !ByCountDesc(s[|s| - 1], x) {
      var init := s[..|s| - 1];
      if |init| > 0 {
        assert Sorted(init, ByCountDesc);
        InsertHead(x, init);
        assert init[0] == s[0];
      }
    }
  }

  /** The head of the stable descending sort is the first entry with the
      largest count: ties go to the label seen first. */
  lemma {:induction false} SortHeadIsFirstMax(t: seq<(string, nat)>)
    requires |t| > 0
    ensures Sort(t, ByCountDesc)[0] == FirstMax(t)
    decreases |t|
  {
    if |t| > 1 {
      var init := t[..|t| - 1];
      SortHeadIsFirstMax(init);
      ByCountDescIsTotal();
      SortSorted(init, ByCountDesc);
      InsertHead(t[|t| - 1], Sort(init, ByCountDesc));
    }
  }

  /** `sorted_counts[0][0]`, or "none" for no labels. */
  function Dominant(xs: seq<string>): (e: (string, nat))
    ensures |xs| == 0 ==> e == ("none", 0)
  {
    var sorted := Sort(Tally(xs), ByCountDesc);
    if |sorted| == 0 then ("none", 0) else sorted[0]
  }

  /** The dominant label occurs at least as often as any other, and no
      label seen before it occurs as often. */
  lemma DominantIsFirstMostFrequent(xs: seq<string>)
    requires |xs| > 0
    ensures var (e, c) := Dominant(xs);
      && e in xs && c == Count(xs, e)
      && (forall y :: y in xs ==> Count(xs, y) <= c)
      && (forall i :: 0 <= i < |xs| && Count(xs, xs[i]) == c ==> e in xs[..i + 1])
  {
    var t := Tally(xs);
    assert xs[0] in Distinct(xs);
    SortHeadIsFirstMax(t);
    var m := FirstMax(t);
    assert m.0 in Keys(t);
    forall y | y in xs ensures Count(xs, y) <= m.1 {
      TallyMaxBound(xs, y);
    }
    forall i | 0 <= i < |xs| && Count(xs, xs[i]) == m.1 ensures m.0 in xs[..i + 1] {
      TallyFirstTie(xs, i);
    }
  }

  lemma TallyMaxBound(xs: seq<string>, y: string)
    requires y in xs
    ensures |Tally(xs)| > 0 && Count(xs, y) <= FirstMax(Tally(xs)).1
  {
    var t := Tally(xs);
    assert y in Keys(t);
    var i :| 0 <= i < |t| && Keys(t)[i] == y;
  }

  lemma TallyFirstTie(xs: seq<string>, i: nat)
    requires i < |xs|
    requires |Tally(xs)| > 0 && Count(xs, xs[i]) == FirstMax(Tally(xs)).1
    ensures FirstMax(Tally(xs)).0 in xs[..i + 1]
  {
    var t := Tally(xs);
    var m := FirstMax(t);
    var k :| 0 <= k < |t| && t[k] == m && forall j :: 0 <= j < k ==> t[j].1 < m.1;
    FirstSeenOrder(xs, i, k);
  }

  /** If a label's first-seen position is before that of key `k`, it is
      one of the keys before `k`; so a label at position `i` whose count
      ties the first maximum cannot come before it. */
  lemma FirstSeenOrder(xs: seq<string>, i: nat, k: nat)
    requires i < |xs| && k < |Tally(xs)|
    requires forall j :: 0 <= j < k ==> Tally(xs)[j].1 < Tally(xs)[k].1
    requires Count(xs, xs[i]) == Tally(xs)[k].1
    ensures Tally(xs)[k].0 in xs[..i + 1]
  {
    var p := PlaceOf(xs, i);
    assert k <= p by { KeyNotBefore(xs, i, k, p); }
    assert p < |Distinct(xs[..i + 1])| by { InPrefixDistinct(xs, i, p); }
    EarlyKeyInPrefix(xs, i + 1, k);
    TallyKey(xs, k);
  }

  /** The place of a label among the distinct labels. */
  lemma PlaceOf(xs: seq<string>, i: nat) returns (p: nat)
    requires i < |xs|
    ensures p < |Distinct(xs)| && Distinct(xs)[p] == xs[i]
  {
    var d := Distinct(xs);
    assert xs[i] in d;
    p :| 0 <= p < |d| && d[p] == xs[i];
  }

  lemma TallyKey(xs: seq<string>, k: nat)
    requires k < |Tally(xs)|
    ensures k < |Distinct(xs)| && Tally(xs)[k].0 == Distinct(xs)[k]
  {
    assert Tally(xs)[k].0 == Keys(Tally(xs))[k];
  }

  /** A key among the first `|Distinct(xs[..n])|` is seen within the first
      `n` labels. */
  lemma EarlyKeyInPrefix(xs: seq<string>, n: nat, k: nat)
    requires n <= |xs| && k < |Distinct(xs[..n])|
    ensures k < |Distinct(xs)| && Distinct(xs)[k] in xs[..n]
  {
    var dp := Distinct(xs[..n]);
    DistinctPrefix(xs, n);
    assert dp[k] in dp;
  }

  /** The key of `xs[i]` is not before key `k`, whose count is larger than
      those of all earlier keys. */
  lemma KeyNotBefore(xs: seq<string>, i: nat, k: nat, p: nat)
    requires i < |xs| && k < |Tally(xs)|
    requires forall j :: 0 <= j < k ==> Tally(xs)[j].1 < Tally(xs)[k].1
    requires Count(xs, xs[i]) == Tally(xs)[k].1
    requires p < |Distinct(xs)| && Distinct(xs)[p] == xs[i]
    ensures k <= p
  {
    var t := Tally(xs);
    assert t[p].0 == Keys(t)[p] == xs[i];
  }

  /** The label at position `i` is among the distinct labels of the prefix
      up to it, at its place in the whole. */
  lemma InPrefixDistinct(xs: seq<string>, i: nat, p: nat)
    requires i < |xs| && p < |Distinct(xs)| && Distinct(xs)[p] == xs[i]
    ensures p < |Distinct(xs[..i + 1])|
  {
    var d, dp := Distinct(xs), Distinct(xs[..i + 1]);
    DistinctPrefix(xs, i + 1);
    assert xs[i] == xs[..i + 1][i];
    assert xs[i] in dp;
    var q :| 0 <= q < |dp| && dp[q] == xs[i];
    assert d[q] == d[p];
  }

  /** The distinct labels of a prefix are a prefix of the distinct labels. */
  lemma {:induction false} DistinctPrefix(xs: seq<string>, n: nat)
    requires n <= |xs|
    ensures var p := Distinct(xs[..n]); |p| <= |Distinct(xs)| && p == Distinct(xs)[..|p|]
    decreases |xs|
  {
    if n < |xs| {
      var init := xs[..|xs| - 1];
      assert init[..n] == xs[..n];
      DistinctPrefix(init, n);
    } else {
      assert xs[..n] == xs;
    }
  }

  // ---------------------------------------------------------------------
  // Transitions

  /** Number of adjacent positions whose labels differ. */
  function Transitions(xs: seq<string>): (n: nat)
    ensures |xs| > 0 ==> n <= |xs| - 1
  {
    if |xs| <= 1 then 0
    else Transitions(xs[..|xs| - 1]) + (if xs[|xs| - 1] != xs[|xs| - 2] then 1 else 0)
  }

  /** No transition exactly when every label is the first one. */
  lemma {:induction false} NoTransitionsIffConstant(xs: seq<string>)
    ensures Transitions(xs) == 0 <==> forall i :: 0 <= i < |xs| ==> xs[i] == xs[0]
  {
    if |xs| > 1 {
      var init := xs[..|xs| - 1];
      NoTransitionsIffConstant(init);
      assert forall i :: 0 <= i < |init| ==> init[i] == xs[i];
      if Transitions(xs) == 0 {
        assert xs[|xs| - 1] == xs[|xs| - 2];
      }
    }
  }

  /** Each new label needs a transition into it, so the distinct labels
      number at most one more than the transitions. */
  lemma {:induction false} DistinctBoundedByTransitions(xs: seq<string>)
    requires |xs| > 0
    ensures |Distinct(xs)| <= Transitions(xs) + 1
  {
    if |xs| > 1 {
      var init := xs[..|xs| - 1];
      DistinctBoundedByTransitions(init);
      assert xs[|xs| - 2] == init[|init| - 1];
      assert xs[|xs| - 2] in init;
    }
  }

  /** Position `i` starts a new label. */
  predicate ShiftAt(xs: seq<string>, i: int) {
    1 <= i < |xs| && xs[i] != xs[i - 1]
  }

  /** The positions `i >= 1` whose label differs from the one before. */
  function ShiftPositions(xs: seq<string>): (ps: seq<nat>)
    ensures forall i: nat :: i in ps <==> ShiftAt(xs, i)
    ensures forall a, b :: 0 <= a < b < |ps| ==> ps[a] < ps[b]
    ensures forall a :: 0 <= a < |ps| ==> 1 <= ps[a] < |xs|
  {
    if |xs| <= 1 then []
    else
      var n := |xs| - 1;
      var ps := ShiftPositions(xs[..n]);
      forall i | 0 <= i ensures ShiftAt(xs[..n], i) <==> i < n && ShiftAt(xs, i) {
        if 1 <= i < n {
          assert xs[..n][i] == xs[i] && xs[..n][i - 1] == xs[i - 1];
        }
      }
      if xs[n] != xs[n - 1] then ps + [n] else ps
  }

  /** The text of one transition, `f"{a} → {b}"`. */
  function Arrow(a: string, b: string): string {
    a + " \U{2192} " + b
  }

  /** The transitions as text: entry `k` names the labels either side of
      the `k`-th shift position, so the list has one entry per
      transition, in order. */
  function TransitionList(xs: seq<string>): (ts: seq<string>)
    ensures |ts| == Transitions(xs) == |ShiftPositions(xs)|
    ensures forall k :: 0 <= k < |ts| ==>
      ts[k] == Arrow(xs[ShiftPositions(xs)[k] - 1], xs[ShiftPositions(xs)[k]])
  {
    if |xs| <= 1 then []
    else
      var n := |xs| - 1;
      var init := xs[..n];
      var ts := TransitionList(init);
      var ps := ShiftPositions(init);
      forall k | 0 <= k < |ps| ensures init[ps[k] - 1] == xs[ps[k] - 1] && init[ps[k]] == xs[ps[k]] {
      }
      ts + (if xs[n] != xs[n - 1] then [Arrow(xs[n - 1], xs[n])] else [])
  }

  // ---------------------------------------------------------------------
  // The data processor's statistics

  function Labels(segs: seq<Timeline.Segment>): (xs: seq<string>)
    ensures |xs| == |segs|
    ensures forall i :: 0 <= i < |segs| ==> xs[i] == segs[i].emotion
  {
    seq(|segs|, i requires 0 <= i < |segs| => segs[i].emotion)
  }

  /** The dictionary `calculate_emotion_stats` returns (the percentage is
      not rounded here). */
  datatype Stats = Stats(
    counts: seq<(string, nat)>,
    dominant: string,
    dominantPercentage: real,
    diversity: nat,
    transitions: nat)

  function Percent(c: nat, n: nat): real
    requires n > 0
  {
    c as real / n as real * 100.0
  }

  lemma PercentBounds(c: nat, n: nat)
    requires 0 < c <= n
    ensures 0.0 < Percent(c, n) <= 100.0
  {
    assert c as real / n as real <= 1.0 by {
      assert c as real / n as real * n as real == c as real;
    }
  }

  /** `calculate_emotion_stats`: "none" and zeros for no segments;
      otherwise the counts pair each distinct label, in first-seen
      order, with its number of occurrences and cover every segment, the
      diversity is the number of distinct labels, the transitions are
      the adjacent label changes, and the dominant label is a most
      frequent one -- among those, the one seen first -- with its share. */
  function CalculateEmotionStats(segs: seq<Timeline.Segment>): (st: Stats)
    ensures |segs| == 0 ==> st == Stats([], "none", 0.0, 0, 0)
    ensures |segs| > 0 ==> Keys(st.counts) == Distinct(Labels(segs))
    ensures |segs| > 0 ==> forall i :: 0 <= i < |st.counts| ==> st.counts[i].1 == Count(Labels(segs), st.counts[i].0)
    ensures |segs| > 0 ==> SumCounts(st.counts) == |segs|
    ensures |segs| > 0 ==> st.diversity == |Distinct(Labels(segs))|
    ensures |segs| > 0 ==> st.transitions == Transitions(Labels(segs)) == |ShiftPositions(Labels(segs))|
    ensures |segs| > 0 ==> st.transitions <= |segs| - 1
    ensures |segs| > 0 ==> st.dominant in Labels(segs)
    ensures |segs| > 0 ==> forall y :: y in Labels(segs) ==> Count(Labels(segs), y) <= Count(Labels(segs), st.dominant)
    ensures |segs| > 0 ==> forall i :: 0 <= i < |segs| && Count(Labels(segs), segs[i].emotion) == Count(Labels(segs), st.dominant) ==>
      st.dominant in Labels(segs)[..i + 1]
    ensures |segs| > 0 ==> st.dominantPercentage == Percent(Count(Labels(segs), st.dominant), |segs|)
    ensures |segs| > 0 ==> 0.0 < st.dominantPercentage <= 100.0
  {
    if |segs| == 0 then Stats([], "none", 0.0, 0, 0)
    else
      var xs := Labels(segs);
      var counts := Tally(xs);
      var (e, c) := Dominant(xs);
      TallySum(xs);
      DominantIsFirstMostFrequent(xs);
      assert xs[0] in xs;
      assert 0 < c <= |xs| by {
        assert Count(xs, e) <= |xs|;
      }
      PercentBounds(c, |xs|);
      assert Transitions(xs) == |ShiftPositions(xs)| by {
        assert |TransitionList(xs)| == Transitions(xs);
      }
      Stats(counts, e, Percent(c, |xs|), |counts|, Transitions(xs))
  }

  // ---------------------------------------------------------------------
  // The visualisation helpers' metrics and distribution

  /** `calculate_emotion_metrics` (either helper): the counts as
      `value_counts` orders them, highest first; the main label and its
      share; versatility `min(diversity / 5 * 100, 100)`; the transition
      texts. */
  datatype Metrics = Metrics(
    counts: seq<(string, nat)>,
    diversity: nat,
    mainEmotion: string,
    mainPercentage: real,
    versatility: real,
    transitions: seq<string>)

  function Versatility(diversity: nat): (v: real)
    ensures 0.0 <= v <= 100.0
    ensures diversity >= 5 <==> v == 100.0
  {
    var raw := diversity as real / 5.0 * 100.0;
    if raw < 100.0 then raw else 100.0
  }

  function CalculateEmotionMetrics(xs: seq<string>): (m: Metrics)
    ensures 0.0 <= m.versatility <= 100.0
    ensures m.versatility == 100.0 <==> |Distinct(xs)| >= 5
    ensures m.diversity == |Distinct(xs)|
    ensures |xs| == 0 ==> m.mainEmotion == "None" && m.mainPercentage == 0.0 && m.transitions == []
    ensures |xs| > 0 ==> m.mainEmotion in xs
    ensures |xs| > 0 ==> forall y :: y in xs ==> Count(xs, y) <= Count(xs, m.mainEmotion)
    ensures |xs| > 0 ==> m.mainPercentage == Percent(Count(xs, m.mainEmotion), |xs|)
    ensures Sorted(m.counts, ByCountDesc)
    ensures multiset(m.counts) == multiset(Tally(xs))
    ensures m.transitions == TransitionList(xs)
    ensures |m.transitions| == Transitions(xs)
  {
    var counts := Sort(Tally(xs), ByCountDesc);
    assert Sorted(counts, ByCountDesc) by {
      ByCountDescIsTotal();
      SortSorted(Tally(xs), ByCountDesc);
    }
    var (main, pct) :=
      if |xs| > 0 then
        DominantIsFirstMostFrequent(xs);
        (counts[0].0, Percent(counts[0].1, |xs|))
      else ("None", 0.0);
    var ts := if |xs| > 1 then TransitionList(xs) else [];
    assert ts == TransitionList(xs);
    Metrics(counts, |counts|, main, pct, Versatility(|counts|), ts)
  }

  /** The metrics' main label is the processor's dominant label, and
      the metrics list one text per transition the processor counts. */
  lemma MainEmotionIsDominant(segs: seq<Timeline.Segment>)
    requires |segs| > 0
    ensures CalculateEmotionMetrics(Labels(segs)).mainEmotion == CalculateEmotionStats(segs).dominant
    ensures |CalculateEmotionMetrics(Labels(segs)).transitions| == CalculateEmotionStats(segs).transitions
  {
  }

  /** `prepare_emotion_distribution_data`: labels in first-seen order,
      their counts, and each count as a share of the total. */
  datatype Distribution = Distribution(labels: seq<string>, values: seq<nat>, percentages: seq<real>)

  function Values(t: seq<(string, nat)>): (vs: seq<nat>)
    ensures |vs| == |t|
  {
    seq(|t|, i requires 0 <= i < |t| => t[i].1)
  }

  function Shares(vs: seq<nat>, total: nat): (ps: seq<real>)
    requires total > 0
    ensures |ps| == |vs|
  {
    seq(|vs|, i requires 0 <= i < |vs| => Percent(vs[i], total))
  }

  function EmotionDistribution(xs: seq<string>): (d: Distribution)
    ensures d.labels == Distinct(xs)
    ensures |d.values| == |d.labels| == |d.percentages|
    ensures forall i :: 0 <= i < |d.values| ==> d.values[i] == Count(xs, d.labels[i])
    ensures SumNat(d.values) == |xs|
    ensures |xs| > 0 ==> forall i :: 0 <= i < |d.percentages| ==> d.percentages[i] == Percent(d.values[i], |xs|)
    ensures |xs| == 0 ==> d.percentages == []
  {
    var t := Tally(xs);
    TallySum(xs);
    SumOfValues(t);
    var vs := Values(t);
    Distribution(Keys(t), vs, if |xs| > 0 then Shares(vs, |xs|) else [])
  }

  lemma {:induction false} SumOfValues(t: seq<(string, nat)>)
    ensures SumNat(Values(t)) == SumCounts(t)
    decreases |t|
  {
    if |t| > 0 {
      SumOfValues(t[1..]);
      SumNatCons(t[0].1, Values(t[1..]));
      assert Values(t) == [t[0].1] + Values(t[1..]);
    }
  }

  lemma {:induction false} SumNatCons(v: nat, vs: seq<nat>)
    ensures SumNat([v] + vs) == v + SumNat(vs)
    decreases |vs|
  {
    if |vs| > 0 {
      var s := [v] + vs;
      assert s[..|s| - 1] == [v] + vs[..|vs| - 1];
      SumNatCons(v, vs[..|vs| - 1]);
    }
  }

  lemma {:induction false} SharesSum(vs: seq<nat>, total: nat)
    requires total > 0
    ensures Sum(Shares(vs, total)) == Percent(SumNat(vs), total)
    decreases |vs|
  {
    if |vs| > 0 {
      var init, last := vs[..|vs| - 1], vs[|vs| - 1];
      SharesSum(init, total);
      assert Shares(vs, total)[..|vs| - 1] == Shares(init, total);
      assert Sum(Shares(vs, total)) == Sum(Shares(init, total)) + Percent(last, total);
      assert SumNat(vs) == SumNat(init) + last;
      PercentAdd(SumNat(init), last, total);
    }
  }

  lemma PercentAdd(a: nat, b: nat, total: nat)
    requires total > 0
    ensures Percent(a, total) + Percent(b, total) == Percent(a + b, total)
  {
    var t := total as real;
    var x, y := a as real / t, b as real / t;
    assert x * t == a as real && y * t == b as real;
    assert (x + y) * t == (a + b) as real;
    assert (a + b) as real / t == x + y;
  }

  /** The shares of a non-empty distribution add up to 100. */
  lemma DistributionSharesSumTo100(xs: seq<string>)
    requires |xs| > 0
    ensures Sum(EmotionDistribution(xs).percentages) == 100.0
  {
    var d := EmotionDistribution(xs);
    assert d.percentages == Shares(d.values, |xs|);
    SharesSumTo100(d.values, |xs|);
  }

  lemma SharesSumTo100(vs: seq<nat>, total: nat)
    requires total > 0 && SumNat(vs) == total
    ensures Sum(Shares(vs, total)) == 100.0
  {
    SharesSum(vs, total);
    PercentOfWhole(total);
  }

  lemma PercentOfWhole(total: nat)
    requires total > 0
    ensures Percent(total, total) == 100.0
  {
    var n := total as real;
    assert n / n == 1.0;
  }
}
