/** Stable sorting, as Python's `sorted` performs it: an insertion sort
    that places each later element after every earlier one it does not
    precede. The order is any total preorder `le` ("sorts no later than"). */
module Sorting {

  ghost predicate TotalPreorder<T(!new)>(le: (T, T) -> bool) {
    && (forall a, b :: le(a, b) || le(b, a))
    && (forall a, b, c :: le(a, b) && le(b, c) ==> le(a, c))
  }

  predicate Sorted<T>(s: seq<T>, le: (T, T) -> bool) {
    forall i, j :: 0 <= i < j < |s| ==> le(s[i], s[j])
  }

  /** Inserts `x` right after the last element that sorts no later than it. */
  function Insert<T>(x: T, s: seq<T>, le: (T, T) -> bool): (r: seq<T>)
    ensures multiset(r) == multiset(s) + multiset{x}
    ensures |r| == |s| + 1
  {
    if |s| == 0 then [x]
    else if le(s[|s| - 1], x) then s + [x]
    else
      var r := Insert(x, s[..|s| - 1], le) + [s[|s| - 1]];
      assert s == s[..|s| - 1] + [s[|s| - 1]];
      r
  }

  /** Python's `sorted(xs, key=...)`: each element in turn is inserted into
      the sorted arrangement of those before it. */
  function Sort<T>(xs: seq<T>, le: (T, T) -> bool): (r: seq<T>)
    ensures multiset(r) == multiset(xs)
    ensures |r| == |xs|
  {
    if |xs| == 0 then []
    else
      assert xs == xs[..|xs| - 1] + [xs[|xs| - 1]];
      Insert(xs[|xs| - 1], Sort(xs[..|xs| - 1], le), le)
  }

  lemma {:induction false} InsertSorted<T(!new)>(x: T, s: seq<T>, le: (T, T) -> bool)
    requires TotalPreorder(le) && Sorted(s, le)
    ensures Sorted(Insert(x, s, le), le)
    decreases |s|
  {
    if |s| > 0 && !le(s[|s| - 1], x) {
      var init := s[..|s| - 1];
      var last := s[|s| - 1];
      assert Sorted(init, le);
      InsertSorted(x, init, le);
      var r := Insert(x, init, le);
      forall i | 0 <= i < |r| ensures le(r[i], last) {
        assert r[i] in multiset(r);
        if r[i] != x {
          assert r[i] in multiset(init);
          var k :| 0 <= k < |init| && init[k] == r[i];
          assert le(s[k], s[|s| - 1]);
        }
      }
    }
  }

  /** `Sort` produces an arrangement ordered by `le`. */
  lemma {:induction false} SortSorted<T(!new)>(xs: seq<T>, le: (T, T) -> bool)
    requires TotalPreorder(le)
    ensures Sorted(Sort(xs, le), le)
    decreases |xs|
  {
    if |xs| > 0 {
      SortSorted(xs[..|xs| - 1], le);
      InsertSorted(xs[|xs| - 1], Sort(xs[..|xs| - 1], le), le);
    }
  }

  /** The elements of `s` that `le` cannot tell apart from `x0`, in order. */
  function EquivalentTo<T>(s: seq<T>, x0: T, le: (T, T) -> bool): seq<T>
  {
    if |s| == 0 then []
    else
      EquivalentTo(s[..|s| - 1], x0, le)
      + (if le(s[|s| - 1], x0) && le(x0, s[|s| - 1]) then [s[|s| - 1]] else [])
  }

  lemma EquivalentToSnoc<T>(s: seq<T>, x: T, x0: T, le: (T, T) -> bool)
    ensures EquivalentTo(s + [x], x0, le)
         == EquivalentTo(s, x0, le) + (if le(x, x0) && le(x0, x) then [x] else [])
  {
    assert (s + [x])[..|s|] == s;
  }

  lemma {:induction false} InsertStable<T(!new)>(x: T, s: seq<T>, x0: T, le: (T, T) -> bool)
    requires TotalPreorder(le)
    ensures EquivalentTo(Insert(x, s, le), x0, le)
         == EquivalentTo(s, x0, le) + (if le(x, x0) && le(x0, x) then [x] else [])
    decreases |s|
  {
    if |s| == 0 {
      EquivalentToSnoc([], x, x0, le);
    } else if le(s[|s| - 1], x) {
      EquivalentToSnoc(s, x, x0, le);
    } else {
      var init, last := s[..|s| - 1], s[|s| - 1];
      assert s == init + [last];
      InsertStable(x, init, x0, le);
      // `last` sorts strictly after `x`, hence it is not equivalent to `x0` when `x` is
      assert le(x, x0) && le(x0, x) ==> !(le(last, x0) && le(x0, last));
      InsertStableStep(x, init, last, x0, le);
    }
  }

  /** The step of `InsertStable` past a larger last element. */
  lemma InsertStableStep<T>(x: T, init: seq<T>, last: T, x0: T, le: (T, T) -> bool)
    requires !le(last, x)
    requires le(x, x0) && le(x0, x) ==> !(le(last, x0) && le(x0, last))
    requires EquivalentTo(Insert(x, init, le), x0, le)
          == EquivalentTo(init, x0, le) + (if le(x, x0) && le(x0, x) then [x] else [])
    ensures EquivalentTo(Insert(x, init + [last], le), x0, le)
         == EquivalentTo(init + [last], x0, le) + (if le(x, x0) && le(x0, x) then [x] else [])
  {
    var tx := if le(x, x0) && le(x0, x) then [x] else [];
    var tl := if le(last, x0) && le(x0, last) then [last] else [];
    InsertPastLarger(x, init, last, le);
    EquivalentToSnoc(Insert(x, init, le), last, x0, le);
    EquivalentToSnoc(init, last, x0, le);
    AppendSwap(EquivalentTo(init, x0, le), tx, tl);
  }

  /** An element that sorts before the last one goes in front of it. */
  lemma InsertPastLarger<T>(x: T, init: seq<T>, last: T, le: (T, T) -> bool)
    requires !le(last, x)
    ensures Insert(x, init + [last], le) == Insert(x, init, le) + [last]
  {
    var s := init + [last];
    assert s[..|s| - 1] == init && s[|s| - 1] == last;
  }

  /** Two tails, one of them empty, can be appended in either order. */
  lemma AppendSwap<T>(a: seq<T>, t: seq<T>, u: seq<T>)
    requires t == [] || u == []
    ensures a + t + u == a + u + t
  {
    if t == [] {
      assert a + t == a;
    } else {
      assert a + u == a;
    }
  }

  /** Stability: among elements `le` cannot tell apart, `Sort` keeps the
      input order. */
  lemma {:induction false} SortStable<T(!new)>(xs: seq<T>, x0: T, le: (T, T) -> bool)
    requires TotalPreorder(le)
    ensures EquivalentTo(Sort(xs, le), x0, le) == EquivalentTo(xs, x0, le)
    decreases |xs|
  {
    if |xs| > 0 {
      var init, last := xs[..|xs| - 1], xs[|xs| - 1];
      assert xs == init + [last];
      SortStable(init, x0, le);
      InsertStable(last, Sort(init, le), x0, le);
      SortStableStep(init, last, x0, le);
    }
  }

  /** The inductive step of `SortStable`, apart from the ordering facts. */
  lemma SortStableStep<T>(init: seq<T>, last: T, x0: T, le: (T, T) -> bool)
    requires EquivalentTo(Sort(init, le), x0, le) == EquivalentTo(init, x0, le)
    requires EquivalentTo(Insert(last, Sort(init, le), le), x0, le)
          == EquivalentTo(Sort(init, le), x0, le) + (if le(last, x0) && le(x0, last) then [last] else [])
    ensures EquivalentTo(Sort(init + [last], le), x0, le) == EquivalentTo(init + [last], x0, le)
  {
    var xs := init + [last];
    assert xs[..|xs| - 1] == init && xs[|xs| - 1] == last;
    assert Sort(xs, le) == Insert(last, Sort(init, le), le);
    EquivalentToSnoc(init, last, x0, le);
  }

  /** Sorting an arrangement that is already ordered changes nothing. */
  lemma {:induction false} SortOfSorted<T>(xs: seq<T>, le: (T, T) -> bool)
    requires Sorted(xs, le)
    ensures Sort(xs, le) == xs
    decreases |xs|
  {
    if |xs| > 0 {
      var init := xs[..|xs| - 1];
      assert Sorted(init, le) by {
        SortedPrefix(xs, le, |xs| - 1);
      }
      SortOfSorted(init, le);
      SortOfSortedStep(xs, le);
    }
  }

  /** The inductive step: the last element of an ordered arrangement is
      appended where it stands. */
  lemma SortOfSortedStep<T>(xs: seq<T>, le: (T, T) -> bool)
    requires |xs| > 0 && Sorted(xs, le)
    requires Sort(xs[..|xs| - 1], le) == xs[..|xs| - 1]
    ensures Sort(xs, le) == xs
  {
    var init := xs[..|xs| - 1];
    var x := xs[|xs| - 1];
    if |init| > 0 {
      assert le(init[|init| - 1], x);
    }
    assert Sort(xs, le) == Insert(x, init, le) == init + [x];
    assert xs == init + [x];
  }

  /** The last element of an ordered arrangement sorts no earlier than
      any element. */
  lemma LastIsGreatest<T(!new)>(xs: seq<T>, a: T, le: (T, T) -> bool)
    requires TotalPreorder(le) && Sorted(xs, le) && a in xs
    ensures le(a, xs[|xs| - 1])
  {
    var k :| 0 <= k < |xs| && xs[k] == a;
    if k == |xs| - 1 {
      assert le(a, a) || le(a, a);
    }
  }

  /** Removing the same last element from both sides keeps two
      arrangements permutations of each other. */
  lemma DropLast<T>(xs: seq<T>, ys: seq<T>, x: T)
    requires multiset(xs + [x]) == multiset(ys + [x])
    ensures multiset(xs) == multiset(ys)
  {
    assert multiset(xs + [x]) == multiset(xs) + multiset{x};
    assert multiset(ys + [x]) == multiset(ys) + multiset{x};
    forall v ensures multiset(xs)[v] == multiset(ys)[v] {
      assert multiset(xs + [x])[v] == multiset(xs)[v] + multiset{x}[v];
      assert multiset(ys + [x])[v] == multiset(ys)[v] + multiset{x}[v];
    }
  }

  /** Two ordered arrangements of the same elements are the same, when
      the order tells any two different elements apart. */
  lemma {:induction false} SortedUnique<T(!new)>(xs: seq<T>, ys: seq<T>, le: (T, T) -> bool)
    requires TotalPreorder(le) && Sorted(xs, le) && Sorted(ys, le)
    requires multiset(xs) == multiset(ys)
    requires forall a, b :: a in xs && b in xs && le(a, b) && le(b, a) ==> a == b
    ensures xs == ys
    decreases |xs|
  {
    assert |xs| == |multiset(xs)| == |multiset(ys)| == |ys|;
    if |xs| > 0 {
      var n := |xs| - 1;
      SameLast(xs, ys, le);
      var xi, yi := xs[..n], ys[..n];
      SortedPrefix(xs, le, n);
      SortedPrefix(ys, le, n);
      assert xs == xi + [xs[n]] && ys == yi + [xs[n]];
      DropLast(xi, yi, xs[n]);
      assert forall a :: a in xi ==> a in xs;
      SortedUnique(xi, yi, le);
    }
  }

  /** Two ordered arrangements of the same elements end alike. */
  lemma SameLast<T(!new)>(xs: seq<T>, ys: seq<T>, le: (T, T) -> bool)
    requires TotalPreorder(le) && Sorted(xs, le) && Sorted(ys, le)
    requires multiset(xs) == multiset(ys) && |xs| == |ys| > 0
    requires forall a, b :: a in xs && b in xs && le(a, b) && le(b, a) ==> a == b
    ensures xs[|xs| - 1] == ys[|ys| - 1]
  {
    var n := |xs| - 1;
    var x, y := xs[n], ys[n];
    assert y in multiset(xs) && x in multiset(ys);
    LastIsGreatest(xs, y, le);
    LastIsGreatest(ys, x, le);
  }

  lemma SortedPrefix<T>(xs: seq<T>, le: (T, T) -> bool, n: nat)
    requires Sorted(xs, le) && n <= |xs|
    ensures Sorted(xs[..n], le)
  {
  }

  /** Of two distinct positions of a sorted sequence, the one whose
      element does not sort before the other's comes second. */
  lemma SortedIndexOrder<T>(xs: seq<T>, le: (T, T) -> bool, i: nat, j: nat)
    requires Sorted(xs, le) && i < |xs| && j < |xs| && i != j
    requires !le(xs[j], xs[i])
    ensures i < j
  {
  }
}
