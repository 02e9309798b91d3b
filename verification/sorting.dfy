/**
  `Array.prototype.sort` with a comparator, modelled as a stable insertion
  sort.  JavaScript's sort is stable, and a stable sort by a consistent
  comparator has only one possible result, so this sort returns exactly what
  the engine returns whenever the comparator is a total preorder.
 */
module Sorting {
  import opened Text

  /** `le(a, b)` holds when the comparator does not place `a` after `b`. */
  ghost predicate TotalPreorder<T(!new)>(le: (T, T) -> bool) {
    && (forall a, b :: le(a, b) || le(b, a))
    && (forall a, b, c :: le(a, b) && le(b, c) ==> le(a, c))
  }

  ghost predicate SortedBy<T>(s: seq<T>, le: (T, T) -> bool) {
    forall i, j :: 0 <= i < j < |s| ==> le(s[i], s[j])
  }

  /** Places `x` in front of the first element it may precede. */
  function Insert<T>(x: T, s: seq<T>, le: (T, T) -> bool): (r: seq<T>)
    ensures multiset(r) == multiset(s) + multiset{x}
    ensures |r| == |s| + 1
  {
    if |s| == 0 then [x]
    else if le(x, s[0]) then [x] + s
    else
      assert s == [s[0]] + s[1..];
      [s[0]] + Insert(x, s[1..], le)
  }

  /** `xs.slice().sort(cmp)` where `le(a, b)` means `cmp(a, b) <= 0`. */
  function InsertionSort<T>(xs: seq<T>, le: (T, T) -> bool): (r: seq<T>)
    ensures multiset(r) == multiset(xs)
    ensures |r| == |xs|
  {
    if |xs| == 0 then []
    else
      assert xs == [xs[0]] + xs[1..];
      Insert(xs[0], InsertionSort(xs[1..], le), le)
  }

  lemma {:induction false} InsertSorted<T(!new)>(x: T, s: seq<T>, le: (T, T) -> bool)
    requires TotalPreorder(le)
    requires SortedBy(s, le)
    ensures SortedBy(Insert(x, s, le), le)
  {
    if |s| > 0 && !le(x, s[0]) {
      var tail := Insert(x, s[1..], le);
      InsertSorted(x, s[1..], le);
      forall y | y in tail
        ensures le(s[0], y)
      {
        assert y in multiset(tail);
        if y != x {
          assert y in s[1..];
        }
      }
    }
  }

  /** Under a total preorder the result is sorted. */
  lemma {:induction false} InsertionSortSorted<T(!new)>(xs: seq<T>, le: (T, T) -> bool)
    requires TotalPreorder(le)
    ensures SortedBy(InsertionSort(xs, le), le)
  {
    if |xs| > 0 {
      InsertionSortSorted(xs[1..], le);
      InsertSorted(xs[0], InsertionSort(xs[1..], le), le);
    }
  }

  /** A strictly increasing sequence of strings: sorted and duplicate-free. */
  predicate StrictlySorted(s: seq<string>) {
    forall i, j :: 0 <= i < j < |s| ==> LexLess(s[i], s[j])
  }

  /** Adds `x` to a strictly sorted sequence unless it is already there. */
  function InsertUnique(x: string, s: seq<string>): (r: seq<string>)
    requires StrictlySorted(s)
    ensures StrictlySorted(r)
    ensures forall y :: y in r <==> y in s || y == x
  {
    if |s| == 0 then [x]
    else if x == s[0] then s
    else if LexLess(x, s[0]) then
      assert forall j :: 0 < j < |s| ==> LexLess(x, s[j]) by {
        forall j | 0 < j < |s| ensures LexLess(x, s[j]) {
          LexLessTransitive(x, s[0], s[j]);
        }
      }
      [x] + s
    else
      LexLessTotal(x, s[0]);
      var tail := InsertUnique(x, s[1..]);
      assert forall y :: y in tail ==> LexLess(s[0], y);
      [s[0]] + tail
  }

  /** `Array.from(new Set(xs)).sort()`: the distinct strings in ascending order. */
  function SortedDistinct(xs: seq<string>): (r: seq<string>)
    ensures StrictlySorted(r)
    ensures forall y :: y in r <==> y in xs
  {
    if |xs| == 0 then []
    else
      assert xs == xs[..|xs| - 1] + [xs[|xs| - 1]];
      InsertUnique(xs[|xs| - 1], SortedDistinct(xs[..|xs| - 1]))
  }

  /** A strictly sorted sequence has no repeated element. */
  lemma StrictlySortedDistinct(s: seq<string>)
    requires StrictlySorted(s)
    ensures forall i, j :: 0 <= i < |s| && 0 <= j < |s| && i != j ==> s[i] != s[j]
  {
    forall i, j | 0 <= i < |s| && 0 <= j < |s| && i != j
      ensures s[i] != s[j]
    {
      if i < j {
        LexLessIrreflexive(s[i]);
      } else {
        LexLessIrreflexive(s[j]);
      }
    }
  }
}
