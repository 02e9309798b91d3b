/**
  Offset pagination shared by the API route and the client page: the page
  count `Math.ceil(total / size)` and the page cut
  `list.slice((page - 1) * size, page * size)`.
 */
module Paging {
  import opened Common

  /**
    `n * size`, built by repeated addition.  Page offsets are stated with it
    so that proofs about them rest on the lemmas below instead of general
    multiplication.
   */
  function Times(n: nat, size: nat): nat {
    if n == 0 then 0 else Times(n - 1, size) + size
  }

  lemma {:induction false} TimesIsProduct(n: nat, size: nat)
    ensures Times(n, size) == n * size
  {
    if n > 0 {
      TimesIsProduct(n - 1, size);
    }
  }

  lemma {:induction false} TimesMonotone(a: nat, b: nat, size: nat)
    requires a <= b
    ensures Times(a, size) <= Times(b, size)
    decreases b
  {
    if a < b {
      TimesMonotone(a, b - 1, size);
    }
  }

  /** Whole pages plus the remainder make up the total. */
  lemma DivisionSplits(total: nat, size: nat)
    requires size >= 1
    ensures total == Times(total / size, size) + total % size
  {
    TimesIsProduct(total / size, size);
  }

  /** `Math.ceil(total / size)`: the least number of pages that hold `total` items. */
  function PageCount(total: nat, size: nat): (r: nat)
    requires size >= 1
    ensures total <= Times(r, size)
    ensures r > 0 ==> Times(r - 1, size) < total
    ensures r == 0 <==> total == 0
  {
    DivisionSplits(total, size);
    if total % size == 0 then total / size else total / size + 1
  }

  /** `xs.slice(start, start + size)` for a non-negative offset. */
  function Block<T>(xs: seq<T>, start: nat, size: nat): (r: seq<T>)
    ensures |r| == Min(size, Max(0, |xs| - start))
    ensures forall i :: 0 <= i < |r| ==> r[i] == xs[start + i]
  {
    xs[Min(start, |xs|)..Min(start + size, |xs|)]
  }

  /** The offset of page `page`: `(page - 1) * size`. */
  function Offset(page: int, size: int): nat
    requires page >= 1 && size >= 1
  {
    Times(page - 1, size)
  }

  /** A page lies past the last one exactly when its offset reaches the end. */
  lemma PastLastPage(total: nat, page: int, size: int)
    requires page >= 1 && size >= 1
    ensures page > PageCount(total, size) <==> Offset(page, size) >= total
  {
    var count := PageCount(total, size);
    if page > count {
      TimesMonotone(count, page - 1, size);
    } else if count > 0 {
      TimesMonotone(page - 1, count - 1, size);
    }
  }

  /**
    `xs.slice((page - 1) * size, page * size)`: the contiguous block of at
    most `size` items starting at the page's offset, cut short at the end of
    the list.  A page past the last one is empty rather than an error.
   */
  function PageSlice<T>(xs: seq<T>, page: int, size: int): (r: seq<T>)
    requires page >= 1 && size >= 1
    ensures |r| == Min(size, Max(0, |xs| - Offset(page, size)))
    ensures forall i :: 0 <= i < |r| ==> r[i] == xs[Offset(page, size) + i]
    ensures r == [] <==> page > PageCount(|xs|, size)
  {
    // The end index `page * size` is `Times(page, size)`, the offset plus `size`.
    PastLastPage(|xs|, page, size);
    Block(xs, Offset(page, size), size)
  }

  /** Pages `1..n` laid end to end. */
  function PagesUpTo<T>(xs: seq<T>, size: int, n: nat): seq<T>
    requires size >= 1
  {
    if n == 0 then [] else PagesUpTo(xs, size, n - 1) + PageSlice(xs, n, size)
  }

  /** Page `n` is the stretch of `xs` between the ends of pages `n - 1` and `n`. */
  lemma PageSliceRange<T>(xs: seq<T>, n: nat, size: int)
    requires n >= 1 && size >= 1
    ensures PageSlice(xs, n, size) == xs[Min(Times(n - 1, size), |xs|)..Min(Times(n, size), |xs|)]
  {
  }

  lemma PrefixExtend<T>(xs: seq<T>, lo: nat, hi: nat)
    requires lo <= hi <= |xs|
    ensures xs[..lo] + xs[lo..hi] == xs[..hi]
  {
  }

  lemma {:induction false} PagesUpToPrefix<T>(xs: seq<T>, size: int, n: nat)
    requires size >= 1
    ensures PagesUpTo(xs, size, n) == xs[..Min(Times(n, size), |xs|)]
  {
    if n > 0 {
      PagesUpToPrefix(xs, size, n - 1);
      PageSliceRange(xs, n, size);
      PrefixExtend(xs, Min(Times(n - 1, size), |xs|), Min(Times(n, size), |xs|));
    }
  }

  /**
    Reading every page from 1 to the page count and concatenating them gives
    back the whole list, in order, with nothing lost or repeated.
   */
  lemma AllPagesReassemble<T>(xs: seq<T>, size: int)
    requires size >= 1
    ensures PagesUpTo(xs, size, PageCount(|xs|, size)) == xs
  {
    PagesUpToPrefix(xs, size, PageCount(|xs|, size));
  }
}
