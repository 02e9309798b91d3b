/**
  The page-number strip of the pagination control: which page buttons and
  ellipses to show for the current page, and where the previous and next
  arrows lead.
 */
module PaginationNav {
  import opened Common

  /** Up to this many pages every page gets its own button. */
  const MaxPlainPages: int := 7

  datatype PageItem = Page(number: int) | Ellipsis

  /** Page numbers appear in strictly increasing order. */
  predicate Increasing(items: seq<PageItem>) {
    forall i, j :: 0 <= i < j < |items| && items[i].Page? && items[j].Page? ==>
      items[i].number < items[j].number
  }

  /**
    An ellipsis never starts or ends the strip and stands exactly for a gap:
    it sits between two page numbers that are not consecutive, while two
    adjacent page buttons are always consecutive numbers.
   */
  predicate GapsMarked(items: seq<PageItem>) {
    && (forall i :: 0 <= i < |items| && items[i].Ellipsis? ==>
          0 < i < |items| - 1 && items[i - 1].Page? && items[i + 1].Page?
          && items[i + 1].number > items[i - 1].number + 1)
    && (forall i :: 0 <= i < |items| - 1 && items[i].Page? && items[i + 1].Page? ==>
          items[i + 1].number == items[i].number + 1)
  }

  /** `getPageNumbers()` of the component. */
  function PageNumbers(currentPage: int, totalPages: int): (r: seq<PageItem>)
    ensures totalPages <= MaxPlainPages ==>
      |r| == Max(0, totalPages) && forall i :: 0 <= i < |r| ==> r[i] == Page(i + 1)
    ensures totalPages > MaxPlainPages ==>
      |r| == 7 && r[0] == Page(1) && r[6] == Page(totalPages)
    ensures totalPages > MaxPlainPages && currentPage <= 3 ==>
      r == [Page(1), Page(2), Page(3), Page(4), Page(5), Ellipsis, Page(totalPages)]
    ensures totalPages > MaxPlainPages && 3 < currentPage && currentPage >= totalPages - 2 ==>
      r == [Page(1), Ellipsis, Page(totalPages - 4), Page(totalPages - 3),
            Page(totalPages - 2), Page(totalPages - 1), Page(totalPages)]
    ensures totalPages > MaxPlainPages && 3 < currentPage < totalPages - 2 ==>
      r == [Page(1), Ellipsis, Page(currentPage - 1), Page(currentPage),
            Page(currentPage + 1), Ellipsis, Page(totalPages)]
  {
    if totalPages <= MaxPlainPages then
      seq(Max(0, totalPages), i => Page(i + 1))
    else if currentPage <= 3 then
      [Page(1), Page(2), Page(3), Page(4), Page(5), Ellipsis, Page(totalPages)]
    else if currentPage >= totalPages - 2 then
      [Page(1), Ellipsis, Page(totalPages - 4), Page(totalPages - 3),
       Page(totalPages - 2), Page(totalPages - 1), Page(totalPages)]
    else
      [Page(1), Ellipsis, Page(currentPage - 1), Page(currentPage),
       Page(currentPage + 1), Ellipsis, Page(totalPages)]
  }

  /**
    Whatever the current page, the strip lists pages between 1 and the last
    page, in increasing order, with an ellipsis exactly where numbers are
    skipped.
   */
  lemma PageNumbersWellOrdered(currentPage: int, totalPages: int)
    ensures var r := PageNumbers(currentPage, totalPages);
      && (forall i :: 0 <= i < |r| && r[i].Page? ==> 1 <= r[i].number <= totalPages)
      && Increasing(r)
      && GapsMarked(r)
  {
    if totalPages <= MaxPlainPages {
      var r := PageNumbers(currentPage, totalPages);
      assert forall i :: 0 <= i < |r| ==> r[i] == Page(i + 1);
    } else {
      LongStripWellOrdered(currentPage, totalPages);
    }
  }

  /** The collapsed strip of more than seven pages, checked entry by entry. */
  lemma LongStripWellOrdered(currentPage: int, totalPages: int)
    requires totalPages > MaxPlainPages
    ensures var r := PageNumbers(currentPage, totalPages);
      && (forall i :: 0 <= i < |r| && r[i].Page? ==> 1 <= r[i].number <= totalPages)
      && Increasing(r)
      && GapsMarked(r)
  {
    var r := PageNumbers(currentPage, totalPages);
    SevenWellOrdered(r);
    forall i | 0 <= i < 7 && r[i].Page?
      ensures r[0].number <= r[i].number <= r[6].number
    {
      if 0 < i { assert Increasing(r); }
      if i < 6 { assert Increasing(r); }
    }
  }

  /** A seven-entry strip whose order is checked neighbour by neighbour. */
  lemma SevenWellOrdered(r: seq<PageItem>)
    requires |r| == 7
    requires forall i :: 0 <= i < 6 && r[i].Page? && r[i + 1].Page? ==> r[i + 1].number == r[i].number + 1
    requires forall i :: 0 <= i < 7 && r[i].Ellipsis? ==>
      0 < i < 6 && r[i - 1].Page? && r[i + 1].Page? && r[i + 1].number > r[i - 1].number + 1
    ensures Increasing(r)
    ensures GapsMarked(r)
  {
    forall i, j | 0 <= i < j < 7 && r[i].Page? && r[j].Page?
      ensures r[i].number < r[j].number
    {
      var k := i;
      while k < j
        invariant i <= k <= j
        invariant r[k].Page? ==> r[i].number + (k - i) <= r[k].number
        invariant r[k].Ellipsis? ==> k > i && r[k - 1].Page? && r[i].number + (k - 1 - i) <= r[k - 1].number
      {
        k := k + 1;
      }
    }
  }

  /** The current page, when it exists, has exactly one button. */
  lemma CurrentPageShownOnce(currentPage: int, totalPages: int)
    requires 1 <= currentPage <= totalPages
    ensures var r := PageNumbers(currentPage, totalPages);
      && (exists i :: 0 <= i < |r| && r[i] == Page(currentPage))
      && (forall i, j :: 0 <= i < |r| && 0 <= j < |r| && r[i] == Page(currentPage) && r[j] == Page(currentPage) ==> i == j)
  {
    var r := PageNumbers(currentPage, totalPages);
    if totalPages <= MaxPlainPages {
      assert r[currentPage - 1] == Page(currentPage);
    } else if currentPage <= 3 {
      assert r[currentPage - 1] == Page(currentPage);
    } else if currentPage >= totalPages - 2 {
      assert r[currentPage - totalPages + 6] == Page(currentPage);
    } else {
      assert r[3] == Page(currentPage);
    }
  }

  /** A button is highlighted as the current page iff it shows the current page. */
  predicate IsActive(currentPage: int, item: PageItem) {
    item == Page(currentPage)
  }

  /**
    Exactly one button of the strip is highlighted when the current page is in
    range, and none otherwise: no two buttons ever carry `aria-current`.
   */
  lemma ActiveButton(currentPage: int, totalPages: int)
    ensures var r := PageNumbers(currentPage, totalPages);
      && ((exists i :: 0 <= i < |r| && IsActive(currentPage, r[i])) <==> 1 <= currentPage <= totalPages)
      && (forall i, j :: 0 <= i < |r| && 0 <= j < |r| && IsActive(currentPage, r[i]) && IsActive(currentPage, r[j]) ==> i == j)
  {
    var r := PageNumbers(currentPage, totalPages);
    PageNumbersWellOrdered(currentPage, totalPages);
    if 1 <= currentPage <= totalPages {
      CurrentPageShownOnce(currentPage, totalPages);
    }
  }

  /** The previous arrow's target, `Math.max(1, currentPage - 1)`. */
  function PrevTarget(currentPage: int): int {
    Max(1, currentPage - 1)
  }

  /** The next arrow's target, `Math.min(totalPages, currentPage + 1)`. */
  function NextTarget(currentPage: int, totalPages: int): int {
    Min(totalPages, currentPage + 1)
  }

  predicate PrevDisabled(currentPage: int) {
    currentPage == 1
  }

  predicate NextDisabled(currentPage: int, totalPages: int) {
    currentPage == totalPages
  }

  /**
    From a page in range, both arrows stay in range; an enabled arrow moves by
    exactly one page, and an arrow is disabled exactly when following it would
    not move at all.
   */
  lemma ArrowsStayInRange(currentPage: int, totalPages: int)
    requires 1 <= currentPage <= totalPages
    ensures 1 <= PrevTarget(currentPage) <= totalPages
    ensures 1 <= NextTarget(currentPage, totalPages) <= totalPages
    ensures PrevDisabled(currentPage) <==> PrevTarget(currentPage) == currentPage
    ensures NextDisabled(currentPage, totalPages) <==> NextTarget(currentPage, totalPages) == currentPage
    ensures !PrevDisabled(currentPage) ==> PrevTarget(currentPage) == currentPage - 1
    ensures !NextDisabled(currentPage, totalPages) ==> NextTarget(currentPage, totalPages) == currentPage + 1
  {
  }
}
