/**
 * The pagination shared by the list pages: the module-level `paginate`
 * helper (a `slice` of `perPage` items starting at `(currentPage - 1) *
 * perPage`), the `Math.ceil(length / perPage)` page count that decides whether
 * the pager is shown, and the row number `(currentPage - 1) * perPage + index + 1`.
 */
module Paging {

  function Min(a: int, b: int): int { if a <= b then a else b }

  /**
   * How `Array.prototype.slice` reads one of its arguments against a length
   * `n`: a negative index counts from the end, and the result is clamped to
   * `0 .. n`.
   */
  function SliceIndex(i: int, n: nat): (r: nat)
    ensures r <= n
    ensures 0 <= i ==> r == Min(i, n)
    ensures i < 0 ==> r == if n + i < 0 then 0 else n + i
  {
    if i < 0 then (if n + i < 0 then 0 else n + i)
    else if i > n then n
    else i
  }

  /** `s.slice(start, end)`. */
  function Slice<T>(s: seq<T>, start: int, end: int): (r: seq<T>)
    ensures |r| <= |s|
    ensures start <= end ==> |r| <= end - start
    ensures forall x :: x in r ==> x in s
  {
    var from, to := SliceIndex(start, |s|), SliceIndex(end, |s|);
    if from < to then s[from..to] else []
  }

  /** `paginate(items, currentPage, perPage)`. */
  function Paginate<T>(items: seq<T>, currentPage: int, perPage: int): (page: seq<T>)
    ensures |page| <= |items|
    ensures perPage >= 0 ==> |page| <= perPage
    ensures forall x :: x in page ==> x in items
  {
    var startIndex := PageStart(currentPage, perPage);
    Slice(items, startIndex, startIndex + perPage)
  }

  /** `(currentPage - 1) * perPage`: where the first row of a page sits in the whole list. */
  function PageStart(currentPage: int, perPage: int): int {
    (currentPage - 1) * perPage
  }

  /** The number shown in the `#` column for the `index`-th row of a page. */
  function RowNumber(currentPage: int, perPage: int, index: int): int {
    PageStart(currentPage, perPage) + index + 1
  }

  /** `Math.ceil(n / perPage)`: the fewest pages that hold `n` rows. */
  function PageCount(n: nat, perPage: nat): (pages: nat)
    requires perPage > 0
    ensures pages * perPage >= n
    ensures pages > 0 ==> (pages - 1) * perPage < n
  {
    var q := (n + perPage - 1) / perPage;
    assert q * perPage + (n + perPage - 1) % perPage == n + perPage - 1;
    q
  }

  /** `totalPages > 1`: the pager is shown. */
  predicate ShowPager(n: nat, perPage: nat)
    requires perPage > 0
  {
    PageCount(n, perPage) > 1
  }

  /**
   * A page (for a real page number and a positive page size) is the window of
   * at most `perPage` rows that starts at `PageStart`; it is empty once the
   * start is at or past the end of the list.
   */
  lemma PageWindow<T>(items: seq<T>, currentPage: int, perPage: int)
    requires currentPage >= 1 && perPage >= 1
    ensures PageStart(currentPage, perPage) >= 0
    ensures |Paginate(items, currentPage, perPage)| <= perPage
    ensures PageStart(currentPage, perPage) >= |items| ==> Paginate(items, currentPage, perPage) == []
    ensures PageStart(currentPage, perPage) < |items| ==>
      Paginate(items, currentPage, perPage) ==
        items[PageStart(currentPage, perPage)..Min(PageStart(currentPage, perPage) + perPage, |items|)]
  {
    var start := PageStart(currentPage, perPage);
    assert start >= 0 by { NonNegProduct(currentPage - 1, perPage); }
    assert Paginate(items, currentPage, perPage) == Slice(items, start, start + perPage);
    SliceWindow(items, start, perPage);
  }

  lemma NonNegProduct(a: int, b: int)
    requires a >= 0 && b >= 0
    ensures a * b >= 0
  {}

  /** A slice from a non-negative start is the window of at most `len` elements there. */
  lemma SliceWindow<T>(s: seq<T>, start: int, len: int)
    requires start >= 0 && len >= 0
    ensures |Slice(s, start, start + len)| <= len
    ensures start >= |s| ==> Slice(s, start, start + len) == []
    ensures start < |s| ==> Slice(s, start, start + len) == s[start..Min(start + len, |s|)]
  {}

  /** The row number of a row is its 1-based position in the whole (filtered) list. */
  lemma RowNumberIsPosition<T>(items: seq<T>, currentPage: int, perPage: int, index: int)
    requires currentPage >= 1 && perPage >= 1
    requires 0 <= index < |Paginate(items, currentPage, perPage)|
    ensures 1 <= RowNumber(currentPage, perPage, index) <= |items|
    ensures Paginate(items, currentPage, perPage)[index] == items[RowNumber(currentPage, perPage, index) - 1]
  {
    PageWindow(items, currentPage, perPage);
  }

  /** The pager appears exactly when there are more rows than fit on one page. */
  lemma ShowPagerIff(n: nat, perPage: nat)
    requires perPage > 0
    ensures ShowPager(n, perPage) <==> n > perPage
  {
    var pages := PageCount(n, perPage);
    if pages > 1 {
      assert (pages - 1) * perPage >= 1 * perPage;
    } else {
      assert pages * perPage <= 1 * perPage;
    }
  }

  /** Pages `1 .. count` one after the other. */
  function Pages<T>(items: seq<T>, perPage: int, count: nat): seq<T> {
    if count == 0 then [] else Pages(items, perPage, count - 1) + Paginate(items, count, perPage)
  }

  /** The first `count` pages together are the first `count * perPage` rows. */
  lemma {:induction false} PagesPrefix<T>(items: seq<T>, perPage: int, count: nat)
    requires perPage >= 1
    ensures count * perPage >= 0
    ensures Pages(items, perPage, count) == items[..Min(count * perPage, |items|)]
  {
    if count > 0 {
      PagesPrefix(items, perPage, count - 1);
      PagesStep(items, perPage, count);
      MulStep(count, perPage);
    }
  }

  /** Page `count` continues the rows shown by the pages before it. */
  lemma PagesStep<T>(items: seq<T>, perPage: int, count: nat)
    requires perPage >= 1 && count >= 1
    requires PageStart(count, perPage) >= 0
    requires Pages(items, perPage, count - 1) == items[..Min(PageStart(count, perPage), |items|)]
    ensures Pages(items, perPage, count) == items[..Min(PageStart(count, perPage) + perPage, |items|)]
  {
    var start := PageStart(count, perPage);
    var page := Paginate(items, count, perPage);
    assert Pages(items, perPage, count) == items[..Min(start, |items|)] + page;
    PageWindow(items, count, perPage);
    if start < |items| {
      var end := Min(start + perPage, |items|);
      assert page == items[start..end];
      assert items[..start] + items[start..end] == items[..end];
    } else {
      assert page == [];
    }
  }

  /** `count * perPage` is the start of page `count` plus one page. */
  lemma MulStep(count: int, perPage: int)
    ensures PageStart(count, perPage) + perPage == count * perPage
  {
    assert (count - 1) * perPage == count * perPage - perPage;
  }

  /**
   * Walking the pager from page 1 to `totalPages` shows every row of the list
   * once, in order.
   */
  lemma PagesCoverAll<T>(items: seq<T>, perPage: nat)
    requires perPage > 0
    ensures Pages(items, perPage, PageCount(|items|, perPage)) == items
  {
    var count := PageCount(|items|, perPage);
    PagesPrefix(items, perPage, count);
    assert items[..|items|] == items;
  }
  /** The pager's buttons: First, Prev, the numbered items, Next and Last. */
  datatype PagerClick = FirstPage | PrevPage | PageItem(number: int) | NextPage | LastPage

  /**
   * A click that can happen: the pager is rendered only when `totalPages > 1`,
   * and it renders the items `1 .. totalPages`.
   */
  predicate OnPager(click: PagerClick, totalPages: int) {
    totalPages > 1 && (click.PageItem? ==> 1 <= click.number <= totalPages)
  }

  /**
   * The page a pager click leads to. Prev is disabled on page 1 and Next on
   * page `totalPages`, so a click on either of them there changes nothing;
   * First and Last are disabled only where they would not move.
   */
  function Navigate(currentPage: int, totalPages: int, click: PagerClick): (next: int)
    ensures OnPager(click, totalPages) && 1 <= currentPage <= totalPages ==> 1 <= next <= totalPages
    ensures click.PrevPage? || click.NextPage? ==> currentPage - 1 <= next <= currentPage + 1
  {
    match click
    case FirstPage => 1
    case PrevPage => if currentPage == 1 then currentPage else currentPage - 1
    case PageItem(n) => n
    case NextPage => if currentPage == totalPages then currentPage else currentPage + 1
    case LastPage => totalPages
  }

  /** Next undoes Prev and Prev undoes Next wherever the button is enabled. */
  lemma PrevNextUndo(currentPage: int, totalPages: int)
    requires 1 <= currentPage <= totalPages
    ensures currentPage > 1 ==> Navigate(Navigate(currentPage, totalPages, PrevPage), totalPages, NextPage) == currentPage
    ensures currentPage < totalPages ==> Navigate(Navigate(currentPage, totalPages, NextPage), totalPages, PrevPage) == currentPage
  {
  }

  /**
   * The search box does not reset the page: on page 2 or later, a search
   * that leaves at most one page of rows shows an empty table and no pager,
   * although some rows match.
   */
  lemma StrandedPage<T>(items: seq<T>, currentPage: int, perPage: int)
    requires currentPage >= 2 && perPage >= 1 && |items| <= perPage
    ensures Paginate(items, currentPage, perPage) == []
    ensures !ShowPager(|items|, perPage)
  {
    assert PageStart(currentPage, perPage) >= perPage by {
      AtLeastOnce(currentPage - 1, perPage);
    }
    PageWindow(items, currentPage, perPage);
    ShowPagerIff(|items|, perPage);
  }

  lemma AtLeastOnce(a: int, b: int)
    requires a >= 1 && b >= 0
    ensures a * b >= b
  {
    assert a * b == (a - 1) * b + b;
    NonNegProduct(a - 1, b);
  }
}
