/**
 * The page-number window of the `Pagination` component and its Previous and
 * Next buttons. JavaScript semantics are spelled out: `Array.from({ length })`
 * makes no pages for a negative length, and `slice` clamps its bounds and
 * yields nothing when they cross.
 */
module Pagination {
  const MaxVisiblePages := 5

  /** `lo, lo + 1, …, hi`; empty when `hi < lo`. */
  function Range(lo: int, hi: int): (r: seq<int>)
    ensures |r| == if hi < lo then 0 else hi - lo + 1
    ensures forall i | 0 <= i < |r| :: r[i] == lo + i
    decreases hi - lo
  {
    if hi < lo then [] else [lo] + Range(lo + 1, hi)
  }

  /** `Array.prototype.slice(begin, end)` for non-negative bounds. */
  function Slice(s: seq<int>, begin: nat, end: nat): (r: seq<int>)
    ensures begin < end <= |s| ==> r == s[begin..end]
    ensures end <= begin || |s| <= begin ==> r == []
  {
    var b := if begin < |s| then begin else |s|;
    var e := if end < |s| then end else |s|;
    if b < e then s[b..e] else []
  }

  /** `Array.from({ length: totalPages }, (_, i) => i + 1)`. */
  function Pages(totalPages: int): seq<int> {
    Range(1, totalPages)
  }

  function Max(a: int, b: int): int { if a < b then b else a }
  function Min(a: int, b: int): int { if a < b then a else b }

  /** `visiblePages`. */
  function VisiblePages(currentPage: int, totalPages: int): (r: seq<int>)
    // at most five consecutive, ascending pages, all of them real pages
    ensures |r| <= MaxVisiblePages
    ensures forall i | 0 <= i < |r| :: r[i] == r[0] + i
    ensures forall i | 0 <= i < |r| :: 1 <= r[i] <= totalPages
    // few pages: all of them
    ensures totalPages <= MaxVisiblePages ==> r == Pages(totalPages)
    // many pages: the window starts two before the current page (but not before page 1)
    // and runs four further, cut at the last page; a current page past the end is not clamped
    ensures totalPages > MaxVisiblePages ==>
      r == Range(Max(1, currentPage - 2), Min(totalPages, Max(1, currentPage - 2) + 4))
    // the current page is always shown, with at least two more when there are many pages
    ensures 1 <= currentPage <= totalPages ==> currentPage in r
    ensures 1 <= currentPage <= totalPages && totalPages > MaxVisiblePages ==> |r| >= 3
  {
    var pages := Pages(totalPages);
    if totalPages > MaxVisiblePages then
      var start := Max(1, currentPage - MaxVisiblePages / 2);
      var end := Min(totalPages, start + MaxVisiblePages - 1);
      PagesSlice(totalPages, start, end);
      WindowFacts(currentPage, totalPages, start, end);
      Slice(pages, start - 1, end)
    else
      InRange(1, totalPages, currentPage);
      pages
  }

  /** Every number from `lo` to `hi` is in `Range(lo, hi)`. */
  lemma InRange(lo: int, hi: int, k: int)
    ensures lo <= k <= hi ==> k in Range(lo, hi)
  {
    if lo <= k <= hi {
      assert Range(lo, hi)[k - lo] == k;
    }
  }

  /** The many-pages window: at most five real pages, holding the current page
      and at least two more when the current page is a real one. */
  lemma WindowFacts(currentPage: int, totalPages: int, start: int, end: int)
    requires totalPages > MaxVisiblePages
    requires start == Max(1, currentPage - 2) && end == Min(totalPages, start + 4)
    ensures |Range(start, end)| <= MaxVisiblePages
    ensures forall i | 0 <= i < |Range(start, end)| :: 1 <= Range(start, end)[i] <= totalPages
    ensures 1 <= currentPage <= totalPages ==> currentPage in Range(start, end) && |Range(start, end)| >= 3
  {
    InRange(start, end, currentPage);
  }

  /** Cutting pages `lo..hi` out of the page list gives those page numbers. */
  lemma PagesSlice(totalPages: int, lo: int, hi: int)
    requires 1 <= lo && 0 <= hi <= totalPages
    ensures Slice(Pages(totalPages), lo - 1, hi) == Range(lo, hi)
  {
    if lo <= hi {
      var r := Pages(totalPages)[lo - 1..hi];
      assert |r| == |Range(lo, hi)|;
      forall i | 0 <= i < |r| ensures r[i] == Range(lo, hi)[i] {
      }
    }
  }

  /** On the last page the window shrinks to the last three pages rather than shifting back. */
  lemma LastPageWindow()
    ensures VisiblePages(10, 10) == [8, 9, 10]
  {
    var r := VisiblePages(10, 10);
    assert |r| == 3 && r[0] == 8;
  }

  /** One page before the end the window holds four pages. */
  lemma NextToLastPageWindow()
    ensures VisiblePages(9, 10) == [7, 8, 9, 10]
  {
    var r := VisiblePages(9, 10);
    assert |r| == 4 && r[0] == 7;
  }

  /** On the first page the window is the first five pages. */
  lemma FirstPageWindow()
    ensures VisiblePages(1, 10) == [1, 2, 3, 4, 5]
  {
    var r := VisiblePages(1, 10);
    assert |r| == 5 && r[0] == 1;
  }

  /** A page number past the end is not clamped: page 11 of 10 shows the last two pages. */
  lemma PastLastPageWindow()
    ensures VisiblePages(11, 10) == [9, 10]
  {
    var r := VisiblePages(11, 10);
    assert |r| == 2 && r[0] == 9;
  }

  /** A button's state: whether it is disabled, and the page it asks for. */
  datatype Button = Button(disabled: bool, target: int)

  function Previous(currentPage: int): (b: Button)
    ensures b.disabled <==> currentPage == 1
    ensures b.target == currentPage - 1
  {
    Button(currentPage == 1, currentPage - 1)
  }

  function Next(currentPage: int, totalPages: int): (b: Button)
    ensures b.disabled <==> currentPage == totalPages
    ensures b.target == currentPage + 1
  {
    Button(currentPage == totalPages, currentPage + 1)
  }

  /** From a page within range, an enabled Previous or Next button asks for a
      page within range. */
  lemma EnabledButtonsStayInRange(currentPage: int, totalPages: int)
    requires 1 <= currentPage <= totalPages
    ensures !Previous(currentPage).disabled ==> 1 <= Previous(currentPage).target <= totalPages
    ensures !Next(currentPage, totalPages).disabled ==> 1 <= Next(currentPage, totalPages).target <= totalPages
  {
  }
}
