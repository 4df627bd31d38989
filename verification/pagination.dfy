/**
 * Page-window pagination shared by the jobs list and the applications list:
 * eight items per page, the current page chosen by a counter that starts at
 * 1 and moves only through the guarded Next and Previous handlers.
 */
module Pagination {

  /** Items per page on both list pages. */
  const PageSize: nat := 8

  function Min(a: int, b: int): int { if a <= b then a else b }
  function Max(a: int, b: int): int { if a <= b then b else a }

  /**
   * Where a slice bound lands: a negative bound counts back from the end,
   * and every bound is clamped into `[0, len]`.
   */
  function RelativeIndex(i: int, len: nat): (r: nat)
    ensures r <= len
  {
    if i < 0 then Max(len + i, 0) else Min(i, len)
  }

  /** An array's `slice(start, end)`: the elements between the two bounds, or none. */
  function Slice<T>(s: seq<T>, start: int, end: int): (r: seq<T>)
    ensures 0 <= start <= end ==> r == s[Min(start, |s|)..Min(end, |s|)]
    ensures 0 <= end <= start ==> r == []
  {
    var from, to := RelativeIndex(start, |s|), RelativeIndex(end, |s|);
    if from < to then s[from..to] else []
  }

  /** The index of the first item on `page`: the last index less one page. */
  function FirstIndex(page: int): int
  {
    LastIndex(page) - PageSize
  }

  /** The index just past the last item on `page`. */
  function LastIndex(page: int): int
  {
    page * PageSize
  }

  /** A page's bounds are one page apart and start at (page - 1) * 8. */
  lemma WindowBounds(page: int)
    ensures FirstIndex(page) == (page - 1) * PageSize
    ensures LastIndex(page) - FirstIndex(page) == PageSize
  {
  }

  /** The items shown on `page`. */
  function Window<T>(items: seq<T>, page: int): (r: seq<T>)
    ensures 1 <= page ==>
      r == items[Min((page - 1) * PageSize, |items|)..Min(page * PageSize, |items|)]
    ensures |r| <= PageSize
  {
    Slice(items, FirstIndex(page), LastIndex(page))
  }

  /** The number of pages, `ceil(count / 8)`; no pages at all for an empty list. */
  function TotalPages(count: nat): (r: nat)
    ensures PageSize * (r - 1) < count <= PageSize * r
    ensures count == 0 <==> r == 0
  {
    (count + PageSize - 1) / PageSize
  }

  /** A longer list never has fewer pages. */
  lemma TotalPagesMonotone(m: nat, n: nat)
    requires m <= n
    ensures TotalPages(m) <= TotalPages(n)
  {
  }

  /** A page from 1 to the page count is non-empty; every later page is empty. */
  lemma PageNonEmptyIff<T>(items: seq<T>, page: int)
    requires 1 <= page
    ensures |Window(items, page)| > 0 <==> page <= TotalPages(|items|)
  {
  }

  /** Every page before the last holds exactly eight items. */
  lemma FullPagesBeforeLast<T>(items: seq<T>, page: int)
    requires 1 <= page < TotalPages(|items|)
    ensures |Window(items, page)| == PageSize
  {
  }

  /** The windows of pages 1 to `count`, joined in order. */
  function Pages<T>(items: seq<T>, count: nat): seq<T>
  {
    if count == 0 then [] else Pages(items, count - 1) + Window(items, count)
  }

  /** The first `count` pages are the first `count * 8` items. */
  lemma {:induction false} PagesArePrefix<T>(items: seq<T>, count: nat)
    ensures Pages(items, count) == items[..Min(count * PageSize, |items|)]
  {
    if count > 0 {
      PagesArePrefix(items, count - 1);
      var a, b := Min((count - 1) * PageSize, |items|), Min(count * PageSize, |items|);
      assert items[..a] + items[a..b] == items[..b];
    }
  }

  /** Joining the windows of pages 1 to the page count rebuilds the whole list. */
  lemma PagesPartitionItems<T>(items: seq<T>)
    ensures Pages(items, TotalPages(|items|)) == items
  {
    PagesArePrefix(items, TotalPages(|items|));
  }

  /** The two navigation buttons. */
  datatype Nav = Next | Previous

  /**
   * The page after one click: Next advances only while a later page exists,
   * Previous goes back only from a page after the first.
   */
  function Step(page: int, totalPages: nat, nav: Nav): (r: int)
    ensures nav.Next? ==> page <= r <= Max(page, totalPages)
    ensures nav.Next? ==> (r == page + 1 <==> page < totalPages)
    ensures nav.Previous? ==> Min(page, 1) <= r <= page
    ensures nav.Previous? ==> (r == page - 1 <==> page > 1)
    ensures 1 <= page <= Max(1, totalPages) ==> 1 <= r <= Max(1, totalPages)
  {
    match nav
    case Next => if page < totalPages then page + 1 else page
    case Previous => if page > 1 then page - 1 else page
  }

  /** The page after a series of clicks. */
  function Run(page: int, totalPages: nat, navs: seq<Nav>): int
    decreases navs
  {
    if |navs| == 0 then page else Run(Step(page, totalPages, navs[0]), totalPages, navs[1..])
  }

  /** From an in-range page, no series of clicks leaves `[1, max(1, totalPages)]`. */
  lemma {:induction false} RunStaysInRange(page: int, totalPages: nat, navs: seq<Nav>)
    requires 1 <= page <= Max(1, totalPages)
    ensures 1 <= Run(page, totalPages, navs) <= Max(1, totalPages)
    decreases navs
  {
    if |navs| > 0 {
      RunStaysInRange(Step(page, totalPages, navs[0]), totalPages, navs[1..]);
    }
  }

  /** With an empty list the counter never leaves page 1. */
  lemma {:induction false} EmptyListStaysOnFirstPage(navs: seq<Nav>)
    ensures Run(1, 0, navs) == 1
  {
    if |navs| > 0 {
      EmptyListStaysOnFirstPage(navs[1..]);
    }
  }

  /** Next then Previous returns to the page it left. */
  lemma NextThenPrevious(page: int, totalPages: nat)
    requires 1 <= page < totalPages
    ensures Step(Step(page, totalPages, Next), totalPages, Previous) == page
  {
  }

  /** A list page's state: the fetched items and the current page number. */
  class PagedList<T> {
    var items: seq<T>
    var currentPage: int

    /** The current page always lies in `[1, max(1, totalPages)]`. */
    ghost predicate Valid()
      reads this
    {
      1 <= currentPage <= Max(1, TotalPages(|items|))
    }

    /** The window rendered for the current page: non-empty unless the list is. */
    function CurrentItems(): (r: seq<T>)
      reads this
      requires Valid()
      ensures |r| <= PageSize
      ensures |r| > 0 <==> |items| > 0
    {
      PageNonEmptyIff(items, currentPage);
      Window(items, currentPage)
    }

    /** The page mounts with no items and on page 1. */
    constructor ()
      ensures items == [] && currentPage == 1 && Valid()
    {
      items := [];
      currentPage := 1;
    }

    /** The fetch result replaces the items; the page number is kept. */
    method Load(data: seq<T>)
      requires Valid()
      modifies this
      ensures items == data && currentPage == old(currentPage)
      ensures |old(items)| <= |data| ==> Valid()
    {
      if |items| <= |data| {
        TotalPagesMonotone(|items|, |data|);
      }
      items := data;
    }

    /** The Next button. */
    method HandleNext()
      requires Valid()
      modifies this
      ensures items == old(items) && Valid()
      ensures currentPage == Step(old(currentPage), TotalPages(|items|), Next)
    {
      if currentPage < TotalPages(|items|) {
        currentPage := currentPage + 1;
      }
    }

    /** The Previous button. */
    method HandlePrevious()
      requires Valid()
      modifies this
      ensures items == old(items) && Valid()
      ensures currentPage == Step(old(currentPage), TotalPages(|items|), Previous)
    {
      if currentPage > 1 {
        currentPage := currentPage - 1;
      }
    }
  }
}
