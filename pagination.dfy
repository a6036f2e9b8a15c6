/**
 * The admin table's page bar: Prev, a list of page numbers with `...` markers, Next. How many
 * numbers surround the current page depends on the window width, which is a parameter.
 */
module Pagination {
  import opened Wrappers

  /** An entry of the page list: a page number, or the `'...'` marker. */
  datatype PageItem = Number(n: int) | Ellipsis

  /** `window.innerWidth < 640 ? 3 : 5`. */
  function MaxVisible(width: int): (m: nat)
    ensures m == 3 || m == 5
    ensures m == 3 <==> width < 640
  {
    if width < 640 then 3 else 5
  }

  function Max(a: int, b: int): int {
    if a < b then b else a
  }

  function Min(a: int, b: int): int {
    if a < b then a else b
  }

  /** The pages `lo` to `hi` in ascending order; none when `lo > hi`. */
  function Range(lo: int, hi: int): seq<PageItem>
    decreases hi - lo
  {
    if lo > hi then [] else [Number(lo)] + Range(lo + 1, hi)
  }

  lemma {:induction false} RangeAt(lo: int, hi: int)
    ensures |Range(lo, hi)| == if lo > hi then 0 else hi - lo + 1
    ensures forall k :: 0 <= k < |Range(lo, hi)| ==> Range(lo, hi)[k] == Number(lo + k)
    decreases hi - lo
  {
    if lo <= hi {
      RangeAt(lo + 1, hi);
    }
  }

  /** The range grows at its upper end one page at a time, as the loop pushes. */
  lemma RangeSnoc(lo: int, hi: int)
    requires lo <= hi + 1
    ensures Range(lo, hi + 1) == Range(lo, hi) + [Number(hi + 1)]
  {
    RangeAt(lo, hi);
    RangeAt(lo, hi + 1);
  }

  /** What `getPageNumbers` returns. */
  function PageNumbers(current: int, total: int, maxVisible: int): seq<PageItem> {
    if total <= maxVisible + 2 then Range(1, total)
    else
      [Number(1)]
      + (if current > maxVisible - 1 then [Ellipsis] else [])
      + Range(Max(2, current - 1), Min(total - 1, current + 1))
      + (if current < total - (maxVisible - 2) then [Ellipsis] else [])
      + (if total > 1 then [Number(total)] else [])
  }

  /** `getPageNumbers`: all pages when they fit, otherwise the first page, the current page
      with its neighbours, the last page, and markers pushed on the two conditions. */
  method GetPageNumbers(current: int, total: int, maxVisible: int) returns (pages: seq<PageItem>)
    ensures pages == PageNumbers(current, total, maxVisible)
  {
    if total <= maxVisible + 2 {
      return Range(1, total);
    }
    pages := [Number(1)];
    if current > maxVisible - 1 {
      pages := pages + [Ellipsis];
    }
    var start := Max(2, current - 1);
    var end := Min(total - 1, current + 1);
    ghost var before := pages;
    var i := start;
    while i <= end
      invariant start <= i <= Max(start, end + 1)
      invariant pages == before + Range(start, i - 1)
      decreases end - i
    {
      RangeSnoc(start, i - 1);
      pages := pages + [Number(i)];
      i := i + 1;
    }
    if current < total - (maxVisible - 2) {
      pages := pages + [Ellipsis];
    }
    if total > 1 {
      pages := pages + [Number(total)];
    }
  }

  /** When every page fits, the list is exactly the pages 1 to `total`, in order. */
  lemma ShortListHasEveryPage(current: int, total: int, maxVisible: int)
    requires total <= maxVisible + 2
    ensures var r := PageNumbers(current, total, maxVisible);
      |r| == Max(total, 0) && forall k :: 0 <= k < |r| ==> r[k] == Number(k + 1)
  {
    RangeAt(1, total);
  }

  /** The long list, with the surrounding pages split out. */
  lemma LongListParts(current: int, total: int, maxVisible: int)
    requires maxVisible == 3 || maxVisible == 5
    requires total > maxVisible + 2 && 1 <= current <= total
    ensures var lead := if current > maxVisible - 1 then [Ellipsis] else [];
            var trail := if current < total - (maxVisible - 2) then [Ellipsis] else [];
            var mid := Range(Max(2, current - 1), Min(total - 1, current + 1));
      && PageNumbers(current, total, maxVisible) == [Number(1)] + lead + mid + trail + [Number(total)]
      && 1 <= |mid| <= 3 && mid[0] == Number(Max(2, current - 1)) && mid[|mid| - 1] == Number(Min(total - 1, current + 1))
  {
    RangeAt(Max(2, current - 1), Min(total - 1, current + 1));
  }

  /** When not every page fits, the list opens with page 1 and closes with the last page,
      and a marker follows page 1 exactly when `current > maxVisible - 1` and precedes the
      last page exactly when `current < total - (maxVisible - 2)`. */
  lemma LongListEnds(current: int, total: int, maxVisible: int)
    requires maxVisible == 3 || maxVisible == 5
    requires total > maxVisible + 2 && 1 <= current <= total
    ensures var r := PageNumbers(current, total, maxVisible);
      && |r| >= 3 && r[0] == Number(1) && r[|r| - 1] == Number(total)
      && (r[1] == Ellipsis <==> current > maxVisible - 1)
      && (r[|r| - 2] == Ellipsis <==> current < total - (maxVisible - 2))
  {
    LongListParts(current, total, maxVisible);
  }

  /** The numbers of the list rise strictly from left to right, and every one is a page. */
  lemma NumbersAscend(current: int, total: int, maxVisible: int)
    requires maxVisible == 3 || maxVisible == 5
    requires total >= 2 && 1 <= current <= total
    ensures var r := PageNumbers(current, total, maxVisible);
      && (forall k :: 0 <= k < |r| && r[k].Number? ==> 1 <= r[k].n <= total)
      && (forall j, k :: 0 <= j < k < |r| && r[j].Number? && r[k].Number? ==> r[j].n < r[k].n)
  {
    if total <= maxVisible + 2 {
      RangeAt(1, total);
    } else {
      var lo, hi := Max(2, current - 1), Min(total - 1, current + 1);
      LongListParts(current, total, maxVisible);
      RangeAt(lo, hi);
      var r := PageNumbers(current, total, maxVisible);
      var a := if current > maxVisible - 1 then 2 else 1;
      // r[a .. a + |mid|) is the middle range; before it only page 1 and a marker, after it
      // only a marker and the last page
      forall k | 0 <= k < |r| && r[k].Number?
        ensures 1 <= r[k].n <= total
        ensures k == 0 ==> r[k].n == 1
        ensures a <= k < a + hi - lo + 1 ==> r[k].n == lo + k - a
        ensures k >= a + hi - lo + 1 ==> r[k].n == total
      {
      }
    }
  }

  /** A gap can go unmarked: on a wide screen with ten pages, page 4 shows 1, 3, 4, 5, `...`,
      10, with page 2 missing and no marker in its place. */
  lemma UnmarkedGap()
    ensures PageNumbers(4, 10, 5) == [Number(1), Number(3), Number(4), Number(5), Ellipsis, Number(10)]
  {
    assert Range(3, 5) == [Number(3), Number(4), Number(5)] by {
      assert Range(5, 5) == [Number(5)];
      assert Range(4, 5) == [Number(4), Number(5)];
    }
  }

  /** A marker can stand for no gap: on a narrow screen with ten pages, page 3 shows 1, `...`,
      2, 3, 4, `...`, 10, where nothing lies between 1 and 2. */
  lemma EmptyGapMarked()
    ensures PageNumbers(3, 10, 3) == [Number(1), Ellipsis, Number(2), Number(3), Number(4), Ellipsis, Number(10)]
  {
    assert Range(2, 4) == [Number(2), Number(3), Number(4)] by {
      assert Range(4, 4) == [Number(4)];
      assert Range(3, 4) == [Number(3), Number(4)];
    }
  }

  // ---------------------------------------------------------------- the component

  /** What the bar shows: whether Prev and Next are disabled, and the entries between them. */
  datatype Controls = Controls(prevDisabled: bool, items: seq<PageItem>, nextDisabled: bool)

  /** `Pagination({ currentPage, totalPages })`: nothing when there is at most one page. */
  method Render(current: int, total: int, width: int) returns (view: Option<Controls>)
    ensures view.None? <==> total <= 1
    ensures view.Some? ==> view.value.prevDisabled == (current == 1) && view.value.nextDisabled == (current == total)
    ensures view.Some? ==> view.value.items == PageNumbers(current, total, MaxVisible(width))
  {
    if total <= 1 {
      return None;
    }
    var numbers := GetPageNumbers(current, total, MaxVisible(width));
    view := Some(Controls(current == 1, numbers, current == total));
  }

  /** A click on the bar. */
  datatype Click = PrevClick | NextClick | ItemClick(index: nat)

  /** The page `onPageChange` is called with; a disabled button calls nothing. */
  function PageChange(current: int, controls: Controls, click: Click): Option<int> {
    match click
    case PrevClick => if controls.prevDisabled then None else Some(current - 1)
    case NextClick => if controls.nextDisabled then None else Some(current + 1)
    case ItemClick(k) =>
      if k < |controls.items| && controls.items[k].Number? then Some(controls.items[k].n) else None
  }

  /** From a page in range, every click asks for a page in range: Prev is off on page 1,
      Next on the last page, and the markers ask for nothing. */
  lemma ClicksStayInRange(current: int, total: int, width: int, click: Click)
    requires total >= 2 && 1 <= current <= total
    ensures var c := Controls(current == 1, PageNumbers(current, total, MaxVisible(width)), current == total);
      && (click.ItemClick? && click.index < |c.items| && c.items[click.index] == Ellipsis ==> PageChange(current, c, click).None?)
      && (PageChange(current, c, click).Some? ==> 1 <= PageChange(current, c, click).value <= total)
  {
    NumbersAscend(current, total, MaxVisible(width));
  }
}
