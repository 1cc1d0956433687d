/** The pagination bar: a window of at most five page numbers around the
    current page, and the previous/next buttons. */
module Pagination {
  import opened Basics

  const MaxPagesToShow := 5

  function Max(a: int, b: int): int {
    if a >= b then a else b
  }

  function Min(a: int, b: int): int {
    if a <= b then a else b
  }

  /** The first and last page of the window: centred on the current page
      (two before it), pushed right to start at 1, and, when it would pass
      the last page, ending on the last page and reaching back five pages
      but not before 1. */
  function Bounds(current: int, total: int): (int, int) {
    var start := Max(1, current - MaxPagesToShow / 2);
    var end := start + MaxPagesToShow - 1;
    if end > total then (Max(1, total - MaxPagesToShow + 1), total) else (start, end)
  }

  /** The page numbers the bar shows, `for (i = start; i <= end; i++)`. */
  function Window(current: int, total: int): (pages: seq<int>)
    ensures total >= 0 ==> |pages| == Min(MaxPagesToShow, total)
    ensures total < 0 ==> pages == []
    ensures forall i :: 0 < i < |pages| ==> pages[i] == pages[i - 1] + 1
    ensures forall i :: 0 <= i < |pages| ==> 1 <= pages[i] <= total
    ensures 1 <= current <= total ==> current in pages
  {
    var (start, end) := Bounds(current, total);
    if end < start then []
    else
      var pages := seq(end - start + 1, i => start + i);
      assert 1 <= current <= total ==> pages[current - start] == current;
      pages
  }

  /** Each page of the window is the first page plus its position. */
  lemma {:induction false} WindowOffset(current: int, total: int, i: int)
    requires 0 <= i < |Window(current, total)|
    ensures Window(current, total)[i] == Window(current, total)[0] + i
  {
    if i > 0 {
      WindowOffset(current, total, i - 1);
    }
  }

  /** The window is strictly increasing: no page appears twice, and pages
      appear in order. */
  lemma WindowStrictlyIncreasing(current: int, total: int, i: int, j: int)
    requires 0 <= i < j < |Window(current, total)|
    ensures Window(current, total)[i] < Window(current, total)[j]
  {
    WindowOffset(current, total, i);
    WindowOffset(current, total, j);
  }

  /** Away from both ends, the window is the current page with two pages on
      each side. */
  lemma WindowCentred(current: int, total: int)
    requires current >= 3 && current + 2 <= total
    ensures Window(current, total) == [current - 2, current - 1, current, current + 1, current + 2]
  {
  }

  /** The previous button: disabled on page 1, otherwise asks for the page
      before. None stands for a disabled button. */
  function PreviousRequest(current: int): (r: Option<int>)
    ensures r.None? <==> current == 1
    ensures r.Some? ==> r.value == current - 1
  {
    if current == 1 then None else Some(current - 1)
  }

  /** The next button: disabled on the last page, otherwise asks for the
      page after. */
  function NextRequest(current: int, total: int): (r: Option<int>)
    ensures r.None? <==> current == total
    ensures r.Some? ==> r.value == current + 1
  {
    if current == total then None else Some(current + 1)
  }
}
