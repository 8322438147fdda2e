/** Which rows of a long list are rendered: prefix sums with binary search, and fixed row heights. */
module VirtualList {
  const LOG_OVERSCAN := 16

  function Max(a: int, b: int): int {
    if a > b then a else b
  }

  function Min(a: int, b: int): int {
    if a < b then a else b
  }

  function MaxReal(a: real, b: real): real {
    if a > b then a else b
  }

  // Rows of measured heights.

  function SumOf(heights: seq<real>): real {
    if heights == [] then 0.0 else SumOf(heights[..|heights| - 1]) + heights[|heights| - 1]
  }

  /** Entry i is the total height of the rows before row i. */
  predicate AreOffsets(offsets: seq<real>, heights: seq<real>) {
    |offsets| == |heights| + 1 && forall i :: 0 <= i <= |heights| ==> offsets[i] == SumOf(heights[..i])
  }

  predicate NonNegative(heights: seq<real>) {
    forall i :: 0 <= i < |heights| ==> heights[i] >= 0.0
  }

  lemma OffsetStep(heights: seq<real>, i: nat)
    requires i < |heights|
    ensures SumOf(heights[..i + 1]) == SumOf(heights[..i]) + heights[i]
  {
    assert heights[..i + 1][..i] == heights[..i];
  }

  method RowOffsets(heights: seq<real>) returns (offsets: array<real>)
    ensures fresh(offsets) && AreOffsets(offsets[..], heights)
  {
    offsets := new real[|heights| + 1];
    offsets[0] := 0.0;
    for index := 0 to |heights|
      invariant forall i :: 0 <= i <= index ==> offsets[i] == SumOf(heights[..i])
    {
      OffsetStep(heights, index);
      offsets[index + 1] := offsets[index] + heights[index];
    }
  }

  lemma {:induction false} OffsetsAscend(offsets: seq<real>, heights: seq<real>, i: nat, j: nat)
    requires AreOffsets(offsets, heights) && NonNegative(heights) && i <= j <= |heights|
    ensures offsets[i] <= offsets[j]
    decreases j
  {
    if i < j {
      OffsetStep(heights, j - 1);
      OffsetsAscend(offsets, heights, i, j - 1);
    }
  }

  /** The last of the rows that do not start after `offset`; row 0 if all do. */
  ghost predicate IsRowAt(offsets: seq<real>, offset: real, row: nat) {
    && row <= Max(0, |offsets| - 2) && row < |offsets|
    && (row > 0 ==> offsets[row] <= offset)
    && forall j :: row < j <= Max(0, |offsets| - 2) ==> offsets[j] > offset
  }

  method IndexAtOffset(offsets: seq<real>, offset: real, ghost heights: seq<real>) returns (row: nat)
    requires AreOffsets(offsets, heights) && NonNegative(heights)
    ensures IsRowAt(offsets, offset, row)
  {
    var last := Max(0, |offsets| - 2);
    var low, high := 0, last;
    while low < high
      invariant 0 <= low <= high <= last
      invariant low > 0 ==> offsets[low] <= offset
      invariant forall j :: high < j <= last ==> offsets[j] > offset
    {
      var mid := (low + high + 1) / 2;
      if offsets[mid] <= offset {
        low := mid;
      } else {
        forall j | mid <= j <= last
          ensures offsets[j] > offset
        {
          OffsetsAscend(offsets, heights, mid, j);
        }
        high := mid - 1;
      }
    }
    row := low;
  }

  datatype Range = Range(start: nat, end: int)

  /** Row i begins above the lower edge of the viewport and ends below the upper one. Its height may be zero. */
  predicate InView(offsets: seq<real>, i: nat, scrollTop: real, viewport: real)
    requires i + 1 < |offsets|
  {
    offsets[i] < scrollTop + viewport && offsets[i + 1] > scrollTop
  }

  /** Scrolled above the list, where only rows of no height end before anything is shown. */
  predicate AboveList(offsets: seq<real>, i: nat, scrollTop: real)
    requires i + 1 < |offsets|
  {
    scrollTop < 0.0 && offsets[i + 1] <= 0.0
  }

  /** The range computation of the list for rows of measured heights. */
  method MeasuredRange(offsets: seq<real>, scrollTop: real, viewport: real, ghost heights: seq<real>)
    returns (range: Range, ghost first: nat, ghost last: nat)
    requires AreOffsets(offsets, heights) && NonNegative(heights)
    ensures forall i ::
              0 <= i < |heights| && InView(offsets, i, scrollTop, viewport) && !AboveList(offsets, i, scrollTop) ==>
                range.start <= i < range.end
    ensures IsRowAt(offsets, MaxReal(0.0, scrollTop), first) && IsRowAt(offsets, scrollTop + viewport, last)
    ensures range == Range(Max(0, first - 16), Min(|heights|, last + 1 + 16))
  {
    var start := IndexAtOffset(offsets, MaxReal(0.0, scrollTop), heights);
    var endIndex := IndexAtOffset(offsets, scrollTop + viewport, heights);
    range := Range(Max(0, start - LOG_OVERSCAN), Min(|offsets| - 1, endIndex + 1 + LOG_OVERSCAN));
    first, last := start, endIndex;
    forall i | 0 <= i < |heights| && InView(offsets, i, scrollTop, viewport) && !AboveList(offsets, i, scrollTop)
      ensures range.start <= i < range.end
    {
      ViewedRowIsBetween(offsets, heights, i, scrollTop, viewport, start, endIndex);
    }
  }

  /** Every row that is in view lies between the rows found for the edges of the viewport. */
  lemma ViewedRowIsBetween(offsets: seq<real>, heights: seq<real>, i: nat, scrollTop: real, viewport: real,
                           first: nat, last: nat)
    requires AreOffsets(offsets, heights) && NonNegative(heights) && i < |heights|
    requires InView(offsets, i, scrollTop, viewport) && !AboveList(offsets, i, scrollTop)
    requires IsRowAt(offsets, MaxReal(0.0, scrollTop), first) && IsRowAt(offsets, scrollTop + viewport, last)
    ensures first <= i <= last
  {
    OffsetsAscend(offsets, heights, 0, i);
    if first > i {
      OffsetsAscend(offsets, heights, i + 1, first);
    }
  }

  lemma {:induction false} ZeroOffsets(offsets: seq<real>, heights: seq<real>, i: nat)
    requires AreOffsets(offsets, heights) && (forall k :: 0 <= k < |heights| ==> heights[k] == 0.0) && i <= |heights|
    ensures offsets[i] == 0.0
  {
    if i > 0 {
      OffsetStep(heights, i - 1);
      ZeroOffsets(offsets, heights, i - 1);
    }
  }

  /** There a row of no height can be missed: the first of more such rows than the overscan reaches back. */
  lemma MissedAboveList(offsets: seq<real>, heights: seq<real>, first: nat)
    requires AreOffsets(offsets, heights) && (forall k :: 0 <= k < |heights| ==> heights[k] == 0.0)
    requires |heights| > LOG_OVERSCAN + 1 && IsRowAt(offsets, MaxReal(0.0, -1.0), first)
    ensures InView(offsets, 0, -1.0, 10.0) && Max(0, first - LOG_OVERSCAN) > 0
  {
    ZeroOffsets(offsets, heights, 0);
    ZeroOffsets(offsets, heights, 1);
    ZeroOffsets(offsets, heights, |heights| - 1);
  }

  // Rows of one height.

  function Ceil(x: real): int {
    -((-x).Floor)
  }

  /** Where row `n` begins. */
  function Top(n: int, h: real): real {
    n as real * h
  }

  lemma TopOrder(m: int, n: int, h: real)
    requires h > 0.0
    ensures m < n ==> Top(m, h) < Top(n, h)
    ensures m <= n ==> Top(m, h) <= Top(n, h)
  {
    var d := (n - m) as real;
    assert d == n as real - m as real;
    assert d * h == n as real * h - m as real * h;
    if m < n {
      assert d > 0.0 && d * h > 0.0;
    }
  }

  lemma TopSum(m: int, n: int, h: real)
    ensures Top(m + n, h) == Top(m, h) + Top(n, h) && Top(1, h) == h
  {
    assert (m + n) as real == m as real + n as real;
  }

  lemma QuotientOrder(x: real, h: real, n: int)
    requires h > 0.0
    ensures n as real <= x / h <==> Top(n, h) <= x
    ensures n as real < x / h <==> Top(n, h) < x
  {
    var q, r := x / h, n as real;
    assert q * h == x;
    assert (q - r) * h == x - r * h;
    if r < q {
      assert (q - r) * h > 0.0;
    } else {
      assert (r - q) * h >= 0.0;
    }
    assert r > q ==> (r - q) * h > 0.0;
  }

  /** The first row that the viewport reaches, before overscan. */
  function FirstRow(scrollTop: real, h: real): (a: nat)
    requires h > 0.0
    ensures Top(a, h) <= MaxReal(0.0, scrollTop) < Top(a + 1, h)
  {
    var s := MaxReal(0.0, scrollTop);
    var a := (s / h).Floor;
    QuotientOrder(s, h, a);
    QuotientOrder(s, h, a + 1);
    QuotientOrder(s, h, 0);
    a
  }

  /** How many rows fit, rounded up. */
  function RowsPerView(viewport: real, h: real): (v: nat)
    requires h > 0.0
    ensures Top(v - 1, h) < MaxReal(0.0, viewport) <= Top(v, h)
  {
    var w := MaxReal(0.0, viewport);
    var q := w / h;
    var v := Ceil(q);
    assert v as real >= q && (v - 1) as real < q;
    QuotientOrder(w, h, v);
    QuotientOrder(w, h, v - 1);
    QuotientOrder(w, h, 0);
    TopOrder(v - 1, v, h);
    v
  }

  function VisibleIndexRange(count: int, scrollTop: real, viewport: real, rowHeight: real, overscan: nat): Range {
    if count <= 0 || rowHeight <= 0.0 then Range(0, 0)
    else
      var start := Max(0, FirstRow(scrollTop, rowHeight) - overscan);
      Range(start, Min(count, start + RowsPerView(viewport, rowHeight) + overscan * 2))
  }

  predicate RowInView(i: int, scrollTop: real, viewport: real, h: real) {
    Top(i, h) < scrollTop + viewport && Top(i + 1, h) > scrollTop
  }

  /** The row after those that fit. */
  function RowPast(scrollTop: real, viewport: real, h: real): nat
    requires h > 0.0
  {
    FirstRow(scrollTop, h) + RowsPerView(viewport, h)
  }

  /** A row in view is at most one row past the number of rows that fit. */
  lemma InViewBounds(i: nat, scrollTop: real, viewport: real, h: real)
    requires h > 0.0 && RowInView(i, scrollTop, viewport, h)
    ensures FirstRow(scrollTop, h) <= i <= RowPast(scrollTop, viewport, h)
  {
    var a, v := FirstRow(scrollTop, h), RowsPerView(viewport, h);
    if i < a {
      TopOrder(i + 1, a, h);
      TopOrder(0, i + 1, h);
    }
    if i > a + v {
      TopOrder(a + 1 + v, i, h);
      TopSum(a + 1, v, h);
    }
  }

  predicate CoversView(range: Range, count: nat, scrollTop: real, viewport: real, h: real) {
    forall i :: 0 <= i < count && RowInView(i, scrollTop, viewport, h) ==> range.start <= i < range.end
  }

  /**
   Every row in view is rendered exactly when there is overscan, or the row after
   those that fit does not exist or begins below the viewport.
   */
  lemma FixedRangeCovers(count: nat, scrollTop: real, viewport: real, h: real, overscan: nat)
    requires h > 0.0
    ensures CoversView(VisibleIndexRange(count, scrollTop, viewport, h, overscan), count, scrollTop, viewport, h)
       <==> (overscan >= 1 || RowPast(scrollTop, viewport, h) >= count ||
         Top(RowPast(scrollTop, viewport, h), h) >= scrollTop + viewport)
  {
    var range := VisibleIndexRange(count, scrollTop, viewport, h, overscan);
    var a, next := FirstRow(scrollTop, h), RowPast(scrollTop, viewport, h);
    forall i | 0 <= i < count && RowInView(i, scrollTop, viewport, h)
      ensures a <= i <= next
    {
      InViewBounds(i, scrollTop, viewport, h);
    }
    if overscan == 0 && next < count && Top(next, h) < scrollTop + viewport {
      TopOrder(a + 1, next + 1, h);
      assert RowInView(next, scrollTop, viewport, h);
    }
  }

  /** No more rows are rendered than fit, rounded up, and the overscan on both sides. */
  lemma FixedRangeIsSmall(count: int, scrollTop: real, viewport: real, h: real, overscan: nat)
    requires h > 0.0
    ensures var range := VisibleIndexRange(count, scrollTop, viewport, h, overscan);
            range.end <= Max(0, count) && range.end - range.start <= RowsPerView(viewport, h) + 2 * overscan
    ensures viewport > 0.0 ==> Top(RowsPerView(viewport, h) - 1, h) < viewport
  {
  }

  /** Without overscan half a row can be missed: rows of height 10, scrolled by 5, in a view of height 10. */
  lemma MissedWithoutOverscan()
    ensures RowInView(1, 5.0, 10.0, 10.0) && VisibleIndexRange(3, 5.0, 10.0, 10.0, 0) == Range(0, 1)
  {
    assert 5.0 / 10.0 == 0.5 && 0.5.Floor == 0 && 10.0 / 10.0 == 1.0;
  }
}
