/**
 * The neighbourhood a filter samples around one pixel: a level x level
 * square (level 3, 5 or 7), cut off where it would leave the image. Along
 * each axis the source decides how much of the square to keep with an
 * if-else chain over the pixel's index; this module defines that chain and
 * the window it is meant to select.
 */
module Windows {
  import opened Geometry
  import opened Seqs

  /** The three window sides the filters support. */
  predicate ValidLevel(level: int)
  {
    level == 3 || level == 5 || level == 7
  }

  /** How far the window reaches from its centre along each axis. */
  function Reach(level: int): nat
    requires ValidLevel(level)
  {
    (level - 1) / 2
  }

  /** How many pixels the window covers before and after the centre on one axis. */
  datatype Span = Span(before: int, after: int)

  /** Both extents lie in 0..3, the reach of the largest window. */
  predicate SpanFits(s: Span)
  {
    0 <= s.before <= 3 && 0 <= s.after <= 3
  }

  /** Does code `c` name a cell of the window with the given row and column spans? */
  predicate InWindow(c: int, rows: Span, cols: Span)
  {
    && IsCode(c)
    && var d := CodeToDelta(c);
    && -rows.before <= d.row <= rows.after
    && -cols.before <= d.col <= cols.after
  }

  /** Codes of the cells (row, lo) .. (row, hi), left to right. */
  function RowCodes(row: int, lo: int, hi: int): (m: seq<int>)
    requires -3 <= row <= 3 && -3 <= lo && hi <= 3
    ensures |m| == if lo <= hi then hi - lo + 1 else 0
    ensures forall c :: c in m <==> IsCode(c) && CodeToDelta(c).row == row && lo <= CodeToDelta(c).col <= hi
    ensures NoDup(m)
    decreases hi - lo
  {
    if lo > hi then []
    else
      var tail := RowCodes(row, lo + 1, hi);
      RowCodesCons(row, lo, hi, tail);
      [DeltaToCode(Delta(row, lo))] + tail
  }

  /** Putting cell (row, lo) in front of the cells (row, lo+1) .. (row, hi). */
  lemma RowCodesCons(row: int, lo: int, hi: int, tail: seq<int>)
    requires -3 <= row <= 3 && -3 <= lo <= hi <= 3
    requires forall c :: c in tail <==> IsCode(c) && CodeToDelta(c).row == row && lo + 1 <= CodeToDelta(c).col <= hi
    requires NoDup(tail)
    ensures forall c :: c in [DeltaToCode(Delta(row, lo))] + tail <==>
      IsCode(c) && CodeToDelta(c).row == row && lo <= CodeToDelta(c).col <= hi
    ensures NoDup([DeltaToCode(Delta(row, lo))] + tail)
  {
    var m := [DeltaToCode(Delta(row, lo))] + tail;
    DeltaRoundTrip(Delta(row, lo));
    CodeRoundTripAll();
    NoDupCons(m);
  }

  lemma CodeRoundTripAll()
    ensures forall c | IsCode(c) :: DeltaToCode(CodeToDelta(c)) == c
  {
    forall c | IsCode(c) ensures DeltaToCode(CodeToDelta(c)) == c {
      CodeRoundTrip(c);
    }
  }

  /**
   * The number of cells of a rectangle `height` rows high and `width`
   * columns wide, counted row by row as the enumeration below visits them.
   */
  function Cells(height: nat, width: nat): nat
  {
    if height == 0 then 0 else width + Cells(height - 1, width)
  }

  lemma {:induction false} CellsIsProduct(height: nat, width: nat)
    ensures Cells(height, width) == height * width
  {
    if height > 0 {
      CellsIsProduct(height - 1, width);
    }
  }

  /** The number of pixels a span covers on its axis, the centre included. */
  function Extent(s: Span): nat
    requires SpanFits(s)
  {
    s.before + s.after + 1
  }

  /** Codes of the `height` rows from row `top` down, each across the columns of `cols`, row by row. */
  function Rows(top: int, height: nat, cols: Span): (m: seq<int>)
    requires -3 <= top && top + height <= 4 && SpanFits(cols)
    ensures |m| == Cells(height, Extent(cols))
    ensures forall c :: c in m <==>
      IsCode(c) && top <= CodeToDelta(c).row < top + height && -cols.before <= CodeToDelta(c).col <= cols.after
    ensures NoDup(m)
    decreases height
  {
    if height == 0 then []
    else
      var first := RowCodes(top, -cols.before, cols.after);
      var rest := Rows(top + 1, height - 1, cols);
      RowsCons(top, height, cols, first, rest);
      first + rest
  }

  /** Putting row `top` above the rows below it. */
  lemma RowsCons(top: int, height: nat, cols: Span, first: seq<int>, rest: seq<int>)
    requires -3 <= top && 1 <= height && top + height <= 4 && SpanFits(cols)
    requires |first| == Extent(cols) && NoDup(first)
    requires forall c :: c in first <==>
      IsCode(c) && CodeToDelta(c).row == top && -cols.before <= CodeToDelta(c).col <= cols.after
    requires |rest| == Cells(height - 1, Extent(cols)) && NoDup(rest)
    requires forall c :: c in rest <==>
      IsCode(c) && top + 1 <= CodeToDelta(c).row < top + height && -cols.before <= CodeToDelta(c).col <= cols.after
    ensures |first + rest| == Cells(height, Extent(cols))
    ensures forall c :: c in first + rest <==>
      IsCode(c) && top <= CodeToDelta(c).row < top + height && -cols.before <= CodeToDelta(c).col <= cols.after
    ensures NoDup(first + rest)
  {
    NoDupAppend(first, rest);
  }

  /**
   * The window with the given spans, enumerated row by row: every cell
   * exactly once.
   */
  function Window(rows: Span, cols: Span): (m: seq<int>)
    requires SpanFits(rows) && SpanFits(cols)
    ensures forall c :: c in m <==> InWindow(c, rows, cols)
    ensures NoDup(m)
    ensures 1 in m
  {
    assert InWindow(1, rows, cols);
    Rows(-rows.before, Extent(rows), cols)
  }

  /** The window has one entry per cell of its rectangle. */
  lemma WindowSize(rows: Span, cols: Span)
    requires SpanFits(rows) && SpanFits(cols)
    ensures |Window(rows, cols)| == Cells(Extent(rows), Extent(cols))
  {
  }

  /**
   * The branch an axis chain takes. Along an axis of n pixels with reach R
   * the chain tests, in order, index 0, 1, .., R-1, then n-R, .., n-1, and
   * falls through to the full span; branch k tests `BranchTarget(k)`.
   */
  function BranchTarget(level: int, n: int, k: nat): int
    requires ValidLevel(level) && k < 2 * Reach(level)
  {
    var r := Reach(level);
    if k < r then k else n - 2 * r + k
  }

  /** First branch at or after `k` whose test holds, or 2R when none does. */
  function FirstBranch(level: int, i: int, n: int, k: nat): (b: nat)
    requires ValidLevel(level) && k <= 2 * Reach(level)
    ensures k <= b <= 2 * Reach(level)
    ensures b < 2 * Reach(level) ==> i == BranchTarget(level, n, b)
    ensures forall k' | k <= k' < b :: i != BranchTarget(level, n, k')
    decreases 2 * Reach(level) - k
  {
    if k == 2 * Reach(level) then k
    else if i == BranchTarget(level, n, k) then k
    else FirstBranch(level, i, n, k + 1)
  }

  /** The branch of the axis chain taken for index i of n. */
  function AxisClass(level: int, i: int, n: int): nat
    requires ValidLevel(level)
  {
    FirstBranch(level, i, n, 0)
  }

  /** The span each branch's hand-written neighbour lists cover. */
  function ClassSpan(level: int, k: nat): (s: Span)
    requires ValidLevel(level) && k <= 2 * Reach(level)
    ensures SpanFits(s)
  {
    var r := Reach(level);
    if k < r then Span(k, r)
    else if k < 2 * r then Span(r, 2 * r - k - 1)
    else Span(r, r)
  }

  function Min(a: int, b: int): int { if a < b then a else b }

  /**
   * The span a window of the given level keeps at index i of an axis of n
   * pixels: as far as the reach allows without leaving 0 .. n-1.
   */
  function ClippedSpan(level: int, i: int, n: int): (s: Span)
    requires ValidLevel(level) && 0 <= i < n
    ensures SpanFits(s)
    ensures s.before <= Reach(level) && 0 <= i - s.before
    ensures s.after <= Reach(level) && i + s.after < n
    ensures s.before == Reach(level) || i - s.before == 0
    ensures s.after == Reach(level) || i + s.after == n - 1
  {
    Span(Min(i, Reach(level)), Min(n - 1 - i, Reach(level)))
  }

  /**
   * The chain's branch gives the clipped span at every index of an axis
   * exactly when the axis has at least level-1 pixels.
   */
  lemma ClassSpanExact(level: int, n: int)
    requires ValidLevel(level) && n >= 1
    ensures (forall i | 0 <= i < n :: ClassSpan(level, AxisClass(level, i, n)) == ClippedSpan(level, i, n))
            <==> n >= level - 1
  {
    var r := Reach(level);
    if n >= level - 1 {
      forall i | 0 <= i < n ensures ClassSpan(level, AxisClass(level, i, n)) == ClippedSpan(level, i, n) {
        ClassSpanAt(level, i, n);
      }
    } else {
      var i := Min(r - 1, n - 1);
      ClassSpanMismatch(level, i, n);
    }
  }

  lemma ClassSpanAt(level: int, i: int, n: int)
    requires ValidLevel(level) && n >= level - 1 && 0 <= i < n
    ensures ClassSpan(level, AxisClass(level, i, n)) == ClippedSpan(level, i, n)
  {
    var r := Reach(level);
    var k := AxisClass(level, i, n);
    if i < r {
      assert i == BranchTarget(level, n, i);
    } else if i >= n - r {
      assert i == BranchTarget(level, n, i - n + 2 * r);
    }
  }

  lemma ClassSpanMismatch(level: int, i: int, n: int)
    requires ValidLevel(level) && 1 <= n < level - 1 && i == Min(Reach(level) - 1, n - 1)
    ensures 0 <= i < n
    ensures ClassSpan(level, AxisClass(level, i, n)) != ClippedSpan(level, i, n)
  {
    assert i == BranchTarget(level, n, i);
  }

  /**
   * The part of the level x level window around pixel (i, j) of an h x w
   * image that lies inside the image: every in-bounds cell exactly once.
   */
  function ClippedMask(level: int, i: int, j: int, h: int, w: int): (m: seq<int>)
    requires ValidLevel(level) && 0 <= i < h && 0 <= j < w
    ensures NoDup(m)
    ensures 1 in m && |m| <= Area(level) <= MaxCodes
    ensures forall c :: c in m <==>
      && IsCode(c) && c <= Area(level)
      && 0 <= i + CodeToDelta(c).row < h
      && 0 <= j + CodeToDelta(c).col < w
  {
    var rows, cols := ClippedSpan(level, i, h), ClippedSpan(level, j, w);
    ClippedCount(level, i, j, h, w);
    ClippedWindowMembers(level, i, j, h, w);
    Window(rows, cols)
  }

  /** The clipped window never has more cells than the full one. */
  lemma ClippedCount(level: int, i: int, j: int, h: int, w: int)
    requires ValidLevel(level) && 0 <= i < h && 0 <= j < w
    ensures |Window(ClippedSpan(level, i, h), ClippedSpan(level, j, w))| <= Area(level)
  {
    var m := Window(ClippedSpan(level, i, h), ClippedSpan(level, j, w));
    ClippedWindowMembers(level, i, j, h, w);
    forall k | 0 <= k < |m| ensures 1 <= m[k] <= Area(level) {
      assert m[k] in m;
    }
    BoundedNoDup(m, Area(level));
  }

  lemma ClippedWindowMembers(level: int, i: int, j: int, h: int, w: int)
    requires ValidLevel(level) && 0 <= i < h && 0 <= j < w
    ensures forall c :: InWindow(c, ClippedSpan(level, i, h), ClippedSpan(level, j, w)) <==>
      && IsCode(c) && c <= Area(level)
      && 0 <= i + CodeToDelta(c).row < h
      && 0 <= j + CodeToDelta(c).col < w
  {
    forall c | IsCode(c) {
      WindowIsLeadingCodes(level, c);
    }
  }
}
