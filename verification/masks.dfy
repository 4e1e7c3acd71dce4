/**
 * How the filters pick and pass a neighbour list: the row and column
 * if-else chains choose one of the hand-written lists, which is copied into a
 * zero-padded array of 49 slots and read back up to the first zero.
 */
module Masks {
  import opened Geometry
  import opened Seqs
  import opened Windows
  import opened MaskTables

  /** Slots in the location array: the largest window's cell count. */
  const Slots: nat := 49

  /** The list chosen by the two chains for pixel (i, j) of an h x w image. */
  function SelectMask(level: int, i: int, j: int, h: int, w: int): seq<int>
    requires ValidLevel(level)
  {
    MaskTable(level, AxisClass(level, i, h), AxisClass(level, j, w))
  }

  /**
   * On images at least level-1 pixels high and wide, the chosen list names
   * exactly the in-image cells of the window, each once.
   */
  lemma SelectMaskExact(level: int, i: int, j: int, h: int, w: int)
    requires ValidLevel(level) && 0 <= i < h && 0 <= j < w
    requires h >= level - 1 && w >= level - 1
    ensures NoDup(SelectMask(level, i, j, h, w))
    ensures forall c :: c in SelectMask(level, i, j, h, w) <==> c in ClippedMask(level, i, j, h, w)
    ensures multiset(SelectMask(level, i, j, h, w)) == multiset(ClippedMask(level, i, j, h, w))
  {
    var rk, ck := AxisClass(level, i, h), AxisClass(level, j, w);
    ClassSpanAt(level, i, h);
    ClassSpanAt(level, j, w);
    TableExact(level, rk, ck);
  }

  /**
   * A one-pixel image under the 3x3 filter: the chains choose the list for
   * the first row and first column, which names the cells to the right of
   * and below the pixel although neither exists.
   */
  lemma SmallImageMask()
    ensures SelectMask(3, 0, 0, 1, 1) == [1, 2, 8, 9]
    ensures CodeToDelta(2) == Delta(0, 1)
    ensures 2 !in ClippedMask(3, 0, 0, 1, 1)
  {
    assert AxisClass(3, 0, 1) == 0 by {
      assert BranchTarget(3, 1, 0) == 0;
    }
  }

  /**
   * The location array: the list followed by zeros up to 49 slots, as an
   * array initialiser with fewer values than elements leaves it.
   */
  function Locations(mask: seq<int>): (loc: seq<int>)
    requires |mask| <= Slots
    ensures |loc| == Slots
    ensures loc[..|mask|] == mask
    ensures forall k | |mask| <= k < Slots :: loc[k] == 0
  {
    mask + seq(Slots - |mask|, _ => 0)
  }

  /**
   * The collecting loop with the test order as written: slot i is read
   * before `i < 49` is checked, so a stop after 49 non-zero slots reads one
   * slot past the array. `beyond` stands for whatever lies there. The
   * result is the collected codes and the last slot index read.
   */
  function ScanAsWritten(loc: seq<int>, beyond: int, i: nat): (seq<int>, nat)
    requires |loc| == Slots && i <= Slots
    decreases Slots - i
  {
    var v := if i < Slots then loc[i] else beyond;
    if v != 0 && i < Slots then
      var rest := ScanAsWritten(loc, beyond, i + 1);
      ([v] + rest.0, rest.1)
    else ([], i)
  }

  /** The loop with the bound tested first: it reads only slots 0..48. */
  function Scan(loc: seq<int>, i: nat): seq<int>
    requires |loc| == Slots && i <= Slots
    decreases Slots - i
  {
    if i < Slots && loc[i] != 0 then [loc[i]] + Scan(loc, i + 1) else []
  }

  /** The loop collects the slots up to the first zero, or all 49. */
  lemma {:induction false} ScanStops(loc: seq<int>, i: nat, n: nat)
    requires |loc| == Slots && i <= n <= Slots
    requires forall k | i <= k < n :: loc[k] != 0
    requires n == Slots || loc[n] == 0
    ensures Scan(loc, i) == loc[i..n]
    decreases n - i
  {
    if i < n {
      ScanStops(loc, i + 1, n);
      assert loc[i..n] == [loc[i]] + loc[i + 1..n];
    }
  }

  /**
   * The location array of a non-empty list of non-zero codes: its first
   * slot is set, every set slot holds a listed code, and reading it back
   * gives the list.
   */
  lemma LocationsOf(mask: seq<int>)
    requires 1 <= |mask| <= Slots && 0 !in mask
    ensures Locations(mask)[0] != 0
    ensures forall k | 0 <= k < Slots && Locations(mask)[k] != 0 :: Locations(mask)[k] in mask
    ensures Scan(Locations(mask), 0) == mask
  {
    var loc := Locations(mask);
    assert loc[0] == mask[0] && mask[0] in mask;
    forall k | 0 <= k < Slots && loc[k] != 0 ensures loc[k] in mask {
      assert k < |mask|;
      assert loc[k] == mask[k];
    }
    ScanRecoversMask(mask);
  }

  /** The clipped window's codes fit the location array. */
  lemma ClippedFits(level: int, i: int, j: int, h: int, w: int)
    requires ValidLevel(level) && 0 <= i < h && 0 <= j < w
    ensures 1 <= |ClippedMask(level, i, j, h, w)| <= Slots
    ensures 0 !in ClippedMask(level, i, j, h, w)
  {
    assert !IsCode(0);
  }

  lemma {:induction false} ScanFrom(mask: seq<int>, i: nat)
    requires |mask| <= Slots && 0 !in mask && i <= |mask|
    ensures Scan(Locations(mask), i) == mask[i..]
    decreases |mask| - i
  {
    if i < |mask| {
      assert Locations(mask)[i] == mask[i];
      assert mask[i] in mask;
      ScanFrom(mask, i + 1);
    }
  }

  lemma {:induction false} ScanAsWrittenFrom(mask: seq<int>, beyond: int, i: nat)
    requires |mask| <= Slots && 0 !in mask && i <= |mask|
    ensures ScanAsWritten(Locations(mask), beyond, i) == (mask[i..], |mask|)
    decreases |mask| - i
  {
    if i < |mask| {
      assert Locations(mask)[i] == mask[i];
      assert mask[i] in mask;
      assert mask[i..] == [mask[i]] + mask[i + 1..];
      ScanAsWrittenFrom(mask, beyond, i + 1);
    } else {
      assert mask[i..] == [];
      if i < Slots {
        assert Locations(mask)[i] == 0;
      }
    }
  }

  /**
   * Reading a list back from its location array gives the list, for any
   * list of non-zero codes that fits.
   */
  lemma ScanRecoversMask(mask: seq<int>)
    requires |mask| <= Slots && 0 !in mask
    ensures Scan(Locations(mask), 0) == mask
  {
    ScanFrom(mask, 0);
  }

  /**
   * The loop as written collects the same codes, but its last read is slot
   * |mask|: past the end of the 49-slot array exactly when the list is full.
   */
  lemma ScanAsWrittenOverreads(mask: seq<int>, beyond: int)
    requires |mask| <= Slots && 0 !in mask
    ensures ScanAsWritten(Locations(mask), beyond, 0).0 == Scan(Locations(mask), 0)
    ensures ScanAsWritten(Locations(mask), beyond, 0).1 >= Slots <==> |mask| == Slots
  {
    ScanFrom(mask, 0);
    ScanAsWrittenFrom(mask, beyond, 0);
  }

  /**
   * Of all the hand-written lists only the interior list of the 7x7 window
   * fills the array, so it is the one whose collection reads slot 49.
   */
  lemma TableOverreads(level: int, rowClass: nat, colClass: nat, beyond: int)
    requires ValidLevel(level) && rowClass <= 2 * Reach(level) && colClass <= 2 * Reach(level)
    ensures |MaskTable(level, rowClass, colClass)| <= Slots
    ensures ScanAsWritten(Locations(MaskTable(level, rowClass, colClass)), beyond, 0).1 >= Slots
        <==> level == 7 && rowClass == 6 && colClass == 6
  {
    var t := MaskTable(level, rowClass, colClass);
    TableExact(level, rowClass, colClass);
    ExactListSize(t, ClassSpan(level, rowClass), ClassSpan(level, colClass));
    FullSpan(level, rowClass);
    FullSpan(level, colClass);
    ScanAsWrittenOverreads(MaskTable(level, rowClass, colClass), beyond);
  }

  /** A hand-written list holds codes only, as many as its window has cells. */
  lemma TableSize(level: int, rowClass: nat, colClass: nat)
    requires ValidLevel(level) && rowClass <= 2 * Reach(level) && colClass <= 2 * Reach(level)
    ensures 0 !in MaskTable(level, rowClass, colClass)
    ensures |MaskTable(level, rowClass, colClass)|
         == |Window(ClassSpan(level, rowClass), ClassSpan(level, colClass))|
    ensures |MaskTable(level, rowClass, colClass)| <= Slots
  {
    TableExact(level, rowClass, colClass);
    ExactListSize(MaskTable(level, rowClass, colClass), ClassSpan(level, rowClass), ClassSpan(level, colClass));
  }

  /** A rearrangement of a window holds codes only, at most Slots of them. */
  lemma ExactListSize(t: seq<int>, rows: Span, cols: Span)
    requires SpanFits(rows) && SpanFits(cols)
    requires multiset(t) == multiset(Window(rows, cols))
    ensures 0 !in t
    ensures |t| == |Window(rows, cols)| <= Slots
    ensures |t| == Slots <==> rows.before + rows.after == 6 && cols.before + cols.after == 6
  {
    PermutationKeeps(t, Window(rows, cols));
    WindowCells(rows, cols);
  }

  /** A window holds codes only, and fills all Slots only when it is 7 by 7. */
  lemma WindowCells(rows: Span, cols: Span)
    requires SpanFits(rows) && SpanFits(cols)
    ensures 0 !in Window(rows, cols)
    ensures |Window(rows, cols)| <= Slots
    ensures |Window(rows, cols)| == Slots <==> rows.before + rows.after == 6 && cols.before + cols.after == 6
  {
    WindowSize(rows, cols);
    CellsBound(Extent(rows), Extent(cols));
  }

  /** Only the interior branch of the 7x7 chain spans seven cells. */
  lemma FullSpan(level: int, k: nat)
    requires ValidLevel(level) && k <= 2 * Reach(level)
    ensures ClassSpan(level, k).before + ClassSpan(level, k).after == 6 <==> level == 7 && k == 6
  {
  }

  /** A window of at most 7 by 7 cells has 49 cells only when it is 7 by 7. */
  lemma CellsBound(x: nat, y: nat)
    requires 1 <= x <= 7 && 1 <= y <= 7
    ensures Cells(x, y) <= Slots
    ensures Cells(x, y) == Slots <==> x == 7 && y == 7
  {
    CellsIsProduct(x, y);
    assert x * y <= 7 * y;
    if x < 7 {
      assert x * y <= 6 * y;
    } else if y < 7 {
      assert x * y <= x * 6;
    }
  }
}
