/**
 * Relative pixel addressing. A neighbour of the current pixel is named by a
 * code 1..49: code 1 is the pixel itself and each further ring of the 7x7
 * window is numbered clockwise as drawn on screen, starting at the cell
 * directly right of the centre and going up first:
 *
 *     16 15 14 13 12
 *     17  5  4  3 11
 *     18  6  1  2 10
 *     19  7  8  9 25
 *     20 21 22 23 24
 *
 * "Up" is one row EARLIER in storage order (a lower byte offset).
 */
module Geometry {

  /** Largest window side the filters support, and its cell count. */
  const MaxLevel: nat := 7
  const MaxCodes: nat := 49

  /** A displacement in storage rows and pixel columns. */
  datatype Delta = Delta(row: int, col: int)

  function Abs(x: int): nat { if x < 0 then -x else x }

  /** Chebyshev distance of a displacement from the centre. */
  function Chebyshev(d: Delta): nat
  {
    if Abs(d.row) < Abs(d.col) then Abs(d.col) else Abs(d.row)
  }

  predicate IsCode(c: int) { 1 <= c <= MaxCodes }

  /**
   * Ring of a code: ring k >= 1 holds the codes (2k-1)^2 + 1 .. (2k+1)^2.
   */
  function Ring(c: int): nat
    requires IsCode(c)
  {
    if c == 1 then 0 else if c <= 9 then 1 else if c <= 25 then 2 else 3
  }

  /** First code of ring k, that is (2k-1)^2 + 1. */
  function RingStart(k: nat): int
    requires 1 <= k <= 3
  {
    if k == 1 then 2 else if k == 2 then 10 else 26
  }

  /**
   * Displacement named by a code. Within ring k the position p runs from 0
   * at (0,+k) up the right edge, leftwards along the top, down the left
   * edge, rightwards along the bottom and back up the right edge.
   */
  function CodeToDelta(c: int): (d: Delta)
    requires IsCode(c)
    ensures Chebyshev(d) == Ring(c)
  {
    if c == 1 then Delta(0, 0)
    else
      var k: int := Ring(c);
      var p := c - RingStart(k);
      if p <= k then Delta(-p, k)
      else if p <= 3 * k then Delta(-k, 2 * k - p)
      else if p <= 5 * k then Delta(p - 4 * k, -k)
      else if p <= 7 * k then Delta(k, p - 6 * k)
      else Delta(8 * k - p, k)
  }

  /** Inverse numbering: the code of a displacement inside the 7x7 window. */
  function DeltaToCode(d: Delta): (c: int)
    requires Chebyshev(d) <= 3
    ensures IsCode(c)
    ensures Ring(c) == Chebyshev(d)
  {
    var k: int := Chebyshev(d);
    if k == 0 then 1
    else
      var p :=
        if d.col == k && d.row <= 0 then -d.row
        else if d.row == -k then 2 * k - d.col
        else if d.col == -k then d.row + 4 * k
        else if d.row == k then d.col + 6 * k
        else 8 * k - d.row;
      RingStart(k) + p
  }

  lemma CodeRoundTrip(c: int)
    requires IsCode(c)
    ensures DeltaToCode(CodeToDelta(c)) == c
  {
  }

  lemma DeltaRoundTrip(d: Delta)
    requires Chebyshev(d) <= 3
    ensures CodeToDelta(DeltaToCode(d)) == d
  {
  }

  /** Different codes address different cells. */
  lemma CodeToDeltaInjective(c1: int, c2: int)
    requires IsCode(c1) && IsCode(c2) && c1 != c2
    ensures CodeToDelta(c1) != CodeToDelta(c2)
  {
    CodeRoundTrip(c1);
    CodeRoundTrip(c2);
  }

  /** The number of cells of a level x level window, level 3, 5 or 7. */
  function Area(level: int): nat
    requires level in {3, 5, 7}
  {
    if level == 3 then 9 else if level == 5 then 25 else 49
  }

  lemma AreaIsSquare(level: int)
    requires level in {3, 5, 7}
    ensures Area(level) == level * level
  {
  }

  /**
   * The level x level window around the centre (level 3, 5 or 7) is
   * exactly the codes 1 .. level^2.
   */
  lemma WindowIsLeadingCodes(level: int, c: int)
    requires level in {3, 5, 7} && IsCode(c)
    ensures Chebyshev(CodeToDelta(c)) <= (level - 1) / 2 <==> c <= Area(level)
  {
  }

  /**
   * The displacement each `case` of the two sample-reading switches applies,
   * transcribed from its offset expression: `currentPos - m_width -
   * m_paddingBits + 1` (8-bit) and `currentPos - m_width*3 - m_paddingBits*3
   * + 1*3` (24-bit) are both Delta(-1, 1). Index i holds code i + 1.
   */
  const SwitchRing1: seq<Delta> := [
    Delta(0, 1), Delta(-1, 1), Delta(-1, 0), Delta(-1, -1),
    Delta(0, -1), Delta(1, -1), Delta(1, 0), Delta(1, 1)]
  const SwitchRing2: seq<Delta> := [
    Delta(0, 2), Delta(-1, 2), Delta(-2, 2), Delta(-2, 1),
    Delta(-2, 0), Delta(-2, -1), Delta(-2, -2), Delta(-1, -2),
    Delta(0, -2), Delta(1, -2), Delta(2, -2), Delta(2, -1),
    Delta(2, 0), Delta(2, 1), Delta(2, 2), Delta(1, 2)]
  const SwitchRing3: seq<Delta> := [
    Delta(0, 3), Delta(-1, 3), Delta(-2, 3), Delta(-3, 3),
    Delta(-3, 2), Delta(-3, 1), Delta(-3, 0), Delta(-3, -1),
    Delta(-3, -2), Delta(-3, -3), Delta(-2, -3), Delta(-1, -3),
    Delta(0, -3), Delta(1, -3), Delta(2, -3), Delta(3, -3),
    Delta(3, -2), Delta(3, -1), Delta(3, 0), Delta(3, 1),
    Delta(3, 2), Delta(3, 3), Delta(2, 3), Delta(1, 3)]

  function SwitchDelta(c: int): Delta
    requires IsCode(c)
  {
    if c == 1 then Delta(0, 0)
    else if c <= 9 then SwitchRing1[c - 2]
    else if c <= 25 then SwitchRing2[c - 10]
    else SwitchRing3[c - 26]
  }

  /** Every switch arm agrees with the ring numbering. */
  lemma SwitchArmsAgree(c: int)
    requires IsCode(c)
    ensures SwitchDelta(c) == CodeToDelta(c)
  {
    if 2 <= c <= 9 {
      SwitchRing1Agrees(c);
    } else if 10 <= c <= 25 {
      SwitchRing2Agrees(c);
    } else if 26 <= c {
      SwitchRing3Agrees(c);
    }
  }

  lemma SwitchRing1Agrees(c: int)
    requires 2 <= c <= 9
    ensures SwitchRing1[c - 2] == CodeToDelta(c)
  {
  }

  lemma SwitchRing2Agrees(c: int)
    requires 10 <= c <= 25
    ensures SwitchRing2[c - 10] == CodeToDelta(c)
  {
  }

  lemma SwitchRing3Agrees(c: int)
    requires 26 <= c <= 49
    ensures SwitchRing3[c - 26] == CodeToDelta(c)
  {
  }

  /**
   * Byte offset the switch reads for a code: the centre's offset moved by
   * whole rows of `stride` bytes and whole pixels of `bpp` bytes.
   */
  function NeighbourOffset(centre: int, c: int, stride: int, bpp: int): int
    requires IsCode(c)
  {
    var d := CodeToDelta(c);
    centre + d.row * stride + d.col * bpp
  }
}
