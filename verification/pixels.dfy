/**
 * Pixel storage in the file buffer: where pixel (row, column) lies, how its
 * colour is read (through the palette for 8-bit bitmaps, as blue-green-red
 * bytes for 24-bit ones) and how a new colour is written back.
 */
module Pixels {
  import opened Bytes
  import opened BmpHeader

  datatype Rgb = Rgb(r: byte, g: byte, b: byte)

  /**
   * Where the pixels lie: `rows` storage rows of `cols` pixels starting at
   * `offBits`, consecutive rows `stride` bytes apart.
   */
  datatype Layout = Layout(offBits: int, rows: nat, cols: nat, bitCount: int, stride: nat)

  function Bpp(lay: Layout): nat
  {
    BytesPerPixel(lay.bitCount)
  }

  predicate ValidLayout(lay: Layout)
  {
    && (lay.bitCount == 8 || lay.bitCount == 24)
    && lay.stride == RowStride(lay.cols, lay.bitCount)
    && 0 <= lay.offBits
  }

  function Abs(x: int): nat { if x < 0 then -x else x }

  /**
   * The layout a decoded header describes. Rows are processed in storage
   * order whatever the sign of the height, so only its magnitude counts.
   */
  function LayoutOf(h: Header): (lay: Layout)
    requires h.width >= 0 && h.offBits >= 0 && (h.bitCount == 8 || h.bitCount == 24)
    ensures ValidLayout(lay)
    ensures lay.rows == Abs(h.height) && lay.cols == h.width
  {
    Layout(h.offBits, Abs(h.height), h.width, h.bitCount, RowStride(h.width, h.bitCount))
  }

  /**
   * A bottom-up bitmap (positive height) and a top-down one (negative
   * height) of the same size share one layout: both are walked in storage
   * order over the magnitude of the height.
   */
  lemma HeightSignIgnored(h: Header)
    requires h.width >= 0 && h.offBits >= 0 && (h.bitCount == 8 || h.bitCount == 24)
    ensures LayoutOf(h.(height := -h.height)) == LayoutOf(h)
    ensures LayoutOf(h).rows == Abs(h.height)
  {
  }

  /** End of the pixel array. */
  function PixelEnd(lay: Layout): int
  {
    lay.offBits + lay.rows * lay.stride
  }

  /**
   * The buffer holds the pixel array and, for 8-bit bitmaps, the palette
   * entry every pixel's index byte selects.
   */
  predicate Fits(lay: Layout, file: seq<byte>)
  {
    && ValidLayout(lay)
    && PixelEnd(lay) <= |file|
    && (lay.bitCount == 8 ==> IndexesFit(lay, file))
  }

  predicate IndexesFit(lay: Layout, file: seq<byte>)
  {
    forall k | IsPixelByte(lay, k) && 0 <= k < |file| :: PalettePos + 4 * (file[k] as int) + 3 <= |file|
  }

  /** Byte offset of pixel (i, j). */
  function PixelPos(lay: Layout, i: int, j: int): int
  {
    lay.offBits + i * lay.stride + j * Bpp(lay)
  }

  lemma MulLeq(a: int, b: int, c: int)
    requires 0 <= a <= b && 0 <= c
    ensures a * c <= b * c
  {
  }

  /** Every pixel's bytes lie inside the pixel array. */
  lemma PixelInBounds(lay: Layout, i: int, j: int)
    requires ValidLayout(lay) && 0 <= i < lay.rows && 0 <= j < lay.cols
    ensures lay.offBits <= PixelPos(lay, i, j)
    ensures PixelPos(lay, i, j) + Bpp(lay) <= lay.offBits + (i + 1) * lay.stride <= PixelEnd(lay)
  {
    MulLeq(j + 1, lay.cols, Bpp(lay));
    MulLeq(i + 1, lay.rows, lay.stride);
    assert (i + 1) * lay.stride == i * lay.stride + lay.stride;
  }

  /**
   * Is byte k one of the colour bytes of a pixel, rather than a header,
   * palette or row-padding byte?
   */
  predicate IsPixelByte(lay: Layout, k: int)
  {
    && lay.offBits <= k < PixelEnd(lay)
    && lay.stride > 0
    && (k - lay.offBits) % lay.stride < lay.cols * Bpp(lay)
  }

  /** Two different pixels share no byte. */
  lemma PixelsDisjoint(lay: Layout, i: int, j: int, i2: int, j2: int)
    requires ValidLayout(lay) && 0 <= i < lay.rows && 0 <= j < lay.cols && 0 <= i2 < lay.rows && 0 <= j2 < lay.cols
    requires i != i2 || j != j2
    ensures PixelPos(lay, i2, j2) + Bpp(lay) <= PixelPos(lay, i, j) || PixelPos(lay, i, j) + Bpp(lay) <= PixelPos(lay, i2, j2)
  {
    if i == i2 {
      if j < j2 {
        MulLeq(j + 1, j2, Bpp(lay));
      } else {
        MulLeq(j2 + 1, j, Bpp(lay));
      }
    } else if i < i2 {
      PixelInBounds(lay, i, j);
      MulLeq(i + 1, i2, lay.stride);
    } else {
      PixelInBounds(lay, i2, j2);
      MulLeq(i2 + 1, i, lay.stride);
    }
  }

  /** The bytes of pixel (i, j) are pixel bytes. */
  lemma PixelBytes(lay: Layout, i: int, j: int, t: int)
    requires ValidLayout(lay) && 0 <= i < lay.rows && 0 <= j < lay.cols && 0 <= t < Bpp(lay)
    ensures IsPixelByte(lay, PixelPos(lay, i, j) + t)
  {
    PixelInBounds(lay, i, j);
    var r := j * Bpp(lay) + t;
    MulLeq(j + 1, lay.cols, Bpp(lay));
    assert 0 <= r < lay.cols * Bpp(lay) <= lay.stride;
    ModOfMultiple(i, lay.stride, r);
  }

  lemma ModOfMultiple(i: int, s: int, r: int)
    requires 0 <= i && 0 <= r < s
    ensures (i * s + r) % s == r
  {
    var q := (i * s + r) / s;
    var m := (i * s + r) % s;
    assert q * s + m == i * s + r;
    if q < i {
      assert (i - q) * s == i * s - q * s;
      MulLeq(1, i - q, s);
    } else if q > i {
      assert (q - i) * s == q * s - i * s;
      MulLeq(1, q - i, s);
    }
    assert q * s == i * s;
  }

  /** Palette entry k, stored blue, green, red, reserved from offset 54. */
  function PaletteColor(file: seq<byte>, k: int): Rgb
    requires 0 <= k && PalettePos + 4 * k + 3 <= |file|
  {
    var at := PalettePos + 4 * k;
    Rgb(file[at + 2], file[at + 1], file[at])
  }

  /**
   * The colour of pixel (i, j): through the palette for 8-bit bitmaps, from
   * the pixel's own blue-green-red bytes for 24-bit ones.
   */
  function ReadColor(lay: Layout, file: seq<byte>, i: int, j: int): Rgb
    requires Fits(lay, file) && 0 <= i < lay.rows && 0 <= j < lay.cols
  {
    PixelInBounds(lay, i, j);
    PixelBytes(lay, i, j, 0);
    var pos := PixelPos(lay, i, j);
    if lay.bitCount == 8 then PaletteColor(file, file[pos])
    else Rgb(file[pos + 2], file[pos + 1], file[pos])
  }

  /** A 24-bit pixel is written blue first. */
  function WriteColor(file: seq<byte>, pos: int, c: Rgb): (f: seq<byte>)
    requires 0 <= pos && pos + 3 <= |file|
    ensures |f| == |file|
    ensures forall k | 0 <= k < |file| && !(pos <= k < pos + 3) :: f[k] == file[k]
  {
    file[pos := c.b][pos + 1 := c.g][pos + 2 := c.r]
  }

  predicate EntryMatches(file: seq<byte>, i: int, c: Rgb)
    requires 0 <= i && i + 3 <= |file|
  {
    file[i + 2] == c.r && file[i + 1] == c.g && file[i] == c.b
  }

  /**
   * The 8-bit write-back loop: visit the palette entries at 54, 58, ..
   * below `offBits` and, on every entry whose colour equals `c`, store its
   * index, cut to a byte, at `pos`. The loop writes nothing but that byte,
   * so the buffer it reads is always `file` with `cur`, the byte stored so
   * far, at `pos`; the result is the byte it leaves there.
   */
  function PaletteScan(file: seq<byte>, pos: int, c: Rgb, i: int, offBits: int, cur: byte): (v: byte)
    requires 0 <= pos < |file| && PalettePos <= i && offBits + 2 <= |file|
    ensures v == cur || PalettePos + 4 * v + 3 <= offBits + 2
    decreases offBits - i
  {
    if i >= offBits then cur
    else
      var now := file[pos := cur];
      var next := if EntryMatches(now, i, c) then (((i - PalettePos) / 4) % 256) as byte else cur;
      PaletteScan(file, pos, c, i + 4, offBits, next)
  }

  /** The buffer after the write-back loop for the pixel at `pos`. */
  function PaletteWrite(file: seq<byte>, pos: int, c: Rgb, offBits: int): (f: seq<byte>)
    requires 0 <= pos < |file| && offBits + 2 <= |file|
    ensures |f| == |file|
    ensures forall k | 0 <= k < |file| && k != pos :: f[k] == file[k]
  {
    file[pos := PaletteScan(file, pos, c, PalettePos, offBits, file[pos])]
  }

  datatype Option<T> = None | Some(value: T)

  /** The last palette entry among m .. n-1 with colour c, if any. */
  function LastMatch(file: seq<byte>, c: Rgb, m: nat, n: nat): (r: Option<nat>)
    requires PalettePos + 4 * n <= |file|
    ensures r.Some? ==> m <= r.value < n && EntryMatches(file, PalettePos + 4 * r.value, c)
    ensures r.Some? ==> forall k | r.value < k < n :: !EntryMatches(file, PalettePos + 4 * k, c)
    ensures r.None? ==> forall k | m <= k < n :: !EntryMatches(file, PalettePos + 4 * k, c)
    decreases n
  {
    if n <= m then None
    else if EntryMatches(file, PalettePos + 4 * (n - 1), c) then Some(n - 1)
    else LastMatch(file, c, m, n - 1)
  }

  lemma {:induction false} LastMatchStep(file: seq<byte>, c: Rgb, m: nat, n: nat)
    requires m < n && PalettePos + 4 * n <= |file|
    ensures LastMatch(file, c, m, n) ==
      if LastMatch(file, c, m + 1, n).Some? then LastMatch(file, c, m + 1, n)
      else if EntryMatches(file, PalettePos + 4 * m, c) then Some(m)
      else None
    decreases n
  {
    if m + 1 < n && !EntryMatches(file, PalettePos + 4 * (n - 1), c) {
      LastMatchStep(file, c, m, n - 1);
    }
  }

  /** The byte an index search leaves: the found index cut to a byte, or `cur`. */
  function StoredIndex(r: Option<nat>, cur: byte): byte
  {
    if r.Some? then (r.value % 256) as byte else cur
  }

  /**
   * On a palette of whole entries in front of the pixel, the loop leaves the
   * index of the LAST entry with the wanted colour, and leaves the pixel as
   * it was when no entry has that colour.
   */
  lemma PaletteWriteBack(file: seq<byte>, pos: int, c: Rgb, offBits: int)
    requires PalettePos <= offBits && (offBits - PalettePos) % 4 == 0
    requires offBits <= pos < |file| && offBits + 2 <= |file|
    ensures PaletteWrite(file, pos, c, offBits)
         == file[pos := StoredIndex(LastMatch(file, c, 0, (offBits - PalettePos) / 4), file[pos])]
  {
    PaletteScanFrom(file, pos, c, 0, (offBits - PalettePos) / 4, file[pos]);
  }

  lemma {:induction false} PaletteScanFrom(file: seq<byte>, pos: int, c: Rgb, m: nat, n: nat, cur: byte)
    requires m <= n && PalettePos + 4 * n <= pos < |file| && PalettePos + 4 * n + 2 <= |file|
    ensures PaletteScan(file, pos, c, PalettePos + 4 * m, PalettePos + 4 * n, cur)
         == StoredIndex(LastMatch(file, c, m, n), cur)
    decreases n - m
  {
    if m < n {
      var i := PalettePos + 4 * m;
      assert (i - PalettePos) / 4 == m;
      assert i + 4 == PalettePos + 4 * (m + 1);
      var now := file[pos := cur];
      assert EntryMatches(now, i, c) == EntryMatches(file, i, c);
      var next := if EntryMatches(now, i, c) then (m % 256) as byte else cur;
      PaletteScanFrom(file, pos, c, m + 1, n, next);
      LastMatchStep(file, c, m, n);
    }
  }

  /**
   * Storing a colour in pixel (i, j): the palette search for 8-bit
   * bitmaps, the three colour bytes for 24-bit ones. Only that pixel's
   * bytes change, and the buffer still fits the layout.
   */
  function StoreColor(lay: Layout, file: seq<byte>, i: int, j: int, c: Rgb): (f: seq<byte>)
    requires Fits(lay, file) && 0 <= i < lay.rows && 0 <= j < lay.cols
    ensures |f| == |file| && Fits(lay, f)
    ensures forall k | 0 <= k < |file| && !(PixelPos(lay, i, j) <= k < PixelPos(lay, i, j) + Bpp(lay)) :: f[k] == file[k]
  {
    PixelInBounds(lay, i, j);
    var pos := PixelPos(lay, i, j);
    if lay.bitCount == 8 then
      StrideCoversPixel(lay);
      var f := PaletteWrite(file, pos, c, lay.offBits);
      assert forall k | IsPixelByte(lay, k) && 0 <= k < |f| :: PalettePos + 4 * (f[k] as int) + 3 <= |f| by {
        forall k | IsPixelByte(lay, k) && 0 <= k < |f| ensures PalettePos + 4 * (f[k] as int) + 3 <= |f| {
          if k != pos {
            assert f[k] == file[k];
          }
        }
      }
      f
    else
      WriteColor(file, pos, c)
  }

  /** A row of at least one pixel spans at least four bytes. */
  lemma StrideCoversPixel(lay: Layout)
    requires ValidLayout(lay) && lay.rows >= 1 && lay.cols >= 1
    ensures lay.offBits + 4 <= PixelEnd(lay)
  {
    MulLeq(1, lay.rows, lay.stride);
  }

  /** Reading back a written 24-bit pixel gives the colour written. */
  lemma WriteReadRoundTrip(lay: Layout, file: seq<byte>, i: int, j: int, c: Rgb)
    requires Fits(lay, file) && lay.bitCount == 24 && 0 <= i < lay.rows && 0 <= j < lay.cols
    ensures ReadColor(lay, StoreColor(lay, file, i, j, c), i, j) == c
  {
    PixelInBounds(lay, i, j);
    var pos := PixelPos(lay, i, j);
    var f := StoreColor(lay, file, i, j, c);
    assert f == file[pos := c.b][pos + 1 := c.g][pos + 2 := c.r];
    assert f[pos] == c.b && f[pos + 1] == c.g && f[pos + 2] == c.r;
  }

  /** Storing the colour a 24-bit pixel already has leaves the buffer as it was. */
  lemma WriteSameColor(lay: Layout, file: seq<byte>, i: int, j: int)
    requires Fits(lay, file) && lay.bitCount == 24 && 0 <= i < lay.rows && 0 <= j < lay.cols
    ensures StoreColor(lay, file, i, j, ReadColor(lay, file, i, j)) == file
  {
    PixelInBounds(lay, i, j);
    var pos := PixelPos(lay, i, j);
    var c := ReadColor(lay, file, i, j);
    assert c == Rgb(file[pos + 2], file[pos + 1], file[pos]);
    assert StoreColor(lay, file, i, j, c) == file[pos := c.b][pos + 1 := c.g][pos + 2 := c.r];
  }

  /**
   * With at most 256 whole entries in front of the pixels, storing a colour
   * the palette holds makes the 8-bit pixel read back as that colour.
   */
  lemma PaletteRoundTrip(lay: Layout, file: seq<byte>, i: int, j: int, c: Rgb)
    requires Fits(lay, file) && lay.bitCount == 8 && 0 <= i < lay.rows && 0 <= j < lay.cols
    requires PalettePos <= lay.offBits <= PalettePos + 4 * 256 && (lay.offBits - PalettePos) % 4 == 0
    requires LastMatch(file, c, 0, (lay.offBits - PalettePos) / 4).Some?
    ensures ReadColor(lay, StoreColor(lay, file, i, j, c), i, j) == c
  {
    var pos := PixelPos(lay, i, j);
    var f := StoreColor(lay, file, i, j, c);
    StoreColorAt(lay, file, i, j, c);
    PaletteWriteBack(file, pos, c, lay.offBits);
    var n := (lay.offBits - PalettePos) / 4;
    var k := LastMatch(file, c, 0, n).value;
    assert k < n <= 256;
    SmallMod(k);
    assert f == file[pos := k as byte];
    ReadColorAt(lay, f, i, j);
    IndexReadBack(file, pos, k, c);
  }

  lemma SmallMod(k: int)
    requires 0 <= k < 256
    ensures k % 256 == k
  {
  }

  /** An index stored behind its palette entry selects that entry's colour. */
  lemma IndexReadBack(file: seq<byte>, pos: int, k: nat, c: Rgb)
    requires k < 256 && PalettePos + 4 * k + 3 <= pos < |file|
    requires EntryMatches(file, PalettePos + 4 * k, c)
    ensures PaletteColor(file[pos := k as byte], file[pos := k as byte][pos]) == c
  {
    var f := file[pos := k as byte];
    assert f[pos] as int == k;
    var at := PalettePos + 4 * k;
    assert f[at] == file[at] && f[at + 1] == file[at + 1] && f[at + 2] == file[at + 2];
  }

  /** Where pixel (i, j) lies and what reading it unfolds to. */
  lemma ReadColorAt(lay: Layout, file: seq<byte>, i: int, j: int)
    requires Fits(lay, file) && 0 <= i < lay.rows && 0 <= j < lay.cols
    ensures lay.offBits <= PixelPos(lay, i, j) && PixelPos(lay, i, j) + Bpp(lay) <= PixelEnd(lay)
    ensures lay.bitCount == 8 ==> PalettePos + 4 * (file[PixelPos(lay, i, j)] as int) + 3 <= |file|
    ensures ReadColor(lay, file, i, j) == if lay.bitCount == 8 then PaletteColor(file, file[PixelPos(lay, i, j)])
      else Rgb(file[PixelPos(lay, i, j) + 2], file[PixelPos(lay, i, j) + 1], file[PixelPos(lay, i, j)])
  {
    PixelInBounds(lay, i, j);
    PixelBytes(lay, i, j, 0);
  }

  /** What storing into pixel (i, j) unfolds to. */
  lemma StoreColorAt(lay: Layout, file: seq<byte>, i: int, j: int, c: Rgb)
    requires Fits(lay, file) && 0 <= i < lay.rows && 0 <= j < lay.cols
    ensures lay.offBits <= PixelPos(lay, i, j) && PixelPos(lay, i, j) + Bpp(lay) <= PixelEnd(lay)
    ensures lay.offBits + 4 <= PixelEnd(lay)
    ensures StoreColor(lay, file, i, j, c) == if lay.bitCount == 8 then PaletteWrite(file, PixelPos(lay, i, j), c, lay.offBits)
      else WriteColor(file, PixelPos(lay, i, j), c)
  {
    PixelInBounds(lay, i, j);
    StrideCoversPixel(lay);
  }

  /** Does pixel (i, j) of an 8-bit bitmap select an entry inside the palette? */
  predicate EntryInPalette(lay: Layout, file: seq<byte>, i: int, j: int)
    requires Fits(lay, file) && 0 <= i < lay.rows && 0 <= j < lay.cols
  {
    PixelInBounds(lay, i, j);
    PalettePos + 4 * (file[PixelPos(lay, i, j)] as int) + 3 <= lay.offBits
  }

  /**
   * Storing into pixel (i, j) leaves every other pixel's colour as it was;
   * for 8-bit bitmaps, every pixel whose index selects an entry inside the
   * palette, which no store touches.
   */
  lemma StoreOthers(lay: Layout, file: seq<byte>, i: int, j: int, c: Rgb, i2: int, j2: int)
    requires Fits(lay, file) && 0 <= i < lay.rows && 0 <= j < lay.cols
    requires 0 <= i2 < lay.rows && 0 <= j2 < lay.cols && (i2 != i || j2 != j)
    requires lay.bitCount == 8 ==> EntryInPalette(lay, file, i2, j2)
    ensures ReadColor(lay, StoreColor(lay, file, i, j, c), i2, j2) == ReadColor(lay, file, i2, j2)
  {
    var f := StoreColor(lay, file, i, j, c);
    PixelsDisjoint(lay, i, j, i2, j2);
    ReadColorAt(lay, file, i2, j2);
    ReadColorAt(lay, f, i2, j2);
    var q := PixelPos(lay, i2, j2);
    PixelInBounds(lay, i, j);
    if lay.bitCount == 8 {
      var at := PalettePos + 4 * (file[q] as int);
      assert f[q] == file[q];
      assert f[at] == file[at] && f[at + 1] == file[at + 1] && f[at + 2] == file[at + 2];
    } else {
      assert f[q] == file[q] && f[q + 1] == file[q + 1] && f[q + 2] == file[q + 2];
    }
  }

  /**
   * The source's pixel cursor: it starts at `offBits`, advances by one
   * pixel's bytes after each pixel and by `padding` pixels' worth of bytes
   * after each row. `CursorAt(i, j)` is its value when pixel (i, j) is
   * processed.
   */
  function CursorAt(h: Header, i: nat, j: nat): int
    requires h.bitCount == 8 || h.bitCount == 24
    decreases i, j
  {
    var bpp := BytesPerPixel(h.bitCount);
    if j > 0 then CursorAt(h, i, j - 1) + bpp
    else if i > 0 then CursorAt(h, i - 1, 0) + h.width * bpp + h.padding * bpp
    else h.offBits
  }

  /** The cursor equals the row-and-column formula with the source's own stride. */
  lemma {:induction false} CursorFormula(h: Header, i: nat, j: nat)
    requires h.bitCount == 8 || h.bitCount == 24
    requires h.padding == Padding(h.width)
    ensures CursorAt(h, i, j) == h.offBits + i * SourceStride(h.width, h.bitCount) + j * BytesPerPixel(h.bitCount)
    decreases i, j
  {
    var bpp := BytesPerPixel(h.bitCount);
    if j > 0 {
      CursorFormula(h, i, j - 1);
      assert j * bpp == (j - 1) * bpp + bpp;
    } else if i > 0 {
      CursorFormula(h, i - 1, 0);
      assert i * SourceStride(h.width, h.bitCount) == (i - 1) * SourceStride(h.width, h.bitCount) + SourceStride(h.width, h.bitCount);
    }
  }

  /**
   * Where the source's stride is the real one, the cursor visits every
   * pixel at its true position.
   */
  lemma CursorMatchesLayout(h: Header, i: nat, j: nat)
    requires h.width >= 0 && h.offBits >= 0 && (h.bitCount == 8 || h.bitCount == 24)
    requires h.padding == Padding(h.width)
    requires h.bitCount == 8 || h.width % 4 == 0 || h.width % 4 == 3
    ensures CursorAt(h, i, j) == PixelPos(LayoutOf(h), i, j)
  {
    CursorFormula(h, i, j);
    SourceStrideAgreement(h.width, h.bitCount);
  }
}
