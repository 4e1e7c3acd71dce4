/**
 * Decoding and validation of the BITMAPFILEHEADER / BITMAPINFOHEADER
 * fields the filters rely on, as done by the image widget's constructor.
 */
module BmpHeader {
  import opened Bytes

  /** Fixed byte offsets of the fields that are read. */
  const OffBitsPos: nat := 10
  const WidthPos: nat := 18
  const HeightPos: nat := 22
  const BitCountPos: nat := 28
  /** The palette of an 8-bit bitmap starts right after the 54-byte headers. */
  const PalettePos: nat := 54
  /** The decoder touches no byte at or beyond this offset. */
  const HeaderReadEnd: nat := 29

  /** The two ways a load is rejected. */
  datatype FormatError =
    | NotABitmap                        // first two bytes are not "BM"
    | UnsupportedBitCount(bits: byte)   // bit count byte is neither 8 nor 24

  datatype Result<+T> = Ok(value: T) | Err(error: FormatError)

  /**
   * The decoded facts. `padding` is the per-row filler the source derives,
   * counted in pixels rather than bytes.
   */
  datatype Header = Header(offBits: int, width: int, height: int, bitCount: int, padding: int)

  /**
   * `padding = width % 4 == 0 ? 0 : 4 - width % 4`, with C++'s signed
   * remainder. For every width it rounds the width up to a multiple of 4.
   */
  function Padding(width: int): (p: int)
    ensures (width + p) % 4 == 0
    ensures width % 4 == 0 <==> p == 0
    ensures width >= 0 ==> 0 <= p <= 3
    ensures width < 0 ==> 0 <= p <= 7
    ensures width < 0 && width % 4 != 0 ==> p == 4 + (-width) % 4
  {
    var rem := CRem4(width);
    if rem != 0 then 4 - rem else 0
  }

  predicate HasMagic(file: seq<byte>)
    requires |file| >= 2
  {
    file[0] == 0x42 && file[1] == 0x4D
  }

  /**
   * Validate the signature and the bit count, then read the three 32-bit
   * fields. The bit count is taken from the single byte at offset 28.
   */
  function Decode(file: seq<byte>): (r: Result<Header>)
    requires |file| >= HeaderReadEnd
    ensures r.Ok? <==> HasMagic(file) && file[BitCountPos] in {8, 24}
    ensures !HasMagic(file) ==> r == Err(NotABitmap)
    ensures HasMagic(file) && file[BitCountPos] !in {8, 24} ==> r == Err(UnsupportedBitCount(file[BitCountPos]))
    ensures r.Ok? ==> var h := r.value;
      && h.bitCount == file[BitCountPos]
      && h.offBits == LeInt32(file, OffBitsPos)
      && h.width == LeInt32(file, WidthPos)
      && h.height == LeInt32(file, HeightPos)
      && h.padding == Padding(h.width)
      && 0 <= h.padding <= 7
      && (h.width + h.padding) % 4 == 0
  {
    if !HasMagic(file) then
      Err(NotABitmap)
    else if file[BitCountPos] != 8 && file[BitCountPos] != 24 then
      Err(UnsupportedBitCount(file[BitCountPos]))
    else
      var width := LeInt32(file, WidthPos);
      Ok(Header(LeInt32(file, OffBitsPos), width, LeInt32(file, HeightPos), file[BitCountPos], Padding(width)))
  }

  /** The decoder reads nothing past the bit count byte. */
  lemma DecodeReadsHeader(a: seq<byte>, b: seq<byte>)
    requires |a| >= HeaderReadEnd && |b| >= HeaderReadEnd
    requires forall k | 0 <= k < HeaderReadEnd :: a[k] == b[k]
    ensures Decode(a) == Decode(b)
  {
    assert Le32(a, OffBitsPos) == Le32(b, OffBitsPos);
    assert Le32(a, WidthPos) == Le32(b, WidthPos);
    assert Le32(a, HeightPos) == Le32(b, HeightPos);
  }

  /** Bytes per pixel unit: one palette index, or one blue-green-red triple. */
  function BytesPerPixel(bitCount: int): nat
  {
    if bitCount == 8 then 1 else 3
  }

  /**
   * The byte distance between consecutive rows the source uses for both
   * neighbour addressing and row skipping: `(width + padding) * bpp`.
   */
  function SourceStride(width: int, bitCount: int): int
  {
    (width + Padding(width)) * BytesPerPixel(bitCount)
  }

  /** The real BMP row length: `width * bitCount` bits rounded up to 32-bit words. */
  function RowStride(width: nat, bitCount: int): (stride: nat)
    requires bitCount in {8, 24}
    ensures stride % 4 == 0
    ensures width * BytesPerPixel(bitCount) <= stride < width * BytesPerPixel(bitCount) + 4
  {
    ((width * bitCount + 31) / 32) * 4
  }

  /**
   * The source's stride is the real one for every 8-bit width but, for
   * 24-bit bitmaps, only when `width % 4` is 0 or 3.
   */
  lemma {:induction false} SourceStrideAgreement(width: nat, bitCount: int)
    requires bitCount in {8, 24}
    ensures SourceStride(width, bitCount) == RowStride(width, bitCount)
            <==> bitCount == 8 || width % 4 == 0 || width % 4 == 3
  {
    var q, m := width / 4, width % 4;
    assert width == 4 * q + m;
    assert Padding(width) == (if m == 0 then 0 else 4 - m);
    assert (width * bitCount + 31) / 32 == q * (bitCount / 8) + (width * bitCount - 4 * q * bitCount + 31) / 32 by {
      assert width * bitCount + 31 == 32 * (q * (bitCount / 8)) + (m * bitCount + 31);
    }
    if bitCount == 8 {
      assert SourceStride(width, 8) == 4 * q + (if m == 0 then 0 else 4);
      assert (m * 8 + 31) / 32 == (if m == 0 then 0 else 1);
    } else {
      assert SourceStride(width, 24) == 12 * q + (if m == 0 then 0 else 12);
      assert (m * 24 + 31) / 32 == [0, 1, 2, 3][m];
    }
  }

  /** A one-pixel-wide 24-bit bitmap: the source skips 12 bytes per row, the file has 4. */
  lemma OnePixelWideStride()
    ensures SourceStride(1, 24) == 12
    ensures RowStride(1, 24) == 4
  {
  }
}
