/**
 * Byte-level arithmetic shared by the bitmap model: the 0..255 byte type,
 * 32-bit little-endian fields and the C++ integer conventions the header
 * decoder depends on.
 */
module Bytes {

  /** One octet of the file buffer (`unsigned char` in the source). */
  type byte = x: int | 0 <= x < 256

  const TwoTo31: int := 0x8000_0000
  const TwoTo32: int := 0x1_0000_0000

  /** True for values representable as a 32-bit two's-complement `int`. */
  predicate IsInt32(v: int) {
    -TwoTo31 <= v < TwoTo31
  }

  /**
   * The value of `b0 + b1*256 + b2*256*256 + b3*256*256*256` over the four
   * bytes at `at`, computed with unbounded integers: the unsigned reading
   * of a little-endian 32-bit field.
   */
  function Le32(s: seq<byte>, at: nat): (u: int)
    requires at + 4 <= |s|
    ensures 0 <= u < TwoTo32
    ensures u % 256 == s[at]
    ensures u / 16777216 == s[at + 3]
  {
    s[at] as int + (s[at + 1] as int) * 256 + (s[at + 2] as int) * 65536 + (s[at + 3] as int) * 16777216
  }

  /**
   * Two's-complement reinterpretation of an unsigned 32-bit value: the
   * unique 32-bit signed value congruent to `u` modulo 2^32.
   */
  function ToInt32(u: int): (v: int)
    requires 0 <= u < TwoTo32
    ensures IsInt32(v)
    ensures (v - u) % TwoTo32 == 0
    ensures v < 0 <==> u >= TwoTo31
  {
    if u < TwoTo31 then u else u - TwoTo32
  }

  /** A little-endian 32-bit field read as a signed `int`. */
  function LeInt32(s: seq<byte>, at: nat): (v: int)
    requires at + 4 <= |s|
    ensures IsInt32(v)
    ensures v < 0 <==> s[at + 3] >= 128
    ensures s[at + 3] < 128 ==> v == Le32(s, at)
    ensures s[at + 3] >= 128 ==> v == Le32(s, at) - TwoTo32
  {
    ToInt32(Le32(s, at))
  }

  /**
   * The byte-sum the header parser evaluates in `int` leaves the 32-bit
   * range whenever the top byte is 128 or more: every negative field, such
   * as the height of a top-down bitmap, overflows the signed type.
   */
  lemma Le32OverflowsInt32(s: seq<byte>, at: nat)
    requires at + 4 <= |s|
    ensures !IsInt32(Le32(s, at)) <==> s[at + 3] >= 128
  {
  }

  /** Height -1 (bytes FF FF FF FF) is the smallest example. */
  lemma MinusOneOverflows()
    ensures Le32([0xFF, 0xFF, 0xFF, 0xFF], 0) == TwoTo32 - 1
    ensures !IsInt32(Le32([0xFF, 0xFF, 0xFF, 0xFF], 0))
    ensures LeInt32([0xFF, 0xFF, 0xFF, 0xFF], 0) == -1
  {
  }

  /** The four little-endian bytes of a 32-bit signed value. */
  function EncodeInt32(v: int): (s: seq<byte>)
    requires IsInt32(v)
    ensures |s| == 4
  {
    var u := if v < 0 then v + TwoTo32 else v;
    [u % 256, (u / 256) % 256, (u / 256 / 256) % 256, u / 256 / 256 / 256]
  }

  /** Decoding what `EncodeInt32` wrote gives the value back. */
  lemma LeInt32RoundTrip(v: int)
    requires IsInt32(v)
    ensures LeInt32(EncodeInt32(v), 0) == v
  {
    var u := if v < 0 then v + TwoTo32 else v;
    var q1, q2, q3 := u / 256, u / 256 / 256, u / 256 / 256 / 256;
    assert u == u % 256 + 256 * q1;
    assert q1 == q1 % 256 + 256 * q2;
    assert q2 == q2 % 256 + 256 * q3;
    assert Le32(EncodeInt32(v), 0) == u;
  }

  /**
   * C++ `a % 4` on a signed `int`: the remainder truncated toward zero, so
   * it carries the sign of `a` (Dafny's `%` is Euclidean instead).
   */
  function CRem4(a: int): (r: int)
    ensures (a - r) % 4 == 0
    ensures a >= 0 ==> 0 <= r < 4
    ensures a < 0 ==> -4 < r <= 0
  {
    if a >= 0 then a % 4 else -((-a) % 4)
  }
}
