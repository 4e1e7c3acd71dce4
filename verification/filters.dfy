/**
 * The two median filters. Both visit the pixels in storage order and
 * overwrite each one in place, so a pixel's neighbourhood already holds the
 * new colours of the pixels visited before it. The fixed filter replaces a
 * pixel by the per-channel median of its level x level window; the adaptive
 * filter grows the window from 3x3 up to 7x7 until the median lies strictly
 * inside the window's range and then keeps the pixel unless it is itself an
 * extreme of that range.
 */
module Filters {
  import opened Bytes
  import opened BmpHeader
  import opened Geometry
  import opened Seqs
  import opened Windows
  import opened Masks
  import opened Median
  import opened Pixels

  /** Does code c name a pixel of the image, seen from pixel (i, j)? */
  predicate InImage(lay: Layout, i: int, j: int, c: int)
  {
    && IsCode(c)
    && 0 <= i + CodeToDelta(c).row < lay.rows
    && 0 <= j + CodeToDelta(c).col < lay.cols
  }

  predicate AllInImage(lay: Layout, i: int, j: int, codes: seq<int>)
  {
    forall c | c in codes :: InImage(lay, i, j, c)
  }

  /** The colour the neighbour switch reads for code c around pixel (i, j). */
  function Sample(lay: Layout, file: seq<byte>, i: int, j: int, c: int): Rgb
    requires Fits(lay, file) && InImage(lay, i, j, c)
  {
    var d := CodeToDelta(c);
    ReadColor(lay, file, i + d.row, j + d.col)
  }

  /**
   * The switch's byte offset for code c is the offset of the neighbouring
   * pixel the code names.
   */
  lemma NeighbourAddress(lay: Layout, i: int, j: int, c: int)
    requires InImage(lay, i, j, c)
    ensures NeighbourOffset(PixelPos(lay, i, j), c, lay.stride, Bpp(lay))
         == PixelPos(lay, i + CodeToDelta(c).row, j + CodeToDelta(c).col)
  {
    var d := CodeToDelta(c);
    Distribute(i, d.row, lay.stride);
    Distribute(j, d.col, Bpp(lay));
  }

  lemma Distribute(a: int, b: int, s: int)
    ensures (a + b) * s == a * s + b * s
  {
  }

  datatype Channel = Red | Green | Blue

  function Component(c: Rgb, ch: Channel): int
  {
    match ch
    case Red => c.r as int
    case Green => c.g as int
    case Blue => c.b as int
  }

  /** One channel of every sample around pixel (i, j), by code. */
  function ChannelTable(lay: Layout, file: seq<byte>, i: int, j: int, ch: Channel): (t: map<int, int>)
    requires Fits(lay, file)
    ensures forall c :: c in t <==> InImage(lay, i, j, c)
  {
    map c | 1 <= c <= MaxCodes && InImage(lay, i, j, c) :: Component(Sample(lay, file, i, j, c), ch)
  }

  /** One channel of the samples for a list of codes, in list order. */
  function Values(lay: Layout, file: seq<byte>, i: int, j: int, codes: seq<int>, ch: Channel): (v: seq<int>)
    requires Fits(lay, file) && AllInImage(lay, i, j, codes)
    ensures |v| == |codes|
    ensures forall k | 0 <= k < |v| :: v[k] == Component(Sample(lay, file, i, j, codes[k]), ch)
    ensures forall x | x in v :: 0 <= x < 256
  {
    Lookup(ChannelTable(lay, file, i, j, ch), codes)
  }

  /**
   * The samples' channel values depend only on which codes are listed and
   * how often, not on the order of the list.
   */
  lemma ValuesPermutation(lay: Layout, file: seq<byte>, i: int, j: int, a: seq<int>, b: seq<int>, ch: Channel)
    requires Fits(lay, file) && AllInImage(lay, i, j, a) && multiset(a) == multiset(b)
    ensures AllInImage(lay, i, j, b)
    ensures multiset(Values(lay, file, i, j, a, ch)) == multiset(Values(lay, file, i, j, b, ch))
  {
    LookupPermutation(ChannelTable(lay, file, i, j, ch), a, b);
  }

  /** What one window yields: the per-channel median and the two flags. */
  datatype Stats = Stats(median: Rgb, medianInRange: bool, thisInRange: bool)

  /** v is a median of s by rank: at most half below it, more than half at or below it. */
  predicate IsMedian(s: seq<int>, v: int)
  {
    v in s && CountLess(s, v) <= |s| / 2 < CountAtMost(s, v)
  }

  /** Some value of s lies below v and some above it. */
  predicate Straddles(s: seq<int>, v: int)
  {
    (exists x | x in s :: x < v) && (exists y | y in s :: v < y)
  }

  /** Every channel of `col` is straddled by the samples of `codes`. */
  predicate StraddledBy(lay: Layout, file: seq<byte>, i: int, j: int, codes: seq<int>, col: Rgb)
    requires Fits(lay, file) && AllInImage(lay, i, j, codes)
  {
    && Straddles(Values(lay, file, i, j, codes, Red), col.r as int)
    && Straddles(Values(lay, file, i, j, codes, Green), col.g as int)
    && Straddles(Values(lay, file, i, j, codes, Blue), col.b as int)
  }

  function ByteMedian(s: seq<int>): (m: byte)
    requires |s| >= 1 && forall x | x in s :: 0 <= x < 256
    ensures IsMedian(s, m as int)
  {
    var v := MedianOf(s);
    v as byte
  }

  /** The flag test on one channel: v lies strictly between the extremes of s. */
  function InRange(s: seq<int>, v: int): (b: bool)
    requires |s| >= 1
    ensures b <==> Straddles(s, v)
  {
    InsideMeans(s, v);
    Inside(s, v)
  }

  /** All values are bytes. */
  predicate ByteValues(s: seq<int>)
  {
    forall x | x in s :: 0 <= x < 256
  }

  /**
   * The statistics of three channels' samples and a pixel's own colour: the
   * per-channel median, whether it lies strictly between the smallest and
   * largest sample on every channel, and whether the own colour does.
   */
  function StatsOf(rs: seq<int>, gs: seq<int>, bs: seq<int>, own: Rgb): (st: Stats)
    requires |rs| >= 1 && |gs| >= 1 && |bs| >= 1
    requires ByteValues(rs) && ByteValues(gs) && ByteValues(bs)
    ensures IsMedian(rs, st.median.r as int) && IsMedian(gs, st.median.g as int) && IsMedian(bs, st.median.b as int)
    ensures st.medianInRange <==>
      Straddles(rs, st.median.r as int) && Straddles(gs, st.median.g as int) && Straddles(bs, st.median.b as int)
    ensures st.thisInRange <==> Straddles(rs, own.r as int) && Straddles(gs, own.g as int) && Straddles(bs, own.b as int)
  {
    var med := Rgb(ByteMedian(rs), ByteMedian(gs), ByteMedian(bs));
    Stats(med,
          InRange(rs, med.r as int) && InRange(gs, med.g as int) && InRange(bs, med.b as int),
          InRange(rs, own.r as int) && InRange(gs, own.g as int) && InRange(bs, own.b as int))
  }

  /** The statistics depend only on the multisets of samples, not their order. */
  lemma StatsOfPermutation(rs: seq<int>, gs: seq<int>, bs: seq<int>, rs': seq<int>, gs': seq<int>, bs': seq<int>, own: Rgb)
    requires |rs| >= 1 && |gs| >= 1 && |bs| >= 1
    requires ByteValues(rs) && ByteValues(gs) && ByteValues(bs)
    requires multiset(rs) == multiset(rs') && multiset(gs) == multiset(gs') && multiset(bs) == multiset(bs')
    ensures |rs'| >= 1 && |gs'| >= 1 && |bs'| >= 1
    ensures ByteValues(rs') && ByteValues(gs') && ByteValues(bs')
    ensures StatsOf(rs, gs, bs, own) == StatsOf(rs', gs', bs', own)
  {
    ChannelPermutation(rs, rs');
    ChannelPermutation(gs, gs');
    ChannelPermutation(bs, bs');
  }

  lemma ChannelPermutation(s: seq<int>, t: seq<int>)
    requires |s| >= 1 && ByteValues(s) && multiset(s) == multiset(t)
    ensures |t| >= 1 && ByteValues(t)
    ensures ByteMedian(s) == ByteMedian(t)
    ensures forall v :: InRange(s, v) == InRange(t, v)
  {
    OrderStatsOfMultiset(s, t);
    forall x | x in t ensures 0 <= x < 256 {
      assert x in multiset(t);
    }
  }

  /** The window statistics for the samples of `codes` around pixel (i, j). */
  function MaskStats(lay: Layout, file: seq<byte>, i: int, j: int, codes: seq<int>): (st: Stats)
    requires Fits(lay, file) && 0 <= i < lay.rows && 0 <= j < lay.cols
    requires |codes| >= 1 && AllInImage(lay, i, j, codes)
    ensures IsMedian(Values(lay, file, i, j, codes, Red), st.median.r as int)
    ensures IsMedian(Values(lay, file, i, j, codes, Green), st.median.g as int)
    ensures IsMedian(Values(lay, file, i, j, codes, Blue), st.median.b as int)
    ensures st.medianInRange <==> StraddledBy(lay, file, i, j, codes, st.median)
    ensures st.thisInRange <==> StraddledBy(lay, file, i, j, codes, ReadColor(lay, file, i, j))
  {
    StatsOf(Values(lay, file, i, j, codes, Red), Values(lay, file, i, j, codes, Green),
            Values(lay, file, i, j, codes, Blue), ReadColor(lay, file, i, j))
  }

  /**
   * One case of the neighbour switch: the sample at the byte offset the
   * switch computes for code c, looked up in the palette for 8-bit bitmaps.
   * It is the colour of the neighbouring pixel the code names.
   */
  function SwitchSample(lay: Layout, file: seq<byte>, i: int, j: int, c: int): (col: Rgb)
    requires Fits(lay, file) && 0 <= i < lay.rows && 0 <= j < lay.cols && InImage(lay, i, j, c)
    ensures col == Sample(lay, file, i, j, c)
  {
    var d := CodeToDelta(c);
    var at := NeighbourOffset(PixelPos(lay, i, j), c, lay.stride, Bpp(lay));
    NeighbourAddress(lay, i, j, c);
    ReadColorAt(lay, file, i + d.row, j + d.col);
    if lay.bitCount == 8 then PaletteColor(file, file[at]) else Rgb(file[at + 2], file[at + 1], file[at])
  }

  /** `buf` holds channel ch of the sample for codes[k] at index k. */
  predicate BufferHolds(lay: Layout, file: seq<byte>, i: int, j: int, codes: seq<int>, buf: seq<int>, ch: Channel)
    requires Fits(lay, file) && AllInImage(lay, i, j, codes)
  {
    |codes| <= |buf| && forall k | 0 <= k < |codes| :: buf[k] == Component(Sample(lay, file, i, j, codes[k]), ch)
  }

  /** Storing the next sample at the next index extends what the buffer holds by one code. */
  lemma BufferStep(lay: Layout, file: seq<byte>, i: int, j: int, codes: seq<int>, buf: seq<int>, c: int, ch: Channel)
    requires Fits(lay, file) && AllInImage(lay, i, j, codes) && InImage(lay, i, j, c)
    requires BufferHolds(lay, file, i, j, codes, buf, ch) && |codes| < |buf|
    ensures AllInImage(lay, i, j, codes + [c])
    ensures BufferHolds(lay, file, i, j, codes + [c], buf[|codes| := Component(Sample(lay, file, i, j, c), ch)], ch)
  {
  }

  /** A buffer that holds the listed samples starts with the list's values. */
  lemma BufferValues(lay: Layout, file: seq<byte>, i: int, j: int, codes: seq<int>, buf: seq<int>, ch: Channel)
    requires Fits(lay, file) && AllInImage(lay, i, j, codes) && BufferHolds(lay, file, i, j, codes, buf, ch)
    ensures buf[..|codes|] == Values(lay, file, i, j, codes, ch)
  {
  }

  /**
   * The collecting loop: walks the location array up to its first zero slot
   * (testing the bound first) and stores each sample's channels at the
   * slot's index of three 49-slot buffers that start out all zero.
   */
  method Collect(lay: Layout, file: seq<byte>, i: int, j: int, loc: seq<int>)
    returns (n: nat, red: seq<int>, green: seq<int>, blue: seq<int>)
    requires Fits(lay, file) && 0 <= i < lay.rows && 0 <= j < lay.cols
    requires |loc| == Slots
    requires forall k | 0 <= k < Slots && loc[k] != 0 :: InImage(lay, i, j, loc[k])
    ensures n <= Slots && Scan(loc, 0) == loc[..n] && AllInImage(lay, i, j, loc[..n])
    ensures |red| == |green| == |blue| == Slots
    ensures red[..n] == Values(lay, file, i, j, loc[..n], Red)
    ensures green[..n] == Values(lay, file, i, j, loc[..n], Green)
    ensures blue[..n] == Values(lay, file, i, j, loc[..n], Blue)
  {
    red, green, blue := seq(Slots, _ => 0), seq(Slots, _ => 0), seq(Slots, _ => 0);
    n := 0;
    while n < Slots && loc[n] != 0
      invariant n <= Slots && |red| == |green| == |blue| == Slots
      invariant forall k | 0 <= k < n :: loc[k] != 0
      invariant AllInImage(lay, i, j, loc[..n])
      invariant BufferHolds(lay, file, i, j, loc[..n], red, Red)
      invariant BufferHolds(lay, file, i, j, loc[..n], green, Green)
      invariant BufferHolds(lay, file, i, j, loc[..n], blue, Blue)
    {
      var c := SwitchSample(lay, file, i, j, loc[n]);
      BufferStep(lay, file, i, j, loc[..n], red, loc[n], Red);
      BufferStep(lay, file, i, j, loc[..n], green, loc[n], Green);
      BufferStep(lay, file, i, j, loc[..n], blue, loc[n], Blue);
      assert loc[..n + 1] == loc[..n] + [loc[n]];
      red, green, blue := red[n := c.r as int], green[n := c.g as int], blue[n := c.b as int];
      n := n + 1;
    }
    ScanStops(loc, 0, n);
    BufferValues(lay, file, i, j, loc[..n], red, Red);
    BufferValues(lay, file, i, j, loc[..n], green, Green);
    BufferValues(lay, file, i, j, loc[..n], blue, Blue);
  }

  /** The flag test on sorted samples: first < v < last is the test on the extremes. */
  lemma SortedEndsFlag(s: seq<int>, sorted: seq<int>, n: nat, v: int)
    requires 1 <= n <= |sorted| && |s| == n
    requires sorted[0] == MinOf(s) && sorted[n - 1] == MaxOf(s)
    ensures (sorted[0] < v < sorted[n - 1]) == InRange(s, v)
  {
  }

  /**
   * The window routine: collects the samples named by the location array,
   * takes each channel's median with the bubble sort, and, when the caller
   * asks for them, sets the two flags from the sorted buffers' first and
   * last samples. The fixed filter does not ask for flags; they are then
   * reported false.
   */
  method GetMedianInAMask(lay: Layout, file: seq<byte>, i: int, j: int, loc: seq<int>, wantFlags: bool)
    returns (st: Stats)
    requires Fits(lay, file) && 0 <= i < lay.rows && 0 <= j < lay.cols
    requires |loc| == Slots && loc[0] != 0
    requires forall k | 0 <= k < Slots && loc[k] != 0 :: InImage(lay, i, j, loc[k])
    ensures |Scan(loc, 0)| >= 1 && AllInImage(lay, i, j, Scan(loc, 0))
    ensures st.median == MaskStats(lay, file, i, j, Scan(loc, 0)).median
    ensures wantFlags ==> st == MaskStats(lay, file, i, j, Scan(loc, 0))
    ensures !wantFlags ==> !st.medianInRange && !st.thisInRange
  {
    var n, red, green, blue := Collect(lay, file, i, j, loc);
    var codes := loc[..n];
    var rs, gs, bs := red[..n], green[..n], blue[..n];
    var mr, sr := FindMedian(red, n);
    var mg, sg := FindMedian(green, n);
    var mb, sb := FindMedian(blue, n);
    var want := MaskStats(lay, file, i, j, codes);
    var med := Rgb(mr as byte, mg as byte, mb as byte);
    assert med == want.median;
    if wantFlags {
      var own := ReadColor(lay, file, i, j);
      SortedEndsFlag(rs, sr, n, mr);
      SortedEndsFlag(gs, sg, n, mg);
      SortedEndsFlag(bs, sb, n, mb);
      SortedEndsFlag(rs, sr, n, own.r as int);
      SortedEndsFlag(gs, sg, n, own.g as int);
      SortedEndsFlag(bs, sb, n, own.b as int);
      var medianIn := sr[0] < mr < sr[n - 1] && sg[0] < mg < sg[n - 1] && sb[0] < mb < sb[n - 1];
      var ownIn := sr[0] < own.r as int < sr[n - 1] && sg[0] < own.g as int < sg[n - 1]
        && sb[0] < own.b as int < sb[n - 1];
      st := Stats(med, medianIn, ownIn);
    } else {
      st := Stats(med, false, false);
    }
  }

  /** The statistics of the clipped level x level window around pixel (i, j). */
  function WindowStats(level: int, lay: Layout, file: seq<byte>, i: int, j: int): Stats
    requires ValidLevel(level) && Fits(lay, file) && 0 <= i < lay.rows && 0 <= j < lay.cols
  {
    ClippedInImage(level, lay, i, j);
    MaskStats(lay, file, i, j, ClippedMask(level, i, j, lay.rows, lay.cols))
  }

  lemma ClippedInImage(level: int, lay: Layout, i: int, j: int)
    requires ValidLevel(level) && 0 <= i < lay.rows && 0 <= j < lay.cols
    ensures |ClippedMask(level, i, j, lay.rows, lay.cols)| >= 1
    ensures AllInImage(lay, i, j, ClippedMask(level, i, j, lay.rows, lay.cols))
  {
  }

  /**
   * On images at least level-1 pixels high and wide, the list the source's
   * chains choose yields the same statistics as the clipped window: the
   * same samples in another order.
   */
  lemma SourceMaskAgrees(level: int, lay: Layout, file: seq<byte>, i: int, j: int)
    requires ValidLevel(level) && Fits(lay, file) && 0 <= i < lay.rows && 0 <= j < lay.cols
    requires lay.rows >= level - 1 && lay.cols >= level - 1
    ensures |SelectMask(level, i, j, lay.rows, lay.cols)| >= 1
    ensures AllInImage(lay, i, j, SelectMask(level, i, j, lay.rows, lay.cols))
    ensures MaskStats(lay, file, i, j, SelectMask(level, i, j, lay.rows, lay.cols)) == WindowStats(level, lay, file, i, j)
  {
    SelectMaskExact(level, i, j, lay.rows, lay.cols);
    ClippedInImage(level, lay, i, j);
    PermutedMaskStats(lay, file, i, j, ClippedMask(level, i, j, lay.rows, lay.cols),
                      SelectMask(level, i, j, lay.rows, lay.cols));
  }

  /** Reordering a mask changes none of its window statistics. */
  lemma PermutedMaskStats(lay: Layout, file: seq<byte>, i: int, j: int, a: seq<int>, b: seq<int>)
    requires Fits(lay, file) && 0 <= i < lay.rows && 0 <= j < lay.cols
    requires |a| >= 1 && AllInImage(lay, i, j, a) && multiset(a) == multiset(b)
    ensures |b| >= 1 && AllInImage(lay, i, j, b)
    ensures MaskStats(lay, file, i, j, b) == MaskStats(lay, file, i, j, a)
  {
    assert |b| == |a| by {
      assert |multiset(a)| == |multiset(b)|;
    }
    ValuesPermutation(lay, file, i, j, a, b, Red);
    ValuesPermutation(lay, file, i, j, a, b, Green);
    ValuesPermutation(lay, file, i, j, a, b, Blue);
    StatsOfPermutation(Values(lay, file, i, j, a, Red), Values(lay, file, i, j, a, Green),
                       Values(lay, file, i, j, a, Blue), Values(lay, file, i, j, b, Red),
                       Values(lay, file, i, j, b, Green), Values(lay, file, i, j, b, Blue),
                       ReadColor(lay, file, i, j));
  }

  /** Window f is the first from window k on whose median lies strictly inside its range. */
  predicate FirstInRange(ws: seq<Stats>, k: nat, f: nat)
  {
    && k <= f < |ws| && ws[f].medianInRange
    && forall e | k <= e < f :: !ws[e].medianInRange
  }

  /**
   * The adaptive decision over the statistics of successively larger
   * windows, from window k on: at the first window whose median lies
   * strictly inside its range, keep the pixel's own colour when it too lies
   * strictly inside and take the median otherwise; when no window settles,
   * keep the own colour.
   */
  function Decide(ws: seq<Stats>, own: Rgb, k: nat): (c: Rgb)
    requires k < |ws|
    ensures forall f: nat | FirstInRange(ws, k, f) :: c == if ws[f].thisInRange then own else ws[f].median
    ensures (forall f | k <= f < |ws| :: !ws[f].medianInRange) ==> c == own
    decreases |ws| - k
  {
    if ws[k].medianInRange then (if ws[k].thisInRange then own else ws[k].median)
    else if k + 1 == |ws| then own
    else Decide(ws, own, k + 1)
  }

  lemma DecideStep(ws: seq<Stats>, own: Rgb, k: nat)
    requires k < |ws|
    ensures Decide(ws, own, k) ==
      if ws[k].medianInRange then (if ws[k].thisInRange then own else ws[k].median)
      else if k + 1 == |ws| then own
      else Decide(ws, own, k + 1)
  {
  }

  /**
   * From window k on, the decision either keeps the own colour or takes the
   * median of a window whose median lies strictly inside its range while
   * the own colour does not.
   */
  lemma {:induction false} DecideOutcome(ws: seq<Stats>, own: Rgb, k: nat)
    requires k < |ws|
    ensures Decide(ws, own, k) == own
      || exists f | k <= f < |ws| ::
           ws[f].medianInRange && !ws[f].thisInRange && Decide(ws, own, k) == ws[f].median
    decreases |ws| - k
  {
    DecideStep(ws, own, k);
    if !ws[k].medianInRange && k + 1 < |ws| {
      DecideOutcome(ws, own, k + 1);
    }
  }

  /**
   * The statistics of the windows the adaptive filter tries, smallest
   * first: 3x3, 5x5 and 7x7 around pixel (i, j).
   */
  function SearchStats(lay: Layout, file: seq<byte>, i: int, j: int): seq<Stats>
    requires Fits(lay, file) && 0 <= i < lay.rows && 0 <= j < lay.cols
  {
    [WindowStats(3, lay, file, i, j), WindowStats(5, lay, file, i, j), WindowStats(7, lay, file, i, j)]
  }

  /** The colour the adaptive filter gives pixel (i, j). */
  function AdaptiveColor(lay: Layout, file: seq<byte>, i: int, j: int): Rgb
    requires Fits(lay, file) && 0 <= i < lay.rows && 0 <= j < lay.cols
  {
    Decide(SearchStats(lay, file, i, j), ReadColor(lay, file, i, j), 0)
  }

  /** The two filters: the fixed median of one window size, and the adaptive median. */
  datatype Pass = Fixed(level: int) | Adaptive

  predicate ValidPass(p: Pass)
  {
    p.Fixed? ==> ValidLevel(p.level)
  }

  /** The colour a pass gives pixel (i, j) of the buffer as it stands. */
  function NewColor(p: Pass, lay: Layout, file: seq<byte>, i: int, j: int): Rgb
    requires ValidPass(p) && Fits(lay, file) && 0 <= i < lay.rows && 0 <= j < lay.cols
  {
    match p
    case Fixed(level) => WindowStats(level, lay, file, i, j).median
    case Adaptive => AdaptiveColor(lay, file, i, j)
  }

  /** Bytes outside the pixel array and row padding lie outside every pixel. */
  lemma OutsidePixel(lay: Layout, i: int, j: int)
    requires ValidLayout(lay) && 0 <= i < lay.rows && 0 <= j < lay.cols
    ensures forall k | !IsPixelByte(lay, k) :: !(PixelPos(lay, i, j) <= k < PixelPos(lay, i, j) + Bpp(lay))
  {
    forall k | PixelPos(lay, i, j) <= k < PixelPos(lay, i, j) + Bpp(lay) ensures IsPixelByte(lay, k) {
      PixelBytes(lay, i, j, k - PixelPos(lay, i, j));
    }
  }

  /**
   * One step of a pass: pixel (i, j) takes its new colour, written back
   * through the palette for 8-bit bitmaps. Only that pixel's bytes change.
   */
  function FilterPixel(p: Pass, lay: Layout, file: seq<byte>, i: int, j: int): (f: seq<byte>)
    requires ValidPass(p) && Fits(lay, file) && 0 <= i < lay.rows && 0 <= j < lay.cols
    ensures |f| == |file| && Fits(lay, f)
    ensures forall k | 0 <= k < |file| && !(PixelPos(lay, i, j) <= k < PixelPos(lay, i, j) + Bpp(lay)) :: f[k] == file[k]
    ensures forall k | 0 <= k < |file| && !IsPixelByte(lay, k) :: f[k] == file[k]
  {
    OutsidePixel(lay, i, j);
    StoreColor(lay, file, i, j, NewColor(p, lay, file, i, j))
  }

  /** A rewrite of one pixel: the buffer after pixel (i, j) has been visited. */
  type Step = (seq<byte>, int, int) -> seq<byte>

  /** The second buffer has the first's length and layout and differs from it in pixel bytes only. */
  predicate Frames(lay: Layout, file: seq<byte>, f: seq<byte>)
  {
    && |f| == |file| && Fits(lay, f)
    && forall k | 0 <= k < |file| && !IsPixelByte(lay, k) :: f[k] == file[k]
  }

  /** Every visit of a pixel keeps the layout fitting and writes pixel bytes only. */
  ghost predicate StepFrames(step: Step, lay: Layout)
  {
    forall f: seq<byte>, i: int, j: int | Fits(lay, f) && 0 <= i < lay.rows && 0 <= j < lay.cols ::
      Frames(lay, f, step(f, i, j))
  }

  /**
   * The visiting order of both passes, from pixel (i, j) on: rows in
   * storage order, each row's pixels left to right, every pixel visited in
   * the buffer as the earlier visits left it.
   */
  function Walk(step: Step, lay: Layout, file: seq<byte>, i: int, j: int): (f: seq<byte>)
    requires 0 <= i && 0 <= j <= lay.cols
    ensures StepFrames(step, lay) && Fits(lay, file) ==> Frames(lay, file, f)
    decreases lay.rows - i, lay.cols - j
  {
    if i >= lay.rows then file
    else if j == lay.cols then Walk(step, lay, file, i + 1, 0)
    else Walk(step, lay, step(file, i, j), i, j + 1)
  }

  /** A walk leaves a buffer alone when no single visit changes it. */
  lemma {:induction false} WalkFixed(step: Step, lay: Layout, file: seq<byte>, i: int, j: int)
    requires forall i2, j2 | 0 <= i2 < lay.rows && 0 <= j2 < lay.cols :: step(file, i2, j2) == file
    requires 0 <= i && 0 <= j <= lay.cols
    ensures Walk(step, lay, file, i, j) == file
    decreases lay.rows - i, lay.cols - j
  {
    if i < lay.rows {
      if j == lay.cols {
        WalkFixed(step, lay, file, i + 1, 0);
      } else {
        WalkFixed(step, lay, file, i, j + 1);
      }
    }
  }

  /** The visit a pass makes: pixel (i, j) of a fitting buffer is filtered. */
  function PassStep(p: Pass, lay: Layout): Step
  {
    (f: seq<byte>, i: int, j: int) =>
      if ValidPass(p) && Fits(lay, f) && 0 <= i < lay.rows && 0 <= j < lay.cols
      then FilterPixel(p, lay, f, i, j) else f
  }

  /** A pass's visits write the visited pixel's bytes only. */
  lemma PassStepFrames(p: Pass, lay: Layout)
    requires ValidPass(p)
    ensures StepFrames(PassStep(p, lay), lay)
  {
    forall f: seq<byte>, i: int, j: int | Fits(lay, f) && 0 <= i < lay.rows && 0 <= j < lay.cols
      ensures Frames(lay, f, PassStep(p, lay)(f, i, j))
    {
      assert PassStep(p, lay)(f, i, j) == FilterPixel(p, lay, f, i, j);
    }
  }

  /**
   * A pass from pixel (i, j) on. Header, palette and row padding are never
   * written.
   */
  function Sweep(p: Pass, lay: Layout, file: seq<byte>, i: int, j: int): (f: seq<byte>)
    requires ValidPass(p) && Fits(lay, file) && 0 <= i && 0 <= j <= lay.cols
    ensures |f| == |file| && Fits(lay, f)
    ensures forall k | 0 <= k < |file| && !IsPixelByte(lay, k) :: f[k] == file[k]
  {
    PassStepFrames(p, lay);
    Walk(PassStep(p, lay), lay, file, i, j)
  }

  /** The step a sweep takes at pixel (i, j): the pixel is filtered, then the sweep moves right. */
  lemma SweepStep(p: Pass, lay: Layout, file: seq<byte>, i: int, j: int)
    requires ValidPass(p) && Fits(lay, file) && 0 <= i < lay.rows && 0 <= j < lay.cols
    ensures Sweep(p, lay, file, i, j) == Sweep(p, lay, FilterPixel(p, lay, file, i, j), i, j + 1)
  {
    WalkStep(PassStep(p, lay), lay, file, i, j);
    PassStepAt(p, lay, file, i, j);
  }

  /** A walk's first visit inside a row. */
  lemma WalkStep(step: Step, lay: Layout, file: seq<byte>, i: int, j: int)
    requires 0 <= i < lay.rows && 0 <= j < lay.cols
    ensures Walk(step, lay, file, i, j) == Walk(step, lay, step(file, i, j), i, j + 1)
  {
  }

  /** Inside the image a pass's visit is the pixel filter. */
  lemma PassStepAt(p: Pass, lay: Layout, file: seq<byte>, i: int, j: int)
    requires ValidPass(p) && Fits(lay, file) && 0 <= i < lay.rows && 0 <= j < lay.cols
    ensures PassStep(p, lay)(file, i, j) == FilterPixel(p, lay, file, i, j)
  {
  }

  /** At the end of row i a sweep moves to the start of the next row. */
  lemma SweepRowEnd(p: Pass, lay: Layout, file: seq<byte>, i: int)
    requires ValidPass(p) && Fits(lay, file) && 0 <= i < lay.rows
    ensures Sweep(p, lay, file, i, lay.cols) == Sweep(p, lay, file, i + 1, 0)
  {
  }

  /** A sweep that starts below the last row writes nothing. */
  lemma SweepEnd(p: Pass, lay: Layout, file: seq<byte>, i: int)
    requires ValidPass(p) && Fits(lay, file) && lay.rows <= i
    ensures Sweep(p, lay, file, i, 0) == file
  {
  }

  /** A whole pass over the image. */
  function Filter(p: Pass, lay: Layout, file: seq<byte>): (f: seq<byte>)
    requires ValidPass(p) && Fits(lay, file)
    ensures |f| == |file| && Fits(lay, f)
    ensures forall k | 0 <= k < |file| && !IsPixelByte(lay, k) :: f[k] == file[k]
  {
    Sweep(p, lay, file, 0, 0)
  }

  /** The location array of the clipped window: codes of in-image cells, then zeros. */
  lemma WindowLocations(level: int, lay: Layout, i: int, j: int)
    requires ValidLevel(level) && 0 <= i < lay.rows && 0 <= j < lay.cols
    ensures |ClippedMask(level, i, j, lay.rows, lay.cols)| <= Slots
    ensures Locations(ClippedMask(level, i, j, lay.rows, lay.cols))[0] != 0
    ensures forall k | 0 <= k < Slots && Locations(ClippedMask(level, i, j, lay.rows, lay.cols))[k] != 0 ::
      InImage(lay, i, j, Locations(ClippedMask(level, i, j, lay.rows, lay.cols))[k])
    ensures Scan(Locations(ClippedMask(level, i, j, lay.rows, lay.cols)), 0) == ClippedMask(level, i, j, lay.rows, lay.cols)
  {
    var m := ClippedMask(level, i, j, lay.rows, lay.cols);
    ClippedInImage(level, lay, i, j);
    ClippedFits(level, i, j, lay.rows, lay.cols);
    LocationsOf(m);
  }

  /** The window routine run on the clipped window's location array. */
  method WindowMedian(level: int, lay: Layout, file: seq<byte>, i: int, j: int, wantFlags: bool) returns (st: Stats)
    requires ValidLevel(level) && Fits(lay, file) && 0 <= i < lay.rows && 0 <= j < lay.cols
    ensures st.median == WindowStats(level, lay, file, i, j).median
    ensures wantFlags ==> st == WindowStats(level, lay, file, i, j)
  {
    var mask := ClippedMask(level, i, j, lay.rows, lay.cols);
    WindowLocations(level, lay, i, j);
    st := GetMedianInAMask(lay, file, i, j, Locations(mask), wantFlags);
  }

  lemma SearchStatsAt(lay: Layout, file: seq<byte>, i: int, j: int, k: nat)
    requires Fits(lay, file) && 0 <= i < lay.rows && 0 <= j < lay.cols && k < 3
    ensures ValidLevel(3 + 2 * k)
    ensures |SearchStats(lay, file, i, j)| == 3
    ensures SearchStats(lay, file, i, j)[k] == WindowStats(3 + 2 * k, lay, file, i, j)
  {
    var ws := SearchStats(lay, file, i, j);
    if k == 0 {
      assert ws[0] == WindowStats(3, lay, file, i, j);
    } else if k == 1 {
      assert ws[1] == WindowStats(5, lay, file, i, j);
    } else {
      assert ws[2] == WindowStats(7, lay, file, i, j);
    }
  }

  /**
   * The adaptive search for one pixel as the source loops: start at 3x3,
   * stop at the first window whose median lies strictly inside its range,
   * otherwise grow by two and give up past 7x7.
   */
  method AdaptivePixel(lay: Layout, file: seq<byte>, i: int, j: int) returns (c: Rgb)
    requires Fits(lay, file) && 0 <= i < lay.rows && 0 <= j < lay.cols
    ensures c == AdaptiveColor(lay, file, i, j)
  {
    var own := ReadColor(lay, file, i, j);
    ghost var ws := SearchStats(lay, file, i, j);
    var size := 3;
    ghost var k: nat := 0;
    while true
      invariant k < 3 && size == 3 + 2 * k
      invariant Decide(ws, own, k) == Decide(ws, own, 0)
      decreases MaxLevel - size
    {
      var st := SearchStep(lay, file, i, j, size, k);
      DecideStep(ws, own, k);
      if st.medianInRange {
        c := if st.thisInRange then own else st.median;
        break;
      }
      size := size + 2;
      k := k + 1;
      if size > MaxLevel {
        c := own;
        break;
      }
    }
  }

  /** One round of the adaptive search: the statistics of the current window. */
  method SearchStep(lay: Layout, file: seq<byte>, i: int, j: int, size: int, ghost k: nat) returns (st: Stats)
    requires Fits(lay, file) && 0 <= i < lay.rows && 0 <= j < lay.cols && k < 3 && size == 3 + 2 * k
    ensures |SearchStats(lay, file, i, j)| == 3 && st == SearchStats(lay, file, i, j)[k]
  {
    SearchStatsAt(lay, file, i, j, k);
    st := WindowMedian(size, lay, file, i, j, true);
  }

  /** One pixel of a pass: its new colour, then the write-back. */
  method PixelStep(p: Pass, lay: Layout, file: seq<byte>, i: int, j: int) returns (f: seq<byte>)
    requires ValidPass(p) && Fits(lay, file) && 0 <= i < lay.rows && 0 <= j < lay.cols
    ensures f == FilterPixel(p, lay, file, i, j)
  {
    var c;
    if p.Fixed? {
      var st := WindowMedian(p.level, lay, file, i, j, false);
      c := st.median;
    } else {
      c := AdaptivePixel(lay, file, i, j);
    }
    f := StoreColor(lay, file, i, j, c);
  }

  /**
   * A pass as the source runs it: rows in storage order, each row's pixels
   * left to right, every pixel overwritten before the next is filtered.
   */
  method RunPass(p: Pass, lay: Layout, file: seq<byte>) returns (f: seq<byte>)
    requires ValidPass(p) && Fits(lay, file)
    ensures f == Filter(p, lay, file)
  {
    f := file;
    var i := 0;
    while i < lay.rows
      invariant 0 <= i && Fits(lay, f)
      invariant Sweep(p, lay, f, i, 0) == Filter(p, lay, file)
    {
      f := RunRow(p, lay, f, i);
      i := i + 1;
    }
    SweepEnd(p, lay, f, i);
  }

  /** One row of a pass, its pixels left to right. */
  method RunRow(p: Pass, lay: Layout, file: seq<byte>, i: int) returns (f: seq<byte>)
    requires ValidPass(p) && Fits(lay, file) && 0 <= i < lay.rows
    ensures Fits(lay, f) && Sweep(p, lay, f, i + 1, 0) == Sweep(p, lay, file, i, 0)
  {
    f := file;
    var j := 0;
    while j < lay.cols
      invariant 0 <= j <= lay.cols && Fits(lay, f)
      invariant Sweep(p, lay, f, i, j) == Sweep(p, lay, file, i, 0)
    {
      SweepStep(p, lay, f, i, j);
      f := PixelStep(p, lay, f, i, j);
      j := j + 1;
    }
    SweepRowEnd(p, lay, f, i);
  }
}
