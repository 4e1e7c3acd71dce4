/**
 * What the two passes promise as a whole: the header and palette survive,
 * a pixel ends up with the colour its rule chose (or keeps its index when
 * the palette lacks that colour), no other pixel is touched by its step,
 * the adaptive filter either keeps a pixel or replaces an extreme pixel by
 * a window median, a one-colour image is left as it is, and a lone
 * outlier is replaced by the fixed filter but kept by the adaptive one.
 */
module FilterLaws {
  import opened Bytes
  import opened BmpHeader
  import opened Windows
  import opened Masks
  import opened Median
  import opened Pixels
  import opened Filters
  import opened Geometry
  import opened Seqs

  /**
   * A pass gives the same result whether the header calls the bitmap
   * bottom-up or top-down: only the magnitude of the height counts.
   */
  lemma FilterIgnoresHeightSign(p: Pass, h: Header, file: seq<byte>)
    requires ValidPass(p) && h.width >= 0 && h.offBits >= 0 && (h.bitCount == 8 || h.bitCount == 24)
    requires Fits(LayoutOf(h), file)
    ensures Fits(LayoutOf(h.(height := -h.height)), file)
    ensures Filter(p, LayoutOf(h.(height := -h.height)), file) == Filter(p, LayoutOf(h), file)
  {
    HeightSignIgnored(h);
  }

  /**
   * A buffer that differs from the file in pixel bytes only has the same
   * bytes before the pixel array, so it decodes to the same header.
   */
  lemma FramedHeader(lay: Layout, file: seq<byte>, f: seq<byte>)
    requires Fits(lay, file) && HeaderReadEnd <= lay.offBits && Frames(lay, file, f)
    ensures lay.offBits <= |file|
    ensures forall k | 0 <= k < lay.offBits :: f[k] == file[k]
    ensures Decode(f) == Decode(file)
  {
    assert lay.rows * lay.stride >= 0;
    forall k | 0 <= k < lay.offBits ensures f[k] == file[k] {
      assert !IsPixelByte(lay, k);
    }
    DecodeReadsHeader(f, file);
  }

  /**
   * A pass writes no byte before the pixel array, so the decoded header
   * and the palette are those of the unfiltered image.
   */
  lemma FilterKeepsHeader(p: Pass, lay: Layout, file: seq<byte>)
    requires ValidPass(p) && Fits(lay, file) && HeaderReadEnd <= lay.offBits
    ensures lay.offBits <= |file|
    ensures forall k | 0 <= k < lay.offBits :: Filter(p, lay, file)[k] == file[k]
    ensures Decode(Filter(p, lay, file)) == Decode(file)
  {
    FramedHeader(lay, file, Filter(p, lay, file));
  }

  /**
   * One step leaves every other pixel's colour as it was (for 8-bit
   * bitmaps, every pixel whose index selects an entry inside the palette).
   */
  lemma FilterPixelOthers(p: Pass, lay: Layout, file: seq<byte>, i: int, j: int, i2: int, j2: int)
    requires ValidPass(p) && Fits(lay, file) && 0 <= i < lay.rows && 0 <= j < lay.cols
    requires 0 <= i2 < lay.rows && 0 <= j2 < lay.cols && (i2 != i || j2 != j)
    requires lay.bitCount == 8 ==> EntryInPalette(lay, file, i2, j2)
    ensures ReadColor(lay, FilterPixel(p, lay, file, i, j), i2, j2) == ReadColor(lay, file, i2, j2)
  {
    StoreOthers(lay, file, i, j, NewColor(p, lay, file, i, j), i2, j2);
  }

  /**
   * The adaptive filter either keeps the pixel's own colour or gives it the
   * median of a window whose median lies strictly inside the window's range
   * while the own colour does not.
   */
  lemma AdaptiveOutcome(lay: Layout, file: seq<byte>, i: int, j: int)
    requires Fits(lay, file) && 0 <= i < lay.rows && 0 <= j < lay.cols
    ensures AdaptiveColor(lay, file, i, j) == ReadColor(lay, file, i, j)
      || exists level | ValidLevel(level) ::
           && WindowStats(level, lay, file, i, j).medianInRange
           && !WindowStats(level, lay, file, i, j).thisInRange
           && AdaptiveColor(lay, file, i, j) == WindowStats(level, lay, file, i, j).median
  {
    var ws := SearchStats(lay, file, i, j);
    DecideOutcome(ws, ReadColor(lay, file, i, j), 0);
    if AdaptiveColor(lay, file, i, j) != ReadColor(lay, file, i, j) {
      var f :| 0 <= f < |ws| && ws[f].medianInRange && !ws[f].thisInRange && AdaptiveColor(lay, file, i, j) == ws[f].median;
      SearchStatsAt(lay, file, i, j, f);
    }
  }

  /** A pixel whose 3x3 window settles with the own colour strictly inside keeps it. */
  lemma AdaptiveKeepsInside(lay: Layout, file: seq<byte>, i: int, j: int)
    requires Fits(lay, file) && 0 <= i < lay.rows && 0 <= j < lay.cols
    requires WindowStats(3, lay, file, i, j).medianInRange && WindowStats(3, lay, file, i, j).thisInRange
    ensures AdaptiveColor(lay, file, i, j) == ReadColor(lay, file, i, j)
  {
    DecideStep(SearchStats(lay, file, i, j), ReadColor(lay, file, i, j), 0);
  }

  /** A pixel for which no window settles keeps its own colour. */
  lemma AdaptiveKeepsUnsettled(lay: Layout, file: seq<byte>, i: int, j: int)
    requires Fits(lay, file) && 0 <= i < lay.rows && 0 <= j < lay.cols
    requires forall level | ValidLevel(level) :: !WindowStats(level, lay, file, i, j).medianInRange
    ensures AdaptiveColor(lay, file, i, j) == ReadColor(lay, file, i, j)
  {
    var ws := SearchStats(lay, file, i, j);
    forall f | 0 <= f < |ws| ensures !ws[f].medianInRange {
      SearchStatsAt(lay, file, i, j, f);
    }
  }

  /** Every pixel of the image has colour c. */
  predicate Uniform(lay: Layout, file: seq<byte>, c: Rgb)
    requires Fits(lay, file)
  {
    forall i, j | 0 <= i < lay.rows && 0 <= j < lay.cols :: ReadColor(lay, file, i, j) == c
  }

  /** Samples that all equal c have median c and a median that is no channel's strict interior. */
  lemma ConstantStats(rs: seq<int>, gs: seq<int>, bs: seq<int>, own: Rgb, c: Rgb)
    requires |rs| >= 1 && |gs| >= 1 && |bs| >= 1
    requires forall x | x in rs :: x == c.r as int
    requires forall x | x in gs :: x == c.g as int
    requires forall x | x in bs :: x == c.b as int
    ensures ByteValues(rs) && ByteValues(gs) && ByteValues(bs)
    ensures StatsOf(rs, gs, bs, own).median == c
    ensures !StatsOf(rs, gs, bs, own).medianInRange
  {
  }

  /** In a one-colour image every window's median is that colour and never strictly inside. */
  lemma UniformStats(lay: Layout, file: seq<byte>, i: int, j: int, codes: seq<int>, c: Rgb)
    requires Fits(lay, file) && 0 <= i < lay.rows && 0 <= j < lay.cols
    requires |codes| >= 1 && AllInImage(lay, i, j, codes) && Uniform(lay, file, c)
    ensures MaskStats(lay, file, i, j, codes).median == c
    ensures !MaskStats(lay, file, i, j, codes).medianInRange
  {
    var rs := Values(lay, file, i, j, codes, Red);
    var gs := Values(lay, file, i, j, codes, Green);
    var bs := Values(lay, file, i, j, codes, Blue);
    forall k | 0 <= k < |codes| ensures Sample(lay, file, i, j, codes[k]) == c {
      assert codes[k] in codes;
    }
    ConstantStats(rs, gs, bs, ReadColor(lay, file, i, j), c);
  }

  /** Every window of a one-colour image has that colour as its median, never strictly inside. */
  lemma UniformWindow(level: int, lay: Layout, file: seq<byte>, i: int, j: int, c: Rgb)
    requires ValidLevel(level) && Fits(lay, file) && 0 <= i < lay.rows && 0 <= j < lay.cols
    requires Uniform(lay, file, c)
    ensures WindowStats(level, lay, file, i, j).median == c
    ensures !WindowStats(level, lay, file, i, j).medianInRange
  {
    ClippedInImage(level, lay, i, j);
    UniformStats(lay, file, i, j, ClippedMask(level, i, j, lay.rows, lay.cols), c);
  }

  /** Either pass gives every pixel of a one-colour image that colour. */
  lemma UniformNewColor(p: Pass, lay: Layout, file: seq<byte>, i: int, j: int, c: Rgb)
    requires ValidPass(p) && Fits(lay, file) && 0 <= i < lay.rows && 0 <= j < lay.cols && Uniform(lay, file, c)
    ensures NewColor(p, lay, file, i, j) == c
  {
    if p.Fixed? {
      UniformWindow(p.level, lay, file, i, j, c);
    } else {
      forall level | ValidLevel(level) ensures !WindowStats(level, lay, file, i, j).medianInRange {
        UniformWindow(level, lay, file, i, j, c);
      }
      AdaptiveKeepsUnsettled(lay, file, i, j);
    }
  }

  /** In a one-colour 24-bit image, filtering one pixel changes no byte. */
  lemma UniformPixel(p: Pass, lay: Layout, file: seq<byte>, i: int, j: int, c: Rgb)
    requires ValidPass(p) && Fits(lay, file) && lay.bitCount == 24 && Uniform(lay, file, c)
    requires 0 <= i < lay.rows && 0 <= j < lay.cols
    ensures FilterPixel(p, lay, file, i, j) == file
  {
    UniformNewColor(p, lay, file, i, j, c);
    WriteSameColor(lay, file, i, j);
  }

  /** A one-colour 24-bit image is a fixed point of both passes. */
  lemma UniformFixedPoint(p: Pass, lay: Layout, file: seq<byte>, c: Rgb)
    requires ValidPass(p) && Fits(lay, file) && lay.bitCount == 24 && Uniform(lay, file, c)
    ensures Filter(p, lay, file) == file
  {
    forall i, j | 0 <= i < lay.rows && 0 <= j < lay.cols
      ensures PassStep(p, lay)(file, i, j) == file
    {
      UniformPixel(p, lay, file, i, j, c);
    }
    WalkFixed(PassStep(p, lay), lay, file, 0, 0);
  }

  /**
   * Every pixel of the level x level window around (i, j) except (i, j)
   * itself has colour c: a lone outlier, if (i, j) has another colour.
   */
  predicate NearlyUniform(level: int, lay: Layout, file: seq<byte>, i: int, j: int, c: Rgb)
    requires ValidLevel(level) && Fits(lay, file)
  {
    forall i2, j2 | 0 <= i2 < lay.rows && 0 <= j2 < lay.cols && (i2 != i || j2 != j)
      && Geometry.Abs(i2 - i) <= Reach(level) && Geometry.Abs(j2 - j) <= Reach(level) :: ReadColor(lay, file, i2, j2) == c
  }

  /** In a sample equal to v everywhere but one position, no sample value lies strictly inside the range. */
  lemma NoStraddle(s: seq<int>, v: int, skip: nat, w: int)
    requires skip < |s| && forall k | 0 <= k < |s| && k != skip :: s[k] == v
    requires w in s
    ensures !Straddles(s, w)
  {
  }

  /** The window's own cell is its only cell at displacement (0, 0); every other cell is a neighbour within reach. */
  lemma WindowNeighbours(level: int, lay: Layout, i: int, j: int)
    requires ValidLevel(level) && 0 <= i < lay.rows && 0 <= j < lay.cols
    ensures 1 in ClippedMask(level, i, j, lay.rows, lay.cols)
    ensures forall k | 0 <= k < |ClippedMask(level, i, j, lay.rows, lay.cols)| ::
      var c := ClippedMask(level, i, j, lay.rows, lay.cols)[k];
      IsCode(c) && Geometry.Abs(CodeToDelta(c).row) <= Reach(level) && Geometry.Abs(CodeToDelta(c).col) <= Reach(level)
      && (c == 1 <==> CodeToDelta(c) == Delta(0, 0))
  {
    LeadingCodesNear(level, ClippedMask(level, i, j, lay.rows, lay.cols));
  }

  /** Codes among the first level * level lie within reach, and only code 1 is the centre. */
  lemma LeadingCodesNear(level: int, m: seq<int>)
    requires ValidLevel(level)
    requires forall c | c in m :: IsCode(c) && c <= Area(level)
    ensures forall k | 0 <= k < |m| ::
      IsCode(m[k]) && Geometry.Abs(CodeToDelta(m[k]).row) <= Reach(level) && Geometry.Abs(CodeToDelta(m[k]).col) <= Reach(level)
      && (m[k] == 1 <==> CodeToDelta(m[k]) == Delta(0, 0))
  {
    forall k | 0 <= k < |m|
      ensures IsCode(m[k]) && Geometry.Abs(CodeToDelta(m[k]).row) <= Reach(level) && Geometry.Abs(CodeToDelta(m[k]).col) <= Reach(level)
      ensures m[k] == 1 <==> CodeToDelta(m[k]) == Delta(0, 0)
    {
      assert m[k] in m;
      WindowIsLeadingCodes(level, m[k]);
      if m[k] != 1 {
        CodeToDeltaInjective(m[k], 1);
      }
    }
  }

  /** Around a lone outlier, every cell of the clipped window but the centre's samples the surrounding colour. */
  lemma OutlierSamples(level: int, lay: Layout, file: seq<byte>, i: int, j: int, c: Rgb) returns (skip: nat)
    requires ValidLevel(level) && Fits(lay, file) && 0 <= i < lay.rows && 0 <= j < lay.cols
    requires NearlyUniform(level, lay, file, i, j, c)
    ensures AllInImage(lay, i, j, ClippedMask(level, i, j, lay.rows, lay.cols))
    ensures skip < |ClippedMask(level, i, j, lay.rows, lay.cols)|
    ensures forall k | 0 <= k < |ClippedMask(level, i, j, lay.rows, lay.cols)| && k != skip ::
      Sample(lay, file, i, j, ClippedMask(level, i, j, lay.rows, lay.cols)[k]) == c
  {
    ClippedInImage(level, lay, i, j);
    WindowNeighbours(level, lay, i, j);
    skip := OutlierCodes(level, lay, file, i, j, c, ClippedMask(level, i, j, lay.rows, lay.cols));
  }

  /** A duplicate-free list of in-image cells within reach samples c everywhere but at the centre's code. */
  lemma OutlierCodes(level: int, lay: Layout, file: seq<byte>, i: int, j: int, c: Rgb, m: seq<int>) returns (skip: nat)
    requires ValidLevel(level) && Fits(lay, file) && 0 <= i < lay.rows && 0 <= j < lay.cols
    requires NearlyUniform(level, lay, file, i, j, c)
    requires AllInImage(lay, i, j, m) && NoDup(m) && 1 in m
    requires forall k | 0 <= k < |m| ::
      IsCode(m[k]) && Geometry.Abs(CodeToDelta(m[k]).row) <= Reach(level) && Geometry.Abs(CodeToDelta(m[k]).col) <= Reach(level)
      && (m[k] == 1 <==> CodeToDelta(m[k]) == Delta(0, 0))
    ensures skip < |m|
    ensures forall k | 0 <= k < |m| && k != skip :: Sample(lay, file, i, j, m[k]) == c
  {
    skip :| 0 <= skip < |m| && m[skip] == 1;
    forall k | 0 <= k < |m| && k != skip ensures Sample(lay, file, i, j, m[k]) == c {
      assert m[k] != 1;
      assert m[k] in m;
    }
  }

  /**
   * Around a lone outlier every window's median never lies strictly inside
   * the window's range, and once the window has three cells or more its
   * median is the surrounding colour.
   */
  lemma OutlierWindow(level: int, lay: Layout, file: seq<byte>, i: int, j: int, c: Rgb)
    requires ValidLevel(level) && Fits(lay, file) && 0 <= i < lay.rows && 0 <= j < lay.cols
    requires NearlyUniform(level, lay, file, i, j, c)
    ensures !WindowStats(level, lay, file, i, j).medianInRange
    ensures |ClippedMask(level, i, j, lay.rows, lay.cols)| >= 3 ==> WindowStats(level, lay, file, i, j).median == c
  {
    var skip := OutlierSamples(level, lay, file, i, j, c);
    OutlierMask(lay, file, i, j, ClippedMask(level, i, j, lay.rows, lay.cols), skip, c);
  }

  /** The statistics of any list of in-image codes whose samples all but one have colour c. */
  lemma OutlierMask(lay: Layout, file: seq<byte>, i: int, j: int, m: seq<int>, skip: nat, c: Rgb)
    requires Fits(lay, file) && 0 <= i < lay.rows && 0 <= j < lay.cols
    requires AllInImage(lay, i, j, m) && skip < |m|
    requires forall k | 0 <= k < |m| && k != skip :: Sample(lay, file, i, j, m[k]) == c
    ensures !MaskStats(lay, file, i, j, m).medianInRange
    ensures |m| >= 3 ==> MaskStats(lay, file, i, j, m).median == c
  {
    ChannelAllBut(lay, file, i, j, m, skip, c, Red);
    ChannelAllBut(lay, file, i, j, m, skip, c, Green);
    ChannelAllBut(lay, file, i, j, m, skip, c, Blue);
    OutlierStats(Values(lay, file, i, j, m, Red), Values(lay, file, i, j, m, Green),
                 Values(lay, file, i, j, m, Blue), ReadColor(lay, file, i, j), skip, c);
  }

  /** The statistics of three channels whose values all but one agree with colour c. */
  lemma OutlierStats(rs: seq<int>, gs: seq<int>, bs: seq<int>, own: Rgb, skip: nat, c: Rgb)
    requires 1 <= |rs| && |gs| == |rs| && |bs| == |rs| && skip < |rs|
    requires ByteValues(rs) && ByteValues(gs) && ByteValues(bs)
    requires forall k | 0 <= k < |rs| && k != skip :: rs[k] == Component(c, Red)
    requires forall k | 0 <= k < |gs| && k != skip :: gs[k] == Component(c, Green)
    requires forall k | 0 <= k < |bs| && k != skip :: bs[k] == Component(c, Blue)
    ensures !StatsOf(rs, gs, bs, own).medianInRange
    ensures |rs| >= 3 ==> StatsOf(rs, gs, bs, own).median == c
  {
    var st := StatsOf(rs, gs, bs, own);
    OutlierValues(rs, Component(c, Red), skip, st.median.r as int);
    OutlierValues(gs, Component(c, Green), skip, st.median.g as int);
    OutlierValues(bs, Component(c, Blue), skip, st.median.b as int);
  }

  /** When all samples but one have colour c, so do all values of each channel but one. */
  lemma ChannelAllBut(lay: Layout, file: seq<byte>, i: int, j: int, m: seq<int>, skip: nat, c: Rgb, ch: Channel)
    requires Fits(lay, file) && AllInImage(lay, i, j, m)
    requires forall k | 0 <= k < |m| && k != skip :: Sample(lay, file, i, j, m[k]) == c
    ensures forall k | 0 <= k < |m| && k != skip :: Values(lay, file, i, j, m, ch)[k] == Component(c, ch)
  {
  }

  /** One channel of a window around a lone outlier: its median straddles nothing, and is the majority value once there are three samples. */
  lemma OutlierValues(s: seq<int>, x: int, skip: nat, v: int)
    requires skip < |s| && forall k | 0 <= k < |s| && k != skip :: s[k] == x
    requires IsMedian(s, v)
    ensures !Straddles(s, v)
    ensures |s| >= 3 ==> v == x
  {
    NoStraddle(s, x, skip, v);
    if |s| >= 3 {
      MajorityMedian(s, x, skip);
      MedianUnique(s, v);
    }
  }

  /** The fixed filter gives a lone outlier the surrounding colour, once its window has three cells or more. */
  lemma FixedReplacesOutlier(level: int, lay: Layout, file: seq<byte>, i: int, j: int, c: Rgb)
    requires ValidLevel(level) && Fits(lay, file) && 0 <= i < lay.rows && 0 <= j < lay.cols
    requires NearlyUniform(level, lay, file, i, j, c) && |ClippedMask(level, i, j, lay.rows, lay.cols)| >= 3
    ensures NewColor(Fixed(level), lay, file, i, j) == c
  {
    OutlierWindow(level, lay, file, i, j, c);
  }

  /**
   * The adaptive filter keeps a lone outlier in a uniform 7x7
   * neighbourhood: no window's median lies strictly inside its range, so
   * the search gives up and the pixel keeps its own colour.
   */
  lemma AdaptiveKeepsOutlier(lay: Layout, file: seq<byte>, i: int, j: int, c: Rgb)
    requires Fits(lay, file) && 0 <= i < lay.rows && 0 <= j < lay.cols
    requires NearlyUniform(7, lay, file, i, j, c)
    ensures AdaptiveColor(lay, file, i, j) == ReadColor(lay, file, i, j)
  {
    forall level | ValidLevel(level) ensures !WindowStats(level, lay, file, i, j).medianInRange {
      OutlierWindow(level, lay, file, i, j, c);
    }
    AdaptiveKeepsUnsettled(lay, file, i, j);
  }

  /**
   * The window routine on the list the source's chains choose: on images at
   * least level-1 pixels high and wide it computes the clipped window's
   * statistics.
   */
  method TableWindowMedian(level: int, lay: Layout, file: seq<byte>, i: int, j: int, wantFlags: bool)
    returns (st: Stats)
    requires ValidLevel(level) && Fits(lay, file) && 0 <= i < lay.rows && 0 <= j < lay.cols
    requires lay.rows >= level - 1 && lay.cols >= level - 1
    ensures st.median == WindowStats(level, lay, file, i, j).median
    ensures wantFlags ==> st == WindowStats(level, lay, file, i, j)
  {
    var mask := SelectMask(level, i, j, lay.rows, lay.cols);
    TableSize(level, AxisClass(level, i, lay.rows), AxisClass(level, j, lay.cols));
    SourceMaskAgrees(level, lay, file, i, j);
    LocationsOf(mask);
    st := GetMedianInAMask(lay, file, i, j, Locations(mask), wantFlags);
  }
}
