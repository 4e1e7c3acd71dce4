# Median denoising of BMP images — a Dafny model

The program this models is a small Qt image viewer. It opens an uncompressed
Windows bitmap, with 8-bit palette indices or 24-bit blue-green-red pixels,
and keeps the file's bytes in a working buffer and a backup buffer. Its
"median filter" buttons rewrite the working buffer in place:

- the fixed filter replaces every pixel by the per-channel median of its
  3x3, 5x5 or 7x7 neighbourhood;
- the adaptive filter grows the neighbourhood from 3x3 to 7x7 until the
  median lies strictly between the neighbourhood's smallest and largest
  value. It then keeps the pixel if the pixel also lies strictly inside,
  and otherwise takes the median.

"Save", "save as" and "restore" move bytes between the two buffers and the
disk. A dirty flag records whether the working copy changed since it was
loaded or last saved.

The model follows `image_widget.cpp` module by module:

- `Bytes`: bytes, 32-bit little-endian fields, and C++ signed remainder.
- `BmpHeader`: the header check and field decoding done by the constructor, the padding, and the row stride.
- `Geometry`: the numbering 1..49 of a pixel's neighbours, and the 98 arms of the two sample switches.
- `Windows`: the border chains that decide how much of a window to keep, and the clipped window they are meant to select.
- `MaskTables`: the 83 hand-written neighbour lists, as data.
- `Masks`: the choice of a list, the zero-padded 49-slot location array, and the loop that reads it back.
- `Median`: the bubble sort and the median, minimum and maximum it yields.
- `Pixels`: pixel addresses, palette lookup, and the palette-searching write-back.
- `Filters`: the window routine, the adaptive decision, and both passes in storage order with in-place updates.
- `FilterLaws`: what a whole pass guarantees.
- `Store`: load, filter, save, save-as and restore over a disk modelled as a map from names to contents.

Each pass has two forms. A pure definition (`Filters.Filter`) states what
it computes. A loop (`Filters.RunPass`) follows the source's nested loops,
and its contract proves it equal to the definition.

The passes use the corrected forms of two things, both listed under
Findings. They address rows with the true 4-byte-aligned BMP row length.
They sample the clipped window, which on images at least `level - 1` pixels
high and wide is exactly what the hand-written lists select.

## Model

| member | source | states |
|---|---|---|
| Bytes.LeInt32 | image_widget.cpp:37-45 | a header field is the 32-bit two's-complement value of its four little-endian bytes; it is negative exactly when the top byte is 128 or more |
| Bytes.LeInt32RoundTrip | image_widget.cpp:37-45 | decoding the four bytes of any 32-bit value gives that value back |
| Bytes.Le32OverflowsInt32 | image_widget.cpp:37-45 | the byte sum the constructor evaluates in `int` leaves the 32-bit range exactly when the top byte is 128 or more, i.e. for every negative field |
| Bytes.CRem4 | image_widget.cpp:46-47 | C++ `% 4` on a signed int: congruent to the operand, with the operand's sign and magnitude below 4 |
| BmpHeader.Padding | image_widget.cpp:46-47 | the padding is zero exactly when the width is a multiple of 4, and it always rounds the width up to a multiple of 4 (0..3 pixels for non-negative widths; for a negative width not a multiple of 4, 4 plus the magnitude's remainder, as C++'s signed `%` gives) |
| BmpHeader.Decode | image_widget.cpp:23-48 | a file loads exactly when it starts with "BM" and its byte 28 is 8 or 24; otherwise the error says which check failed; on success the fields are the signed little-endian values at offsets 10, 18 and 22 and the padding is the one `Padding` derives from the width |
| BmpHeader.DecodeReadsHeader | image_widget.cpp:23-45 | decoding depends on the first 29 bytes only |
| BmpHeader.RowStride | image_widget.cpp:652-655 | the real row length is a multiple of 4 bytes and less than 4 bytes longer than the row's pixels |
| BmpHeader.SourceStrideAgreement | image_widget.cpp:652-655 | the row length the source assumes, `(width + padding) * bpp`, is the real one exactly for 8-bit bitmaps and for 24-bit widths that are 0 or 3 modulo 4 |
| BmpHeader.OnePixelWideStride | image_widget.cpp:652-655 | for a one-pixel-wide 24-bit bitmap the source steps 12 bytes per row where the file has 4 |
| Pixels.HeightSignIgnored | image_widget.cpp:147-149 | a bottom-up and a top-down bitmap of the same size get the same layout, with as many rows as the magnitude of the height |
| FilterLaws.FilterIgnoresHeightSign | image_widget.cpp:143-158 | a pass over the same buffer gives the same result whatever the sign of the height, since rows are visited in storage order either way |
| Pixels.CursorMatchesLayout | image_widget.cpp:630-655 | where the source's stride is the real one, the cursor that advances per pixel and per row reaches every pixel at its true offset |
| Geometry.CodeToDelta | image_widget.cpp:1272-1282 | a code's displacement lies on the ring its number range names (code 1 the centre, 2..9 ring 1, 10..25 ring 2, 26..49 ring 3) |
| Geometry.CodeRoundTrip | image_widget.cpp:1272-1282 | numbering the displacement of a code gives the code back |
| Geometry.DeltaRoundTrip | image_widget.cpp:1272-1282 | every displacement within 3 cells has a code that names it |
| Geometry.CodeToDeltaInjective | image_widget.cpp:1272-1282 | different codes address different cells |
| Geometry.WindowIsLeadingCodes | image_widget.cpp:1272-1282 | the level x level window is exactly the codes 1 .. level² |
| Geometry.SwitchArmsAgree | image_widget.cpp:1302-1800 | every `case` of the 8-bit and 24-bit sample switches reads the neighbour the code's ring numbering names |
| Filters.NeighbourAddress | image_widget.cpp:1302-1800 | the byte offset a switch arm computes is the offset of the neighbouring pixel |
| Windows.ClassSpanExact | image_widget.cpp:159-215 | a border chain keeps the clipped part of the window at every index of an axis exactly when the axis has at least level-1 pixels |
| Windows.ClippedMask | image_widget.cpp:159-627 | the in-image part of the window: every code of the level x level window whose cell lies inside the image, each once, the centre included |
| Masks.SelectMaskExact | image_widget.cpp:159-627 | on images at least level-1 pixels high and wide, the list the chains choose names exactly the in-image window cells, without repeats |
| Masks.SmallImageMask | image_widget.cpp:159-166 | on a 1x1 image the 3x3 chains choose [1, 2, 8, 9], whose code 2 names a cell outside the image |
| Masks.Locations | image_widget.cpp:163-166 | the location array holds the list followed by zeros up to 49 slots |
| Masks.ScanRecoversMask | image_widget.cpp:1298 | reading a location array back up to its first zero gives the list it was built from |
| Masks.ScanAsWrittenOverreads | image_widget.cpp:1298 | the loop as written collects the same codes, but its last read is one past the array exactly when the list has 49 codes |
| Masks.TableOverreads | image_widget.cpp:620-624 | among the hand-written lists only the 7x7 interior list fills all 49 slots and so makes the loop read slot 49 |
| Masks.TableSize | image_widget.cpp:159-627 | every hand-written list holds codes only, as many as its window has cells, at most 49 |
| Median.MedianOf | image_widget.cpp:1255-1270 | the median is a sample value with at most n/2 samples below it and more than n/2 at or below it |
| Median.MedianUnique | image_widget.cpp:1255-1270 | that rank property determines the median uniquely |
| Median.OrderStatsOfMultiset | image_widget.cpp:1804-1806 | median, minimum and maximum depend on the collected values only, not on the order they were collected in |
| Median.MajorityMedian | image_widget.cpp:1255-1270 | the median of three or more samples that agree everywhere but at one position is the common value |
| Median.BubblePass | image_widget.cpp:1259-1268 | one outer pass permutes the first count entries and extends the sorted top part by one entry |
| Median.FindMedian | image_widget.cpp:1255-1270 | the bubble sort permutes the first count entries into order and leaves the rest untouched; the result is the median, and the sorted ends are the minimum and maximum |
| Filters.Values | image_widget.cpp:1298-1800 | one channel of the samples of a code list, in list order, each a byte |
| Filters.ValuesPermutation | image_widget.cpp:1298-1800 | listing the same codes in another order gives the same multiset of samples |
| Filters.StatsOfPermutation | image_widget.cpp:1804-1837 | the median and both flags depend only on the multisets of samples |
| Filters.MaskStats | image_widget.cpp:1804-1837 | the statistics of a code list: each channel's median by rank, medianInRange iff every channel's median has a sample below and a sample above it, thisInRange likewise for the pixel's own colour |
| Filters.Collect | image_widget.cpp:1294-1800 | the loop stores sample k's channels at index k of three 49-slot buffers, up to the first zero slot |
| Filters.SortedEndsFlag | image_widget.cpp:1808-1837 | comparing with the sorted buffer's first and last entries is the test "some sample below and some sample above" |
| Filters.GetMedianInAMask | image_widget.cpp:1289-1837 | the routine yields the median of the listed samples; when flags are requested they are the two range tests on the listed samples |
| Filters.SourceMaskAgrees | image_widget.cpp:159-627 | on images at least level-1 pixels high and wide, the source's list and the clipped window yield the same statistics |
| FilterLaws.TableWindowMedian | image_widget.cpp:159-627 | running the window routine on the source's chosen list computes the clipped window's statistics on such images |
| Filters.WindowMedian | image_widget.cpp:681-1149 | the window routine on the clipped window's location array computes that window's statistics |
| Filters.Decide | image_widget.cpp:1153-1191 | at the first window whose median lies strictly inside, the pixel keeps its own colour if that colour is inside too and takes the median otherwise; if no window settles it keeps its own colour |
| Filters.DecideOutcome | image_widget.cpp:1153-1191 | the decision either keeps the own colour or takes the median of a window whose median is inside its range and whose own colour is not |
| Filters.AdaptivePixel | image_widget.cpp:675-1191 | the search loop from 3x3 growing by 2 up to 7x7 computes the decision over the three windows |
| FilterLaws.AdaptiveOutcome | image_widget.cpp:1153-1191 | the adaptive filter either keeps a pixel's colour or gives it the median of a 3x3, 5x5 or 7x7 window that settles while the pixel is an extreme of it |
| FilterLaws.AdaptiveKeepsInside | image_widget.cpp:1153-1168 | a pixel whose 3x3 window settles with the pixel strictly inside keeps its colour |
| FilterLaws.AdaptiveKeepsUnsettled | image_widget.cpp:1172-1189 | a pixel for which no window settles keeps its colour |
| Pixels.StoreColor | image_widget.cpp:630-650 | writing a pixel changes only that pixel's bytes and keeps every palette index inside the file |
| Pixels.PaletteWriteBack | image_widget.cpp:630-640 | the 8-bit write stores the index of the last palette entry with the wanted colour, and leaves the pixel alone if no entry has it |
| Pixels.PaletteRoundTrip | image_widget.cpp:630-640 | when the palette has the colour, the written 8-bit pixel reads back as that colour |
| Pixels.WriteReadRoundTrip | image_widget.cpp:643-648 | a written 24-bit pixel reads back as the colour written |
| Pixels.WriteSameColor | image_widget.cpp:643-648 | writing a 24-bit pixel's own colour leaves the buffer unchanged |
| Pixels.StoreOthers | image_widget.cpp:630-650 | writing one pixel leaves every other pixel's colour as it was (for 8-bit bitmaps, every pixel whose index selects an entry inside the palette) |
| Filters.FilterPixel | image_widget.cpp:630-650 | one step writes only the visited pixel's bytes, and never a header, palette or padding byte |
| FilterLaws.FilterPixelOthers | image_widget.cpp:630-650 | filtering one pixel leaves every other pixel's colour as it was |
| Filters.Walk | image_widget.cpp:154-156 | visiting rows in storage order and pixels left to right, with each step writing pixel bytes only, writes pixel bytes only |
| Filters.WalkFixed | image_widget.cpp:154-156 | a walk leaves a buffer unchanged when no single step changes it |
| Filters.Filter | image_widget.cpp:143-658 | a whole pass keeps the buffer's size and never writes a header, palette or padding byte |
| Filters.RunPass | image_widget.cpp:143-658 | the source's nested loops with in-place updates compute the pass |
| Filters.RunRow | image_widget.cpp:156-650 | one row's loop advances the pass by exactly that row |
| Filters.PixelStep | image_widget.cpp:159-650 | computing a pixel's new colour and writing it back is one step of the pass |
| FilterLaws.FilterKeepsHeader | image_widget.cpp:143-658 | after a pass the bytes before the pixel array are unchanged, so the file decodes to the same header and palette |
| FilterLaws.UniformFixedPoint | image_widget.cpp:660-1221 | both passes leave a one-colour 24-bit image unchanged |
| FilterLaws.UniformNewColor | image_widget.cpp:660-1191 | in a one-colour image both passes give every pixel that colour |
| FilterLaws.OutlierWindow | image_widget.cpp:1804-1837 | around a lone outlier no window's median lies strictly inside its range, and a window of three or more cells has the surrounding colour as its median |
| FilterLaws.FixedReplacesOutlier | image_widget.cpp:159-627 | the fixed filter gives a lone outlier the surrounding colour |
| FilterLaws.AdaptiveKeepsOutlier | image_widget.cpp:1153-1191 | the adaptive filter keeps a lone outlier in a uniform 7x7 neighbourhood |
| Store.Load | image_widget.cpp:9-48 | a file loads exactly when its header decodes; the working copy and the backup both become the file, and the widget starts clean |
| Store.ApplyFilter | image_widget.cpp:143-145 | a filter button marks the widget dirty and rewrites only the working copy; the backup and the store invariant survive |
| Store.Save | image_widget.cpp:1223-1237 | a dirty widget writes its working copy under its name, makes it the backup and becomes clean; a clean widget changes nothing |
| Store.SaveAs | image_widget.cpp:1239-1252 | the working copy is always written under the new name, becomes the backup, and the widget is clean |
| Store.Restore | image_widget.cpp:1841-1848 | a dirty working copy is replaced by the backup and the flag stays set; a clean widget is unchanged |
| Store.FiltersKeepBackup | image_widget.cpp:143-145 | a run of filters leaves the backup and the disk as they were and leaves the widget dirty |
| Store.RestoreUndoesFilters | image_widget.cpp:1841-1848 | restore after any run of filters brings back the backup, and for a widget that was clean, the image as it was |
| Store.SaveWritesContent | image_widget.cpp:1223-1237 | after a save of a dirty widget the disk holds the working copy under its name and no other name is added |
| Store.SaveSettles | image_widget.cpp:1223-1237 | a second save changes nothing, and restore right after a save changes nothing |

## Left out

- Painting, message boxes, file dialogs and `update()` are user interface. The pixel grid shown on screen is not modelled.
- Opening, reading and writing files is modelled as a map from names to contents. Open failures and short reads are not modelled.
- Store.Load: requires the named file to exist, because a missing file is an I/O failure.
- BmpHeader.Decode: requires at least 29 bytes. The constructor reads bytes 0..28 without checking the file's size.
- Store.Filterable: requires a non-negative width and offset and a pixel array that fits in the file. Otherwise the source's `widthLoop != m_width` loop and its buffer reads leave the buffer.
- Pixels.Fits: for 8-bit bitmaps it also requires every pixel's palette entry to lie inside the file. The source reads out of bounds otherwise.
- Filters.GetMedianInAMask: requires a non-empty list. With an empty list FindMedian returns index 0 of buffers nothing was collected into, and when the flags are requested the range tests at image_widget.cpp:1808-1837 read index `count - 1`, that is -1. No caller passes an empty list.
- Filters.GetMedianInAMask: when the caller passes no flag pointers the source leaves the caller's flags untouched; the model reports them false. Only the fixed filter omits them, and it ignores them.
- The lists at image_widget.cpp:681-1149 are the same lists, in the same order, as those at 159-627. `MaskTables` holds them once.
- The passes sample the clipped window, not the hand-written list. They agree on images at least level-1 pixels high and wide (`Filters.SourceMaskAgrees`). On smaller images the source reads cells outside the image (see Findings).
- The passes address rows with the real BMP row length. For 24-bit widths that are 1 or 2 modulo 4 this differs from the source (see Findings).
- FilterLaws.UniformFixedPoint: proved for 24-bit images only. For 8-bit images the palette search may store a different index of the same colour, which reads back the same but changes the byte.
- FilterLaws.FilterPixelOthers: for 8-bit bitmaps it covers the pixels whose index selects an entry inside the palette. An index pointing into the pixel array could read a byte the step just wrote.
- Filters.FilterPixel: its colour after the step is stated through the round trips `Pixels.WriteReadRoundTrip` and `Pixels.PaletteRoundTrip`, not on `FilterPixel` itself.
- Store.SaveAs: a cancelled dialog returns an empty name; the model writes under whatever name it is given.
- The pixel rows' screen orientation is irrelevant to the filters, which work in storage order.
- The adaptive filter is modelled as written, although one might expect it to remove an isolated inverted pixel. A lone outlier whose 7x7 neighbourhood has one colour is never settled and keeps its colour (`FilterLaws.AdaptiveKeepsOutlier`). So the adaptive filter does not remove an isolated speck in a flat area, while the fixed filter does (`FilterLaws.FixedReplacesOutlier`).
- Restore does not clear the dirty flag, as in the source. A save after a restore writes the restored bytes again.

## Findings

| source | as written | input that shows it | evidently intended | confidence | as-written member | corrected member |
|---|---|---|---|---|---|---|
| image_widget.cpp:37-45 | each 32-bit field is summed as `b0 + b1*256 + b2*65536 + b3*16777216` in signed `int` | a top-down bitmap with height -1 (bytes FF FF FF FF at offset 22): the sum 4294967295 overflows `int`, which is undefined behaviour | the field read as a 32-bit two's-complement value, -1, which the height negation at 147-149 expects | medium, not executed | Bytes.Le32OverflowsInt32 | Bytes.LeInt32 |
| image_widget.cpp:652-655 | rows are assumed `(width + padding) * bpp` bytes apart, with the padding counted in pixels | a 24-bit bitmap one pixel wide: each row is 4 bytes in the file, the source steps 12 | rows 4-byte aligned in bytes, `((width * bitCount + 31) / 32) * 4` | high, not executed | BmpHeader.OnePixelWideStride | BmpHeader.RowStride |
| image_widget.cpp:159-627 | the border chains test the first rows and columns before the last ones | a 1x1 image under the 3x3 filter: the chosen list [1, 2, 8, 9] reads the right and lower neighbours, which do not exist | the in-image part of the window | high, not executed | Masks.SmallImageMask | Windows.ClippedMask |
| image_widget.cpp:1298 | the loop tests `locations[i] != 0` before `i < 49` | the 7x7 interior list (line 623) fills all 49 slots, so the test reads `locations[49]`, one past the array | test the bound first | high, not executed | Masks.TableOverreads | Masks.ScanRecoversMask |
