/** The scan behind `update_content_rect`: the tight box around the visible pixels
    and their average colour. */
module BoundingBox {
  import opened Arith
  import opened MachineInts
  import opened Pixels
  import opened ContentRect

  /** A whole frame: `width * height` pixels, row by row. */
  predicate IsFrame(pixels: seq<Pixel>, width: nat, height: nat) {
    |pixels| == width * height
  }

  function PixelAt(pixels: seq<Pixel>, width: nat, height: nat, x: nat, y: nat): Pixel
    requires IsFrame(pixels, width, height) && x < width && y < height
  {
    CellInside(width, height, x, y);
    pixels[Cell(width, x, y)]
  }

  predicate VisibleAt(pixels: seq<Pixel>, width: nat, height: nat, x: nat, y: nat)
    requires IsFrame(pixels, width, height) && x < width && y < height
  {
    Visible(PixelAt(pixels, width, height, x, y))
  }

  predicate InRect(r: FrameRect, x: nat, y: nat) {
    r.x <= x < r.x + r.w && r.y <= y < r.y + r.h
  }

  predicate VisibleInCol(pixels: seq<Pixel>, width: nat, height: nat, x: nat)
    requires IsFrame(pixels, width, height) && x < width
  {
    exists y | 0 <= y < height :: VisibleAt(pixels, width, height, x, y)
  }

  predicate VisibleInRow(pixels: seq<Pixel>, width: nat, height: nat, y: nat)
    requires IsFrame(pixels, width, height) && y < height
  {
    exists x | 0 <= x < width :: VisibleAt(pixels, width, height, x, y)
  }

  /** Every visible pixel is inside, and each of the four edges holds one. */
  predicate IsBoundingBox(pixels: seq<Pixel>, width: nat, height: nat, r: FrameRect)
    requires IsFrame(pixels, width, height)
  {
    && r.w >= 1 && r.h >= 1 && r.x + r.w <= width && r.y + r.h <= height
    && (forall x, y | 0 <= x < width && 0 <= y < height && VisibleAt(pixels, width, height, x, y) :: InRect(r, x, y))
    && VisibleInCol(pixels, width, height, r.x) && VisibleInCol(pixels, width, height, r.x + r.w - 1)
    && VisibleInRow(pixels, width, height, r.y) && VisibleInRow(pixels, width, height, r.y + r.h - 1)
  }

  /** There is only one such box. */
  lemma BoundingBoxUnique(pixels: seq<Pixel>, width: nat, height: nat, a: FrameRect, b: FrameRect)
    requires IsFrame(pixels, width, height)
    requires IsBoundingBox(pixels, width, height, a) && IsBoundingBox(pixels, width, height, b)
    ensures a == b
  {
    hide VisibleAt;
  }

  // ---- sums over the visible pixels ---------------------------------------------------

  datatype Channel = R | G | B

  function ChannelOf(p: Pixel, c: Channel): u8 {
    match c case R => Red(p) case G => Green(p) case B => Blue(p)
  }

  function VisibleCount(pixels: seq<Pixel>, n: nat): nat
    requires n <= |pixels|
  {
    if n == 0 then 0 else VisibleCount(pixels, n - 1) + if Visible(pixels[n - 1]) then 1 else 0
  }

  function VisibleSum(pixels: seq<Pixel>, n: nat, c: Channel): nat
    requires n <= |pixels|
  {
    if n == 0 then 0
    else VisibleSum(pixels, n - 1, c) + if Visible(pixels[n - 1]) then ChannelOf(pixels[n - 1], c) else 0
  }

  lemma {:induction false} VisibleSumBound(pixels: seq<Pixel>, n: nat, c: Channel)
    requires n <= |pixels|
    ensures VisibleSum(pixels, n, c) <= 255 * VisibleCount(pixels, n)
  {
    if n > 0 {
      VisibleSumBound(pixels, n - 1, c);
    }
  }

  /** The average of one channel over the visible pixels, rounded down. */
  function Average(pixels: seq<Pixel>, c: Channel): u8
    requires VisibleCount(pixels, |pixels|) > 0
  {
    VisibleSumBound(pixels, |pixels|, c);
    var count := VisibleCount(pixels, |pixels|);
    AverageFits(VisibleSum(pixels, |pixels|, c), count);
    VisibleSum(pixels, |pixels|, c) / count
  }

  lemma AverageFits(sum: nat, count: nat)
    requires count > 0 && sum <= 255 * count
    ensures sum / count < 256
  {
    DivMod(sum, count);
    if sum / count >= 256 {
      MulMono(256, sum / count, count);
    }
  }

  /** What the scan has gathered, with the places that prove each bound tight. */
  datatype Scan = Scan(
    minX: nat, minY: nat, maxX: nat, maxY: nat, rSum: nat, gSum: nat, bSum: nat, count: nat,
    minXRow: nat, maxXRow: nat, minYCol: nat, maxYCol: nat)

  predicate Sums(pixels: seq<Pixel>, n: nat, s: Scan)
    requires n <= |pixels|
  {
    && s.count == VisibleCount(pixels, n)
    && s.rSum == VisibleSum(pixels, n, R) && s.gSum == VisibleSum(pixels, n, G) && s.bSum == VisibleSum(pixels, n, B)
  }

  predicate Before(x: nat, y: nat, doneX: nat, doneY: nat) { y < doneY || (y == doneY && x < doneX) }

  predicate Covers(pixels: seq<Pixel>, width: nat, height: nat, doneX: nat, doneY: nat, s: Scan)
    requires IsFrame(pixels, width, height)
  {
    forall x, y | 0 <= x < width && 0 <= y < height && Before(x, y, doneX, doneY)
                  && VisibleAt(pixels, width, height, x, y) ::
      s.count > 0 && s.minX <= x <= s.maxX && s.minY <= y <= s.maxY
  }

  predicate Tight(pixels: seq<Pixel>, width: nat, height: nat, s: Scan)
    requires IsFrame(pixels, width, height)
  {
    if s.count == 0 then s.minX == width && s.minY == height && s.maxX == 0 && s.maxY == 0
    else
      && s.minX <= s.maxX < width && s.minY <= s.maxY < height
      && s.minXRow < height && VisibleAt(pixels, width, height, s.minX, s.minXRow)
      && s.maxXRow < height && VisibleAt(pixels, width, height, s.maxX, s.maxXRow)
      && s.minYCol < width && VisibleAt(pixels, width, height, s.minYCol, s.minY)
      && s.maxYCol < width && VisibleAt(pixels, width, height, s.maxYCol, s.maxY)
  }

  /** The scan after one more visible pixel. */
  function Grown(pixel: Pixel, x: nat, y: nat, s: Scan): Scan {
    Scan(Min(s.minX, x), Min(s.minY, y), Max(s.maxX, x), Max(s.maxY, y),
         s.rSum + Red(pixel), s.gSum + Green(pixel), s.bSum + Blue(pixel), s.count + 1,
         if x <= s.minX then y else s.minXRow, if x >= s.maxX then y else s.maxXRow,
         if y <= s.minY then x else s.minYCol, if y >= s.maxY then x else s.maxYCol)
  }

  function Scanned(pixel: Pixel, x: nat, y: nat, s: Scan): Scan {
    if Visible(pixel) then Grown(pixel, x, y, s) else s
  }

  lemma ScanKeepsTight(pixels: seq<Pixel>, width: nat, height: nat, x: nat, y: nat, s: Scan)
    requires IsFrame(pixels, width, height) && x < width && y < height && Tight(pixels, width, height, s)
    ensures Tight(pixels, width, height, Scanned(PixelAt(pixels, width, height, x, y), x, y, s))
  {
    hide PixelAt;
    if VisibleAt(pixels, width, height, x, y) {
    }
  }

  lemma ScanKeepsCovers(pixels: seq<Pixel>, width: nat, height: nat, x: nat, y: nat, s: Scan)
    requires IsFrame(pixels, width, height) && x < width && y < height
    requires Covers(pixels, width, height, x, y, s)
    ensures Covers(pixels, width, height, x + 1, y, Scanned(PixelAt(pixels, width, height, x, y), x, y, s))
  {
    hide PixelAt;
    var t := Scanned(PixelAt(pixels, width, height, x, y), x, y, s);
    forall a, b | 0 <= a < width && 0 <= b < height && Before(a, b, x + 1, y) && VisibleAt(pixels, width, height, a, b)
      ensures t.count > 0 && t.minX <= a <= t.maxX && t.minY <= b <= t.maxY
    {
    }
  }

  lemma ScanKeepsSums(pixels: seq<Pixel>, n: nat, x: nat, y: nat, s: Scan)
    requires n < |pixels| && Sums(pixels, n, s)
    ensures Sums(pixels, n + 1, Scanned(pixels[n], x, y, s))
  {
  }

  /** One pass over one row. */
  method ScanRow(pixels: seq<Pixel>, width: nat, height: nat, y: nat, s0: Scan) returns (s: Scan)
    requires IsFrame(pixels, width, height) && y < height
    requires Covers(pixels, width, height, 0, y, s0) && Tight(pixels, width, height, s0)
    requires y * width <= |pixels| && Sums(pixels, y * width, s0)
    ensures Covers(pixels, width, height, width, y, s) && Tight(pixels, width, height, s)
    ensures y * width + width <= |pixels| && Sums(pixels, y * width + width, s)
  {
    RowInside(width, height, y);
    hide Covers, Tight, Sums, Visible, Scanned;
    var row := y * width;
    s := s0;
    var x := 0;
    while x < width
      invariant 0 <= x <= width && row + width <= |pixels|
      invariant Covers(pixels, width, height, x, y, s) && Tight(pixels, width, height, s)
      invariant Sums(pixels, row + x, s)
    {
      var pixel := pixels[row + x];
      ghost var before := s;
      if Alpha(pixel) >= VISIBLE_ALPHA_THRESHOLD {
        s := Grown(pixel, x, y, s);
      }
      PixelScanned(pixels, width, height, x, y, row + x, before, s);
      x := x + 1;
    }
  }

  lemma PixelScanned(
    pixels: seq<Pixel>, width: nat, height: nat, x: nat, y: nat, n: nat, s: Scan, t: Scan)
    requires IsFrame(pixels, width, height) && x < width && y < height
    requires Covers(pixels, width, height, x, y, s) && Tight(pixels, width, height, s)
    requires n == Cell(width, x, y) && n < |pixels| && Sums(pixels, n, s)
    requires t == if Alpha(pixels[n]) >= VISIBLE_ALPHA_THRESHOLD then Grown(pixels[n], x, y, s) else s
    ensures Covers(pixels, width, height, x + 1, y, t) && Tight(pixels, width, height, t)
    ensures Sums(pixels, n + 1, t)
  {
    hide Covers, Tight, Sums, Grown, Cell;
    ScanKeepsCovers(pixels, width, height, x, y, s);
    ScanKeepsTight(pixels, width, height, x, y, s);
    ScanKeepsSums(pixels, n, x, y, s);
  }

  /** One pass over the whole frame. */
  method ScanFrame(pixels: seq<Pixel>, width: nat, height: nat) returns (s: Scan)
    requires IsFrame(pixels, width, height)
    ensures Covers(pixels, width, height, 0, height, s) && Tight(pixels, width, height, s)
    ensures Sums(pixels, |pixels|, s)
  {
    s := Scan(width, height, 0, 0, 0, 0, 0, 0, 0, 0, 0, 0);
    ScanStarts(pixels, width, height);
    hide Covers, Tight, Sums;
    var y := 0;
    while y < height
      invariant 0 <= y <= height && 0 <= y * width <= |pixels|
      invariant Covers(pixels, width, height, 0, y, s) && Tight(pixels, width, height, s)
      invariant Sums(pixels, y * width, s)
    {
      s := ScanRow(pixels, width, height, y, s);
      RowInside(width, height, y);
      CoversNextRow(pixels, width, height, y, s);
      y := y + 1;
    }
  }

  lemma ScanStarts(pixels: seq<Pixel>, width: nat, height: nat)
    requires IsFrame(pixels, width, height)
    ensures var s := Scan(width, height, 0, 0, 0, 0, 0, 0, 0, 0, 0, 0);
            && Covers(pixels, width, height, 0, 0, s) && Tight(pixels, width, height, s)
            && Sums(pixels, 0, s)
  {
  }

  lemma CoversNextRow(pixels: seq<Pixel>, width: nat, height: nat, y: nat, s: Scan)
    requires IsFrame(pixels, width, height) && Covers(pixels, width, height, width, y, s)
    ensures Covers(pixels, width, height, 0, y + 1, s)
  {
    hide VisibleAt;
    forall a, b | 0 <= a < width && 0 <= b < height && Before(a, b, 0, y + 1) && VisibleAt(pixels, width, height, a, b)
      ensures s.count > 0 && s.minX <= a <= s.maxX && s.minY <= b <= s.maxY
    {
      assert Before(a, b, width, y);
    }
  }

  lemma ScanIsBoundingBox(pixels: seq<Pixel>, width: nat, height: nat, s: Scan)
    requires IsFrame(pixels, width, height) && width < TWO_32 && height < TWO_32 && s.count > 0
    requires Covers(pixels, width, height, 0, height, s) && Tight(pixels, width, height, s)
    ensures IsBoundingBox(pixels, width, height,
                          NewRect(s.minX, s.minY, s.maxX - s.minX + 1, s.maxY - s.minY + 1))
  {
    hide VisibleAt;
    var r := NewRect(s.minX, s.minY, s.maxX - s.minX + 1, s.maxY - s.minY + 1);
    forall x, y | 0 <= x < width && 0 <= y < height && VisibleAt(pixels, width, height, x, y)
      ensures InRect(r, x, y)
    {
      assert Before(x, y, 0, height);
    }
  }

  // ---- update_content_rect ---------------------------------------------------------------

  /** The content rectangle and the matte a frame calls for. */
  ghost predicate IsContent(pixels: seq<Pixel>, width: nat, height: nat, content: FrameRect, matte: Pixel)
    requires IsFrame(pixels, width, height) && width < TWO_32 && height < TWO_32
  {
    if VisibleCount(pixels, |pixels|) == 0 then
      content == NewRect(0, 0, width, height) && matte == DEFAULT_MATTE_PIXEL
    else
      && matte == RgbToPixel(Average(pixels, R), Average(pixels, G), Average(pixels, B))
      && exists box, runs ::
           IsBoundingBox(pixels, width, height, box) && IsTrimmed(pixels, width, box, runs, content)
  }

  /** `trim_content_rect` trims nothing: `CONTENT_EDGE_TRIM_PX` is zero. */
  const CONTENT_EDGE_TRIM_PX: nat := 0

  function TrimContentRect(r: FrameRect): (t: FrameRect)
    requires r.w >= 1 && r.h >= 1
    ensures t == r
  {
    if r.w <= CONTENT_EDGE_TRIM_PX * 2 || r.h <= CONTENT_EDGE_TRIM_PX * 2 then r
    else NewRect(r.x + CONTENT_EDGE_TRIM_PX, r.y + CONTENT_EDGE_TRIM_PX,
                 r.w - CONTENT_EDGE_TRIM_PX * 2, r.h - CONTENT_EDGE_TRIM_PX * 2)
  }

  lemma BoxFitsFrame(pixels: seq<Pixel>, width: nat, height: nat, box: FrameRect)
    requires IsFrame(pixels, width, height) && width < TWO_32 && height < TWO_32
    requires IsBoundingBox(pixels, width, height, box)
    ensures RectInside(pixels, width, box)
  {
    MulMono(box.y + box.h, height, width);
  }

  lemma AverageIs(pixels: seq<Pixel>, s: Scan)
    requires Sums(pixels, |pixels|, s) && s.count > 0
    ensures s.rSum / s.count == Average(pixels, R) && s.gSum / s.count == Average(pixels, G)
    ensures s.bSum / s.count == Average(pixels, B)
  {
  }

  method UpdateContentRect(pixels: seq<Pixel>, width: nat, height: nat) returns (content: FrameRect, matte: Pixel)
    requires IsFrame(pixels, width, height) && width < TWO_32 && height < TWO_32
    ensures IsContent(pixels, width, height, content, matte)
  {
    hide Covers, VisibleAt, IsBoundingBox, IsTrimmed;
    var s := ScanFrame(pixels, width, height);
    if s.count == 0 {
      return NewRect(0, 0, Max(width, 1), Max(height, 1)), DEFAULT_MATTE_PIXEL;
    }
    ghost var box := NewRect(s.minX, s.minY, s.maxX - s.minX + 1, s.maxY - s.minY + 1);
    ScanIsBoundingBox(pixels, width, height, s);
    BoxFitsFrame(pixels, width, height, box);
    var alphaRect := TrimContentRect(NewRect(s.minX, s.minY, s.maxX - s.minX + 1, s.maxY - s.minY + 1));
    ghost var runs;
    content, runs := TrimUniformPadding(pixels, width, alphaRect);
    AverageIs(pixels, s);
    matte := RgbToPixel(s.rSum / s.count, s.gSum / s.count, s.bSum / s.count);
    assert IsBoundingBox(pixels, width, height, box) && IsTrimmed(pixels, width, box, runs, content);
  }

  function Total(values: seq<nat>): nat {
    if values == [] then 0 else Total(values[..|values| - 1]) + values[|values| - 1]
  }

  /** One channel of each pixel, or nothing where its alpha is below 48. */
  function Shares(pixels: seq<Pixel>, c: Channel): seq<nat> {
    seq(|pixels|, i requires 0 <= i < |pixels| => if Alpha(pixels[i]) >= 48 then ChannelOf(pixels[i], c) else 0)
  }

  /** How many pixels have an alpha of 48 or more. */
  function OpaqueCount(pixels: seq<Pixel>): nat { |set i | 0 <= i < |pixels| && Alpha(pixels[i]) >= 48| }

  lemma {:induction false} VisibleSumIsTotal(pixels: seq<Pixel>, n: nat, c: Channel)
    requires n <= |pixels|
    ensures VisibleSum(pixels, n, c) == Total(Shares(pixels, c)[..n])
  {
    hide ChannelOf, Alpha;
    if n > 0 {
      VisibleSumIsTotal(pixels, n - 1, c);
      assert Shares(pixels, c)[..n][..n - 1] == Shares(pixels, c)[..n - 1];
    }
  }

  lemma {:induction false} VisibleCountIs(pixels: seq<Pixel>, n: nat)
    requires n <= |pixels|
    ensures VisibleCount(pixels, n) == |set i | 0 <= i < n && Alpha(pixels[i]) >= 48|
  {
    hide Alpha;
    if n > 0 {
      VisibleCountIs(pixels, n - 1);
      var before := set i | 0 <= i < n - 1 && Alpha(pixels[i]) >= 48;
      assert (set i | 0 <= i < n && Alpha(pixels[i]) >= 48)
          == if Alpha(pixels[n - 1]) >= 48 then before + {n - 1} else before;
    }
  }

  /** `q` is `sum / count`, rounded down. */
  predicate IsQuotient(q: nat, sum: nat, count: nat) { q * count <= sum < q * count + count }

  /** The matte is the average colour of the visible pixels, each channel by itself and
      rounded down; a frame that shows nothing has the dark grey 0x181818 and is content
      from end to end. */
  lemma MatteIsAverage(pixels: seq<Pixel>, width: nat, height: nat, content: FrameRect, matte: Pixel)
    requires IsFrame(pixels, width, height) && width < TWO_32 && height < TWO_32
    requires IsContent(pixels, width, height, content, matte)
    ensures var n := OpaqueCount(pixels);
            if n == 0 then
              content == FrameRect(0, 0, Max(width, 1), Max(height, 1)) && matte == 0x18_1818
            else
              && IsQuotient(Red(matte), Total(Shares(pixels, R)), n)
              && IsQuotient(Green(matte), Total(Shares(pixels, G)), n)
              && IsQuotient(Blue(matte), Total(Shares(pixels, B)), n)
              && Alpha(matte) == 0
  {
    hide IsBoundingBox, IsTrimmed, VisibleCount, VisibleSum, Shares, Alpha, Red, Green, Blue, Total;
    VisibleCountIs(pixels, |pixels|);
    if OpaqueCount(pixels) > 0 {
      AverageIsQuotient(pixels, R);
      AverageIsQuotient(pixels, G);
      AverageIsQuotient(pixels, B);
      PackUnpack(Average(pixels, R), Average(pixels, G), Average(pixels, B), 0);
    }
  }

  lemma AverageIsQuotient(pixels: seq<Pixel>, c: Channel)
    requires VisibleCount(pixels, |pixels|) > 0
    ensures IsQuotient(Average(pixels, c), Total(Shares(pixels, c)), VisibleCount(pixels, |pixels|))
  {
    hide Shares, Total, VisibleSum, VisibleCount;
    VisibleSumIsTotal(pixels, |pixels|, c);
    assert Shares(pixels, c)[..|pixels|] == Shares(pixels, c) by { SharesLength(pixels, c); }
    DivMod(VisibleSum(pixels, |pixels|, c), VisibleCount(pixels, |pixels|));
  }

  lemma SharesLength(pixels: seq<Pixel>, c: Channel)
    ensures |Shares(pixels, c)| == |pixels|
  {
  }

  /** The frame determines its content rectangle and matte. */
  lemma ContentUnique(
    pixels: seq<Pixel>, width: nat, height: nat, a: FrameRect, m: Pixel, b: FrameRect, n: Pixel)
    requires IsFrame(pixels, width, height) && width < TWO_32 && height < TWO_32
    requires IsContent(pixels, width, height, a, m) && IsContent(pixels, width, height, b, n)
    ensures a == b && m == n
  {
    hide IsBoundingBox, IsTrimmed, VisibleCount, Average;
    if VisibleCount(pixels, |pixels|) > 0 {
      var box, runs :| IsBoundingBox(pixels, width, height, box) && IsTrimmed(pixels, width, box, runs, a);
      var box', runs' :| IsBoundingBox(pixels, width, height, box') && IsTrimmed(pixels, width, box', runs', b);
      BoundingBoxUnique(pixels, width, height, box, box');
      TrimDeterministic(pixels, width, box, runs, a, runs', b);
    }
  }

  /** The content rectangle lies in the frame and is never empty. */
  lemma ContentInsideFrame(pixels: seq<Pixel>, width: nat, height: nat, content: FrameRect, matte: Pixel)
    requires IsFrame(pixels, width, height) && 0 < width < TWO_32 && 0 < height < TWO_32
    requires IsContent(pixels, width, height, content, matte)
    ensures content.w >= 1 && content.h >= 1
    ensures content.x + content.w <= width && content.y + content.h <= height
  {
    hide IsBoundingBox, IsTrimmed, VisibleCount, Average;
    if VisibleCount(pixels, |pixels|) > 0 {
      var box, runs :| IsBoundingBox(pixels, width, height, box) && IsTrimmed(pixels, width, box, runs, content);
      BoxFitsFrame(pixels, width, height, box);
      TrimShrinks(pixels, width, box, runs, content);
      BoxEdges(pixels, width, height, box);
    }
  }

  lemma BoxEdges(pixels: seq<Pixel>, width: nat, height: nat, box: FrameRect)
    requires IsFrame(pixels, width, height) && IsBoundingBox(pixels, width, height, box)
    ensures box.x + box.w <= width && box.y + box.h <= height
  {
  }
}
