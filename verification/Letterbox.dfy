/** Fitting a frame into the host window: the fitted rectangle, the scaled copy
    into it, and the blend of each pixel with the matte. */
module Letterbox {
  import opened Arith
  import opened MachineInts
  import opened Pixels
  import opened ContentRect

  datatype RenderRect = RenderRect(x: u32, y: u32, w: u32, h: u32)

  // ---- aspect fit -------------------------------------------------------------------

  /** `length * num / den`, rounded to nearest, as the source computes it. */
  function Rounded(length: nat, num: nat, den: nat): nat
    requires den > 0
  {
    MulNonNegative(length, num);
    (length * num + den / 2) / den
  }

  /** Rounding errs by at most half the divisor, and a tie goes up. */
  lemma RoundedError(length: nat, num: nat, den: nat)
    requires den > 0
    ensures -(den as int) < 2 * (Rounded(length, num, den) * den - length * num) <= den
  {
    MulNonNegative(length, num);
    var n := length * num + den / 2;
    DivMod(n, den);
  }

  /** A ratio that stays below `cap` rounds to at most `cap`. */
  lemma RoundedAtMost(length: nat, num: nat, den: nat, cap: nat)
    requires den > 0 && length * num <= cap * den
    ensures Rounded(length, num, den) <= cap
  {
    RoundedError(length, num, den);
    var q := Rounded(length, num, den);
    if q > cap {
      MulMono(cap + 1, q, den);
      Distribute(cap, den);
    }
  }

  /** True when the source is wider, in proportion, than the destination. */
  predicate Wider(srcW: nat, srcH: nat, dstW: nat, dstH: nat) { srcW * dstH > dstW * srcH }

  /** Width and height of the fitted rectangle, for non-zero sizes. */
  function FitSize(srcW: nat, srcH: nat, dstW: nat, dstH: nat): (nat, nat)
    requires srcW > 0 && srcH > 0
  {
    if Wider(srcW, srcH, dstW, dstH) then (dstW, Min(Max(Rounded(dstW, srcH, srcW), 1), dstH))
    else (Min(Max(Rounded(dstH, srcW, srcH), 1), dstW), dstH)
  }

  function AspectFitRect(srcWidth: u32, srcHeight: u32, dstWidth: u32, dstHeight: u32): RenderRect {
    var dstW, dstH := Max(dstWidth, 1), Max(dstHeight, 1);
    var (w, h) := FitSize(Max(srcWidth, 1), Max(srcHeight, 1), dstW, dstH);
    RenderRect((dstW - w) / 2, (dstH - h) / 2, w, h)
  }

  /** The two products of a fit, compared. */
  lemma WiderMeans(srcW: nat, srcH: nat, dstW: nat, dstH: nat)
    ensures Wider(srcW, srcH, dstW, dstH) ==> dstW * srcH <= dstH * srcW
    ensures !Wider(srcW, srcH, dstW, dstH) ==> dstH * srcW <= dstW * srcH
  {
  }

  /** The `.min` clamps of the source never change anything. */
  lemma ClampsNeverAct(srcW: nat, srcH: nat, dstW: nat, dstH: nat)
    requires srcW > 0 && srcH > 0 && dstW > 0 && dstH > 0
    ensures FitSize(srcW, srcH, dstW, dstH)
            == if Wider(srcW, srcH, dstW, dstH) then (dstW, Max(Rounded(dstW, srcH, srcW), 1))
               else (Max(Rounded(dstH, srcW, srcH), 1), dstH)
  {
    hide Wider, Rounded;
    WiderMeans(srcW, srcH, dstW, dstH);
    if Wider(srcW, srcH, dstW, dstH) {
      RoundedAtMost(dstW, srcH, srcW, dstH);
    } else {
      RoundedAtMost(dstH, srcW, srcH, dstW);
    }
  }

  /** No intermediate value of the fit overflows 64 bits. */
  lemma FitNeverOverflows(a: u32, b: u32, c: u32)
    ensures 0 <= a * b && a * b + c / 2 < TWO_64
  {
    MulMono(a, TWO_32 - 1, b);
    MulNonNegative(a, b);
  }

  /** The rectangle lies in the window, is not empty, fills one whole dimension and
      is centred to within one pixel. */
  lemma FitInside(srcWidth: u32, srcHeight: u32, dstWidth: u32, dstHeight: u32)
    ensures var r := AspectFitRect(srcWidth, srcHeight, dstWidth, dstHeight);
            var dstW, dstH := Max(dstWidth, 1), Max(dstHeight, 1);
            && r.w >= 1 && r.h >= 1 && r.x + r.w <= dstW && r.y + r.h <= dstH
            && (r.w == dstW || r.h == dstH)
            && 0 <= (dstW - r.x - r.w) - r.x <= 1
            && 0 <= (dstH - r.y - r.h) - r.y <= 1
  {
    hide Wider, Rounded;
  }

  /** `side` is `length * num / den` rounded to nearest, a tie going up; or one pixel, where
      that is less than half a pixel. */
  predicate NearestRatio(side: nat, length: nat, num: nat, den: nat)
    requires den > 0
  {
    if 2 * (length * num) < den then side == 1
    else -(den as int) < 2 * (side * den - length * num) <= den
  }

  lemma NearestSide(length: nat, num: nat, den: nat)
    requires den > 0
    ensures NearestRatio(Max(Rounded(length, num, den), 1), length, num, den)
  {
    MulNonNegative(length, num);
    RoundedError(length, num, den);
    var q := Rounded(length, num, den);
    if q >= 1 {
      MulAtLeast(den, q);
    }
  }

  /** The other dimension is the exact ratio rounded to nearest, unless that is
      less than one pixel, in which case it is one. */
  lemma FitKeepsRatio(srcWidth: u32, srcHeight: u32, dstWidth: u32, dstHeight: u32)
    ensures var r := AspectFitRect(srcWidth, srcHeight, dstWidth, dstHeight);
            var srcW, srcH := Max(srcWidth, 1), Max(srcHeight, 1);
            var dstW, dstH := Max(dstWidth, 1), Max(dstHeight, 1);
            if Wider(srcW, srcH, dstW, dstH) then r.w == dstW && NearestRatio(r.h, dstW, srcH, srcW)
            else r.h == dstH && NearestRatio(r.w, dstH, srcW, srcH)
  {
    hide Wider, Rounded, NearestRatio;
    var srcW, srcH := Max(srcWidth, 1), Max(srcHeight, 1);
    var dstW, dstH := Max(dstWidth, 1), Max(dstHeight, 1);
    ClampsNeverAct(srcW, srcH, dstW, dstH);
    NearestSide(dstW, srcH, srcW);
    NearestSide(dstH, srcW, srcH);
  }

  // ---- blending ------------------------------------------------------------------------

  /** One channel blended with the matte: `a` parts of 255. */
  function BlendChannel(c: u8, m: u8, a: u8): u8 {
    BlendBetween(c, m, a);
    (c * a + m * (255 - a)) / 255
  }

  lemma BlendBetween(c: u8, m: u8, a: u8)
    ensures 0 <= c * a + m * (255 - a)
    ensures Min(c, m) <= (c * a + m * (255 - a)) / 255 <= Max(c, m)
  {
    var lo, hi := Min(c, m), Max(c, m);
    MulMono(lo, c, a);
    MulMono(lo, m, 255 - a);
    MulMono(c, hi, a);
    MulMono(m, hi, 255 - a);
    assert lo * a + lo * (255 - a) == 255 * lo && hi * a + hi * (255 - a) == 255 * hi;
  }

  function PixelForSoftbuffer(pixel: Pixel, matte: Pixel): Pixel {
    var a := Alpha(pixel);
    if a >= 255 then OpaqueSoftbufferPixel(pixel)
    else if a < VISIBLE_ALPHA_THRESHOLD then OpaqueSoftbufferPixel(matte)
    else
      OpaqueSoftbufferPixel(RgbToPixel(
        BlendChannel(Red(pixel), Red(matte), a),
        BlendChannel(Green(pixel), Green(matte), a),
        BlendChannel(Blue(pixel), Blue(matte), a)))
  }

  lemma OpaqueIsRepacked(p: Pixel)
    ensures OpaqueSoftbufferPixel(p) == RgbaToPixel(Red(p), Green(p), Blue(p), 255)
  {
    UnpackPack(p);
    assert p % 0x100_0000 == Red(p) * 0x1_0000 + Green(p) * 0x100 + Blue(p);
  }

  lemma OpaqueKeepsColour(p: Pixel)
    ensures var q := OpaqueSoftbufferPixel(p);
            Alpha(q) == 255 && Red(q) == Red(p) && Green(q) == Green(p) && Blue(q) == Blue(p)
  {
    hide OpaqueSoftbufferPixel, RgbaToPixel, Alpha, Red, Green, Blue;
    OpaqueIsRepacked(p);
    PackUnpack(Red(p), Green(p), Blue(p), 255);
  }

  /** `a` parts of 255 of the source and the rest of the matte, rounded down. */
  predicate Weighted(out: u8, c: u8, m: u8, a: u8) { 255 * out <= c * a + m * (255 - a) < 255 * out + 255 }

  lemma BlendIsWeighted(c: u8, m: u8, a: u8)
    ensures Weighted(BlendChannel(c, m, a), c, m, a)
  {
    BlendBetween(c, m, a);
    DivMod(c * a + m * (255 - a), 255);
  }

  predicate SameColour(p: Pixel, q: Pixel) { Red(p) == Red(q) && Green(p) == Green(q) && Blue(p) == Blue(q) }

  /** An opaque pixel of the source's colour, the matte's, or both in the source's
      proportion, by the source's alpha. */
  predicate Blends(out: Pixel, pixel: Pixel, matte: Pixel) {
    && Alpha(out) == 255
    && if Alpha(pixel) == 255 then SameColour(out, pixel)
       else if Alpha(pixel) < 48 then SameColour(out, matte)
       else
         && Weighted(Red(out), Red(pixel), Red(matte), Alpha(pixel))
         && Weighted(Green(out), Green(pixel), Green(matte), Alpha(pixel))
         && Weighted(Blue(out), Blue(pixel), Blue(matte), Alpha(pixel))
  }

  lemma PixelBlends(pixel: Pixel, matte: Pixel)
    ensures Blends(PixelForSoftbuffer(pixel, matte), pixel, matte)
  {
    hide OpaqueSoftbufferPixel, RgbToPixel, BlendChannel, Alpha, Red, Green, Blue, Weighted;
    var a := Alpha(pixel);
    OpaqueKeepsColour(pixel);
    OpaqueKeepsColour(matte);
    var r := BlendChannel(Red(pixel), Red(matte), a);
    var g := BlendChannel(Green(pixel), Green(matte), a);
    var b := BlendChannel(Blue(pixel), Blue(matte), a);
    BlendIsWeighted(Red(pixel), Red(matte), a);
    BlendIsWeighted(Green(pixel), Green(matte), a);
    BlendIsWeighted(Blue(pixel), Blue(matte), a);
    OpaqueKeepsColour(RgbToPixel(r, g, b));
    RgbChannels(r, g, b);
  }

  /** A channel of the output lies between the source's and the matte's. */
  predicate Between(out: u8, c: u8, m: u8) { Min(c, m) <= out <= Max(c, m) }

  /** Every blended pixel is opaque, with each channel between source and matte; an
      opaque source keeps its colour and an invisible one shows the matte. */
  lemma BlendedPixel(pixel: Pixel, matte: Pixel)
    ensures var out := PixelForSoftbuffer(pixel, matte);
            && Alpha(out) == 255
            && Between(Red(out), Red(pixel), Red(matte))
            && Between(Green(out), Green(pixel), Green(matte))
            && Between(Blue(out), Blue(pixel), Blue(matte))
            && (Alpha(pixel) == 255 ==>
                  Red(out) == Red(pixel) && Green(out) == Green(pixel) && Blue(out) == Blue(pixel))
            && (!Visible(pixel) ==>
                  Red(out) == Red(matte) && Green(out) == Green(matte) && Blue(out) == Blue(matte))
  {
    hide OpaqueSoftbufferPixel, RgbToPixel, BlendChannel, Alpha, Red, Green, Blue;
    var a := Alpha(pixel);
    OpaqueKeepsColour(pixel);
    OpaqueKeepsColour(matte);
    var r := BlendChannel(Red(pixel), Red(matte), a);
    var g := BlendChannel(Green(pixel), Green(matte), a);
    var b := BlendChannel(Blue(pixel), Blue(matte), a);
    ChannelBetween(Red(pixel), Red(matte), a);
    ChannelBetween(Green(pixel), Green(matte), a);
    ChannelBetween(Blue(pixel), Blue(matte), a);
    OpaqueKeepsColour(RgbToPixel(r, g, b));
    RgbChannels(r, g, b);
  }

  lemma ChannelBetween(c: u8, m: u8, a: u8)
    ensures Between(BlendChannel(c, m, a), c, m)
  {
    BlendBetween(c, m, a);
  }

  lemma RgbChannels(r: u8, g: u8, b: u8)
    ensures var p := RgbToPixel(r, g, b); Red(p) == r && Green(p) == g && Blue(p) == b
  {
    PackUnpack(r, g, b, 0);
  }

  // ---- scaled copies -----------------------------------------------------------------------

  /** Which of `srcLen` source positions position `k` of `dstLen` shows. */
  function NearestSource(k: nat, srcLen: nat, dstLen: nat): nat
    requires dstLen > 0
  {
    MulNonNegative(k, srcLen);
    k * srcLen / dstLen
  }

  lemma NearestSourceInside(k: nat, srcLen: nat, dstLen: nat)
    requires k < dstLen && srcLen > 0
    ensures NearestSource(k, srcLen, dstLen) < srcLen
  {
    MulNonNegative(k, srcLen);
    DivMod(k * srcLen, dstLen);
    MulStrict(k, dstLen, srcLen);
    var q := k * srcLen / dstLen;
    if q >= srcLen {
      MulMono(srcLen, q, dstLen);
    }
  }

  /** Copying at the same size reads every position itself. */
  lemma NearestSourceSame(k: nat, len: nat)
    requires len > 0
    ensures NearestSource(k, len, len) == k
  {
    DivIs(k * len, len, k);
  }

  lemma SourceInside(src: seq<Pixel>, srcWidth: nat, region: FrameRect, sx: nat, sy: nat)
    requires RectInside(src, srcWidth, region) && sx < region.w && sy < region.h
    ensures Cell(srcWidth, region.x + sx, region.y + sy) < |src|
  {
    CellInside(srcWidth, region.y + region.h, region.x + sx, region.y + sy);
  }

  /** The source pixel drawn at (x, y) of a `w` by `h` picture of the region. */
  function Sampled(src: seq<Pixel>, srcWidth: nat, region: FrameRect, w: nat, h: nat, x: nat, y: nat): Pixel
    requires RectInside(src, srcWidth, region) && x < w && y < h
  {
    NearestSourceInside(x, region.w, w);
    NearestSourceInside(y, region.h, h);
    SourceInside(src, srcWidth, region, NearestSource(x, region.w, w), NearestSource(y, region.h, h));
    src[Cell(srcWidth, region.x + NearestSource(x, region.w, w), region.y + NearestSource(y, region.h, h))]
  }

  /** The sample is the source pixel whose share of the region holds the drawn pixel's
      left upper corner: column `sx` and row `sy` of the region. */
  lemma SampledAt(
    src: seq<Pixel>, srcWidth: nat, region: FrameRect, w: nat, h: nat, x: nat, y: nat, sx: nat, sy: nat)
    requires RectInside(src, srcWidth, region) && x < w && y < h
    requires sx * w <= x * region.w < sx * w + w && sy * h <= y * region.h < sy * h + h
    ensures 0 <= (region.y + sy) * srcWidth + region.x + sx < |src|
    ensures Sampled(src, srcWidth, region, w, h, x, y) == src[(region.y + sy) * srcWidth + region.x + sx]
  {
    hide RectInside;
    QuotientIs(x, region.w, w, sx);
    QuotientIs(y, region.h, h, sy);
    RegionNotEmpty(src, srcWidth, region);
    NearestSourceInside(x, region.w, w);
    NearestSourceInside(y, region.h, h);
    SourceInside(src, srcWidth, region, sx, sy);
    MulNonNegative(region.y + sy, srcWidth);
  }

  lemma QuotientIs(k: nat, srcLen: nat, dstLen: nat, q: nat)
    requires dstLen > 0 && q * dstLen <= k * srcLen < q * dstLen + dstLen
    ensures NearestSource(k, srcLen, dstLen) == q
  {
    MulNonNegative(k, srcLen);
    DivIs(k * srcLen, dstLen, q);
  }

  predicate InRender(r: RenderRect, x: nat, y: nat) { r.x <= x < r.x + r.w && r.y <= y < r.y + r.h }

  /** What the window shows at (x, y): the blended sample inside the fitted
      rectangle, the opaque matte outside it. */
  function Rendered(
    src: seq<Pixel>, srcWidth: nat, region: FrameRect, matte: Pixel, r: RenderRect, x: nat, y: nat): Pixel
    requires RectInside(src, srcWidth, region)
  {
    if InRender(r, x, y)
    then PixelForSoftbuffer(Sampled(src, srcWidth, region, r.w, r.h, x - r.x, y - r.y), matte)
    else OpaqueSoftbufferPixel(matte)
  }

  /** The first `rows` rows of the fitted rectangle have been drawn. */
  predicate Drawn(
    dst: seq<Pixel>, dstW: nat, dstH: nat, src: seq<Pixel>, srcWidth: nat, region: FrameRect, matte: Pixel,
    r: RenderRect, rows: nat)
    requires RectInside(src, srcWidth, region)
  {
    && |dst| == dstW * dstH
    && forall x, y | 0 <= x < dstW && 0 <= y < dstH ::
         ShowsAt(dst, dstW, x, y, Partial(src, srcWidth, region, matte, r, rows, x, y))
  }

  /** What the window shows once `rows` rows of the rectangle are drawn. */
  function Partial(
    src: seq<Pixel>, srcWidth: nat, region: FrameRect, matte: Pixel, r: RenderRect, rows: nat, x: nat, y: nat): Pixel
    requires RectInside(src, srcWidth, region)
  {
    if y < r.y + rows then Rendered(src, srcWidth, region, matte, r, x, y) else OpaqueSoftbufferPixel(matte)
  }

  predicate ShowsAt(dst: seq<Pixel>, dstW: nat, x: nat, y: nat, p: Pixel) {
    Cell(dstW, x, y) < |dst| && dst[Cell(dstW, x, y)] == p
  }

  method Fill(dst: array<Pixel>, p: Pixel)
    modifies dst
    ensures forall i | 0 <= i < dst.Length :: dst[i] == p
  {
    for i := 0 to dst.Length
      invariant forall j | 0 <= j < i :: dst[j] == p
    {
      dst[i] := p;
    }
  }

  /** One row of the scaled copy, written from `start`. */
  predicate RowDrawn(
    after: seq<Pixel>, before: seq<Pixel>, start: nat, src: seq<Pixel>, srcWidth: nat, region: FrameRect,
    matte: Pixel, w: nat, h: nat, y: nat, n: nat)
    requires RectInside(src, srcWidth, region) && y < h && n <= w
  {
    && |after| == |before|
    && forall i | 0 <= i < |after| ::
         after[i] == if start <= i < start + n
                     then PixelForSoftbuffer(Sampled(src, srcWidth, region, w, h, i - start, y), matte)
                     else before[i]
  }

  method DrawRow(
    dst: array<Pixel>, start: nat, src: seq<Pixel>, srcWidth: nat, region: FrameRect, matte: Pixel,
    w: nat, h: nat, y: nat)
    requires RectInside(src, srcWidth, region) && y < h && start + w <= dst.Length
    modifies dst
    ensures RowDrawn(dst[..], old(dst[..]), start, src, srcWidth, region, matte, w, h, y, w)
  {
    hide PixelForSoftbuffer, Cell, NearestSource, RectInside;
    ghost var before := dst[..];
    NearestSourceInside(y, region.h, h) by { RegionNotEmpty(src, srcWidth, region); }
    var srcY := region.y + NearestSource(y, region.h, h);
    var x := 0;
    while x < w
      invariant 0 <= x <= w
      invariant RowDrawn(dst[..], before, start, src, srcWidth, region, matte, w, h, y, x)
    {
      NearestSourceInside(x, region.w, w) by { RegionNotEmpty(src, srcWidth, region); }
      SourceInside(src, srcWidth, region, NearestSource(x, region.w, w), NearestSource(y, region.h, h));
      var srcX := region.x + NearestSource(x, region.w, w);
      dst[start + x] := PixelForSoftbuffer(src[Cell(srcWidth, srcX, srcY)], matte);
      x := x + 1;
    }
  }

  lemma RegionNotEmpty(src: seq<Pixel>, srcWidth: nat, region: FrameRect)
    requires RectInside(src, srcWidth, region)
    ensures region.w > 0 && region.h > 0
  {
  }

  lemma RowKeepsDrawn(
    after: seq<Pixel>, before: seq<Pixel>, dstW: nat, dstH: nat, src: seq<Pixel>, srcWidth: nat,
    region: FrameRect, matte: Pixel, r: RenderRect, row: nat)
    requires RectInside(src, srcWidth, region) && row < r.h && r.x + r.w <= dstW && r.y + r.h <= dstH
    requires Drawn(before, dstW, dstH, src, srcWidth, region, matte, r, row)
    requires RowDrawn(after, before, Cell(dstW, r.x, r.y + row), src, srcWidth, region, matte, r.w, r.h, row, r.w)
    ensures Drawn(after, dstW, dstH, src, srcWidth, region, matte, r, row + 1)
  {
    hide Cell, PixelForSoftbuffer, Sampled, OpaqueSoftbufferPixel, RectInside;
    CellOffset(dstW, r.x, r.y + row);
    var next := row + 1;
    forall x, y | 0 <= x < dstW && 0 <= y < dstH
      ensures ShowsAt(after, dstW, x, y, Partial(src, srcWidth, region, matte, r, next, x, y))
    {
      CellInside(dstW, dstH, x, y);
      CellOffset(dstW, x, y);
      assert ShowsAt(before, dstW, x, y, Partial(src, srcWidth, region, matte, r, row, x, y));
      if y != r.y + row {
        CellElsewhere(dstW, x, y, r.y + row);
      }
    }
  }

  method CopyScaledFrameRegionIntoRect(
    src: seq<Pixel>, srcWidth: nat, region: FrameRect, matte: Pixel, dst: array<Pixel>, dstW: nat,
    ghost dstH: nat, r: RenderRect)
    requires RectInside(src, srcWidth, region) && dst.Length == dstW * dstH
    requires r.x + r.w <= dstW && r.y + r.h <= dstH
    requires forall i | 0 <= i < dst.Length :: dst[i] == OpaqueSoftbufferPixel(matte)
    modifies dst
    ensures Drawn(dst[..], dstW, dstH, src, srcWidth, region, matte, r, r.h)
  {
    hide Drawn, RowDrawn, RectInside;
    BlankDrawn(dst[..], dstW, dstH, src, srcWidth, region, matte, r);
    var y := 0;
    while y < r.h
      invariant 0 <= y <= r.h
      invariant Drawn(dst[..], dstW, dstH, src, srcWidth, region, matte, r, y)
    {
      ghost var before := dst[..];
      RowInside(dstW, dstH, r.y + y);
      var dstRow := (r.y + y) * dstW + r.x;
      DrawRow(dst, dstRow, src, srcWidth, region, matte, r.w, r.h, y);
      RowKeepsDrawn(dst[..], before, dstW, dstH, src, srcWidth, region, matte, r, y);
      y := y + 1;
    }
  }

  lemma BlankDrawn(
    dst: seq<Pixel>, dstW: nat, dstH: nat, src: seq<Pixel>, srcWidth: nat, region: FrameRect, matte: Pixel,
    r: RenderRect)
    requires RectInside(src, srcWidth, region) && |dst| == dstW * dstH
    requires forall i | 0 <= i < |dst| :: dst[i] == OpaqueSoftbufferPixel(matte)
    ensures Drawn(dst, dstW, dstH, src, srcWidth, region, matte, r, 0)
  {
    hide Cell, OpaqueSoftbufferPixel;
    forall x, y | 0 <= x < dstW && 0 <= y < dstH
      ensures ShowsAt(dst, dstW, x, y, Partial(src, srcWidth, region, matte, r, 0, x, y))
    {
      CellInside(dstW, dstH, x, y);
    }
  }

  /** The whole window: matte everywhere, then the frame region scaled into the
      fitted rectangle. */
  method CopyFrameRegionPreserveAspect(
    src: seq<Pixel>, srcWidth: nat, region: FrameRect, matte: Pixel, dst: array<Pixel>, dstW: u32, dstH: u32)
    requires RectInside(src, srcWidth, region) && dstW > 0 && dstH > 0 && dst.Length == dstW * dstH
    modifies dst
    ensures forall x, y | 0 <= x < dstW && 0 <= y < dstH ::
              ShowsAt(dst[..], dstW, x, y,
                Rendered(src, srcWidth, region, matte, AspectFitRect(region.w, region.h, dstW, dstH), x, y))
    ensures WindowShows(dst[..], dstW, dstH, src, srcWidth, region, matte,
              AspectFitRect(region.w, region.h, dstW, dstH))
  {
    hide Rendered, AspectFitRect, RectInside, ShowsAt, WindowShows;
    Fill(dst, OpaqueSoftbufferPixel(matte));
    var render := AspectFitRect(region.w, region.h, dstW, dstH);
    FitInside(region.w, region.h, dstW, dstH);
    CopyScaledFrameRegionIntoRect(src, srcWidth, region, matte, dst, dstW, dstH, render);
    DrawnIsRendered(dst[..], dstW, dstH, src, srcWidth, region, matte, render);
    RenderedIsShown(dst[..], dstW, dstH, src, srcWidth, region, matte, render);
  }

  /** The window's pixels, by colour: the opaque matte outside the rectangle, and inside
      it the blend of the sampled pixel and the matte. */
  predicate WindowShows(
    dst: seq<Pixel>, dstW: nat, dstH: nat, src: seq<Pixel>, srcWidth: nat, region: FrameRect, matte: Pixel,
    r: RenderRect)
    requires RectInside(src, srcWidth, region)
  {
    && |dst| == dstW * dstH
    && forall x, y | 0 <= x < dstW && 0 <= y < dstH ::
         ShowsColour(dst, dstW, dstH, src, srcWidth, region, matte, r, x, y)
  }

  predicate ShowsColour(
    dst: seq<Pixel>, dstW: nat, dstH: nat, src: seq<Pixel>, srcWidth: nat, region: FrameRect, matte: Pixel,
    r: RenderRect, x: nat, y: nat)
    requires RectInside(src, srcWidth, region) && |dst| == dstW * dstH && x < dstW && y < dstH
  {
    CellInside(dstW, dstH, x, y);
    var out := dst[Cell(dstW, x, y)];
    if r.x <= x < r.x + r.w && r.y <= y < r.y + r.h
    then Blends(out, Sampled(src, srcWidth, region, r.w, r.h, x - r.x, y - r.y), matte)
    else Alpha(out) == 255 && SameColour(out, matte)
  }

  lemma RenderedIsShown(
    dst: seq<Pixel>, dstW: nat, dstH: nat, src: seq<Pixel>, srcWidth: nat, region: FrameRect, matte: Pixel,
    r: RenderRect)
    requires RectInside(src, srcWidth, region) && |dst| == dstW * dstH
    requires forall x, y | 0 <= x < dstW && 0 <= y < dstH ::
               ShowsAt(dst, dstW, x, y, Rendered(src, srcWidth, region, matte, r, x, y))
    ensures WindowShows(dst, dstW, dstH, src, srcWidth, region, matte, r)
  {
    hide Cell, RectInside, OpaqueSoftbufferPixel, PixelForSoftbuffer, Sampled, Blends, Alpha, Red, Green, Blue;
    OpaqueKeepsColour(matte);
    forall x, y | 0 <= x < dstW && 0 <= y < dstH
      ensures ShowsColour(dst, dstW, dstH, src, srcWidth, region, matte, r, x, y)
    {
      assert ShowsAt(dst, dstW, x, y, Rendered(src, srcWidth, region, matte, r, x, y));
      if InRender(r, x, y) {
        PixelBlends(Sampled(src, srcWidth, region, r.w, r.h, x - r.x, y - r.y), matte);
      }
    }
  }

  lemma DrawnIsRendered(
    dst: seq<Pixel>, dstW: nat, dstH: nat, src: seq<Pixel>, srcWidth: nat, region: FrameRect, matte: Pixel,
    r: RenderRect)
    requires RectInside(src, srcWidth, region) && Drawn(dst, dstW, dstH, src, srcWidth, region, matte, r, r.h)
    ensures |dst| == dstW * dstH
    ensures forall x, y | 0 <= x < dstW && 0 <= y < dstH ::
              ShowsAt(dst, dstW, x, y, Rendered(src, srcWidth, region, matte, r, x, y))
  {
    hide ShowsAt, RectInside, OpaqueSoftbufferPixel, PixelForSoftbuffer, Sampled;
    forall x, y | 0 <= x < dstW && 0 <= y < dstH
      ensures ShowsAt(dst, dstW, x, y, Rendered(src, srcWidth, region, matte, r, x, y))
    {
      assert ShowsAt(dst, dstW, x, y, Partial(src, srcWidth, region, matte, r, r.h, x, y));
    }
  }

  /** Whatever is rendered is opaque. */
  lemma RenderedOpaque(
    src: seq<Pixel>, srcWidth: nat, region: FrameRect, matte: Pixel, r: RenderRect, x: nat, y: nat)
    requires RectInside(src, srcWidth, region)
    ensures Alpha(Rendered(src, srcWidth, region, matte, r, x, y)) == 255
  {
    hide PixelForSoftbuffer, OpaqueSoftbufferPixel, Alpha, Sampled, RectInside;
    OpaqueKeepsColour(matte);
    if InRender(r, x, y) {
      BlendedPixel(Sampled(src, srcWidth, region, r.w, r.h, x - r.x, y - r.y), matte);
    }
  }

  /** A copy at the same size, as the fast loop makes it, is the scaled copy. */
  lemma FastCopyIsScaledCopy(src: seq<Pixel>, srcWidth: nat, region: FrameRect, x: nat, y: nat)
    requires RectInside(src, srcWidth, region) && x < region.w && y < region.h
    ensures Cell(srcWidth, region.x + x, region.y + y) < |src|
    ensures Sampled(src, srcWidth, region, region.w, region.h, x, y)
            == src[Cell(srcWidth, region.x + x, region.y + y)]
  {
    hide Cell;
    NearestSourceSame(x, region.w);
    NearestSourceSame(y, region.h);
    SourceInside(src, srcWidth, region, x, y);
  }
}
