/** Mapping the mouse back into the frame, and host sizes back to guest sizes.
    Floating-point numbers are taken as exact reals. */
module ViewGeometry {
  import opened Arith
  import opened MachineInts
  import opened Pixels
  import opened ContentRect
  import opened Letterbox

  // ---- reals as the source uses them ------------------------------------------------

  function ClampReal(v: real, lo: real, hi: real): (c: real)
    requires lo <= hi
    ensures lo <= c <= hi
    ensures lo <= v <= hi ==> c == v
  {
    if v < lo then lo else if v > hi then hi else v
  }

  /** `as i32` of a value in range: the fraction is cut off. */
  function Truncate(v: real): int { if v >= 0.0 then v.Floor else -((-v).Floor) }

  function ClampToI32(v: real, lo: int, hi: int): int
    requires lo <= hi
  {
    Truncate(ClampReal(v, lo as real, hi as real))
  }

  /** `round()`: to nearest, ties away from zero. */
  function Round(v: real): int { if v >= 0.0 then (v + 0.5).Floor else -((-v + 0.5).Floor) }

  /** `as u32` saturates. */
  function SaturateU32(n: int): u32 { Max(0, Min(n, TWO_32 - 1)) }

  // ---- cursor_to_frame_coords -----------------------------------------------------------

  /** The host position relative to the letterbox, held inside it. */
  function Local(host: real, mapStart: nat, mapLen: nat): real
    requires mapLen > 0
  {
    ClampReal(host - mapStart as real, 0.0, (mapLen - 1) as real)
  }

  /** The frame position of a letterbox position, before the final clamp. */
  function Scaled(local: real, contentStart: nat, contentLen: nat, mapLen: nat): real
    requires mapLen > 0
  {
    contentStart as real + local * contentLen as real / mapLen as real
  }

  /** One axis of the mapping: host position to frame position. A rectangle from
      `AspectFitRect` is never empty, so the source's guards against a zero mapping
      length change nothing. */
  function CursorAxis(host: real, mapStart: nat, mapLen: nat, contentStart: nat, contentLen: nat, frameLen: nat): int
    requires mapLen > 0 && frameLen <= TWO_31
  {
    ClampToI32(Scaled(Local(host, mapStart, mapLen), contentStart, Max(contentLen, 1), mapLen),
               0, Max(frameLen - 1, 0))
  }

  function CursorToFrameCoords(
    hostX: real, hostY: real, inner: (u32, u32), content: FrameRect, frameSize: (u32, u32)): (int, int)
    requires frameSize.0 <= TWO_31 && frameSize.1 <= TWO_31
  {
    FitInside(content.w, content.h, inner.0, inner.1);
    var m := AspectFitRect(content.w, content.h, inner.0, inner.1);
    (CursorAxis(hostX, m.x, m.w, content.x, content.w, frameSize.0),
     CursorAxis(hostY, m.y, m.h, content.y, content.h, frameSize.1))
  }

  lemma FloorIs(v: real, n: int)
    requires n as real <= v < (n + 1) as real
    ensures v.Floor == n
  {
  }

  /** A real quotient of naturals floors to the integer quotient. */
  lemma FloorQuotient(n: nat, d: nat)
    requires d > 0
    ensures (n as real / d as real).Floor == n / d
    ensures (n / d) as real <= n as real / d as real < (n / d + 1) as real
  {
    DivMod(n, d);
    var q := n / d;
    assert (q * d) as real == q as real * d as real;
    QuotientBounds(n as real, d as real, q as real);
    FloorIs(n as real / d as real, q);
  }

  lemma RealMulMono(a: real, b: real, d: real)
    requires a <= b && d > 0.0
    ensures a * d <= b * d
  {
  }

  lemma RealMulStrict(a: real, b: real, d: real)
    requires a < b && d > 0.0
    ensures a * d < b * d
  {
  }

  lemma QuotientBounds(n: real, d: real, q: real)
    requires d > 0.0 && q * d <= n < q * d + d
    ensures q <= n / d < q + 1.0
  {
    var x := n / d;
    assert x * d == n;
    assert (q + 1.0) * d == q * d + d;
    if x < q {
      RealMulStrict(x, q, d);
    } else if x >= q + 1.0 {
      RealMulMono(q + 1.0, x, d);
    }
  }

  lemma ScaledMonotone(a: real, b: real, contentStart: nat, contentLen: nat, mapLen: nat)
    requires mapLen > 0 && a <= b
    ensures Scaled(a, contentStart, contentLen, mapLen) <= Scaled(b, contentStart, contentLen, mapLen)
  {
    var c, m := contentLen as real, mapLen as real;
    assert (b - a) * c >= 0.0;
    assert b * c == a * c + (b - a) * c;
    DivMonotone(a * c, b * c, m);
  }

  lemma DivMonotone(a: real, b: real, m: real)
    requires m > 0.0 && a <= b
    ensures a / m <= b / m
  {
    var x, y := a / m, b / m;
    assert x * m == a && y * m == b;
    if x > y {
      RealMulStrict(y, x, m);
    }
  }

  /** At whole positions the scaled position floors to the drawn one. */
  lemma ScaledAtWhole(k: nat, contentStart: nat, contentLen: nat, mapLen: nat)
    requires mapLen > 0
    ensures contentStart + NearestSource(k, contentLen, mapLen)
            <= Scaled(k as real, contentStart, contentLen, mapLen).Floor
            <= contentStart + NearestSource(k, contentLen, mapLen)
    ensures Scaled(k as real, contentStart, contentLen, mapLen) >= 0.0
  {
    MulNonNegative(k, contentLen);
    assert k as real * contentLen as real == (k * contentLen) as real;
    FloorQuotient(k * contentLen, mapLen);
    var q, x := k * contentLen / mapLen, (k * contentLen) as real / mapLen as real;
    assert q as real <= x < (q + 1) as real;
    assert Scaled(k as real, contentStart, contentLen, mapLen) == contentStart as real + x;
    FloorIs(contentStart as real + x, contentStart + q);
  }

  predicate AxisInside(mapLen: nat, contentStart: nat, contentLen: nat, frameLen: nat) {
    mapLen > 0 && contentLen > 0 && contentStart + contentLen <= frameLen <= TWO_31
  }

  lemma ScaledStart(contentStart: nat, contentLen: nat, mapLen: nat)
    requires mapLen > 0
    ensures Scaled(0.0, contentStart, contentLen, mapLen) == contentStart as real
  {
    assert 0.0 * contentLen as real == 0.0;
  }

  lemma ScaledRange(host: real, mapStart: nat, mapLen: nat, contentStart: nat, contentLen: nat)
    requires mapLen > 0 && contentLen > 0
    ensures contentStart as real <= Scaled(Local(host, mapStart, mapLen), contentStart, contentLen, mapLen)
    ensures Scaled(Local(host, mapStart, mapLen), contentStart, contentLen, mapLen)
            <= Scaled((mapLen - 1) as real, contentStart, contentLen, mapLen)
  {
    hide Scaled;
    var local := Local(host, mapStart, mapLen);
    ScaledMonotone(0.0, local, contentStart, contentLen, mapLen);
    ScaledMonotone(local, (mapLen - 1) as real, contentStart, contentLen, mapLen);
    ScaledStart(contentStart, contentLen, mapLen);
  }

  lemma ScaledEnd(contentStart: nat, contentLen: nat, mapLen: nat)
    requires mapLen > 0 && contentLen > 0
    ensures Scaled((mapLen - 1) as real, contentStart, contentLen, mapLen).Floor
            == contentStart + NearestSource(mapLen - 1, contentLen, mapLen) < contentStart + contentLen
  {
    hide Scaled, NearestSource;
    ScaledAtWhole(mapLen - 1, contentStart, contentLen, mapLen);
    NearestSourceInside(mapLen - 1, contentLen, mapLen);
  }

  lemma AxisClamps(host: real, mapStart: nat, mapLen: nat, contentStart: nat, contentLen: nat, frameLen: nat)
    requires AxisInside(mapLen, contentStart, contentLen, frameLen)
    ensures CursorAxis(host, mapStart, mapLen, contentStart, contentLen, frameLen)
            == ClampToI32(Scaled(Local(host, mapStart, mapLen), contentStart, contentLen, mapLen), 0, frameLen - 1)
  {
    hide ClampToI32, ClampReal, Scaled;
    assert Max(contentLen, 1) == contentLen && Max(frameLen - 1, 0) == frameLen - 1;
  }

  lemma ClampFloors(v: real, lo: nat, hi: nat, last: nat)
    requires lo as real <= v && v.Floor <= hi <= last
    ensures ClampToI32(v, 0, last) == v.Floor || (v > last as real && ClampToI32(v, 0, last) == last == v.Floor)
  {
  }

  /** Where one axis lands, for whole and fractional host positions alike: the
      floored scaled position, inside the content; the final clamp never acts. */
  lemma AxisIsScaled(host: real, mapStart: nat, mapLen: nat, contentStart: nat, contentLen: nat, frameLen: nat)
    requires AxisInside(mapLen, contentStart, contentLen, frameLen)
    ensures var p := CursorAxis(host, mapStart, mapLen, contentStart, contentLen, frameLen);
            && p == Scaled(Local(host, mapStart, mapLen), contentStart, contentLen, mapLen).Floor
            && contentStart <= p <= contentStart + NearestSource(mapLen - 1, contentLen, mapLen)
            && p < contentStart + contentLen
  {
    hide NearestSource, Scaled, CursorAxis, ClampToI32, Local;
    var v := Scaled(Local(host, mapStart, mapLen), contentStart, contentLen, mapLen);
    ScaledRange(host, mapStart, mapLen, contentStart, contentLen);
    ScaledEnd(contentStart, contentLen, mapLen);
    AxisClamps(host, mapStart, mapLen, contentStart, contentLen, frameLen);
    ClampFloors(v, contentStart, contentStart + NearestSource(mapLen - 1, contentLen, mapLen), frameLen - 1);
  }

  /** Where one axis lands, in products: for every host position from the letterbox's first
      to its last column, fractional ones included, the frame column whose share of the
      letterbox holds it. */
  lemma AxisExactly(host: real, mapStart: nat, mapLen: nat, contentStart: nat, contentLen: nat, frameLen: nat)
    requires AxisInside(mapLen, contentStart, contentLen, frameLen)
    requires mapStart as real <= host <= (mapStart + mapLen - 1) as real
    ensures var p := CursorAxis(host, mapStart, mapLen, contentStart, contentLen, frameLen);
            && (p - contentStart) as real * mapLen as real <= (host - mapStart as real) * contentLen as real
            && (host - mapStart as real) * contentLen as real < (p - contentStart + 1) as real * mapLen as real
  {
    AxisIsScaled(host, mapStart, mapLen, contentStart, contentLen, frameLen);
    ScaledInside(host, mapStart, mapLen, contentStart, contentLen);
    var p := CursorAxis(host, mapStart, mapLen, contentStart, contentLen, frameLen);
    hide CursorAxis, Scaled, Local;
    FloorShare((host - mapStart as real) * contentLen as real, mapLen as real, contentStart, p);
  }

  lemma ScaledInside(host: real, mapStart: nat, mapLen: nat, contentStart: nat, contentLen: nat)
    requires mapLen > 0 && mapStart as real <= host <= (mapStart + mapLen - 1) as real
    ensures Scaled(Local(host, mapStart, mapLen), contentStart, contentLen, mapLen)
         == contentStart as real + (host - mapStart as real) * contentLen as real / mapLen as real
  {
    assert Local(host, mapStart, mapLen) == host - mapStart as real;
  }

  lemma FloorShare(n: real, m: real, start: int, p: int)
    requires m > 0.0 && p == (start as real + n / m).Floor
    ensures (p - start) as real * m <= n < (p - start + 1) as real * m
  {
    var x := n / m;
    assert (p - start) as real <= x < (p - start + 1) as real;
    QuotientCompare(n, m, (p - start) as real);
    QuotientCompare(n, m, (p - start + 1) as real);
  }

  /** Moving right never lands further left, whatever the host position. */
  lemma AxisMonotone(
    a: real, b: real, mapStart: nat, mapLen: nat, contentStart: nat, contentLen: nat, frameLen: nat)
    requires AxisInside(mapLen, contentStart, contentLen, frameLen) && a <= b
    ensures CursorAxis(a, mapStart, mapLen, contentStart, contentLen, frameLen)
            <= CursorAxis(b, mapStart, mapLen, contentStart, contentLen, frameLen)
  {
    hide Scaled, CursorAxis;
    AxisIsScaled(a, mapStart, mapLen, contentStart, contentLen, frameLen);
    AxisIsScaled(b, mapStart, mapLen, contentStart, contentLen, frameLen);
    ScaledMonotone(Local(a, mapStart, mapLen), Local(b, mapStart, mapLen), contentStart, contentLen, mapLen);
  }

  /** At a whole position inside the letterbox the axis lands on the drawn position. */
  lemma AxisAtWhole(k: nat, mapStart: nat, mapLen: nat, contentStart: nat, contentLen: nat, frameLen: nat)
    requires AxisInside(mapLen, contentStart, contentLen, frameLen) && k < mapLen
    ensures CursorAxis((mapStart + k) as real, mapStart, mapLen, contentStart, contentLen, frameLen)
            == contentStart + NearestSource(k, contentLen, mapLen)
  {
    hide Scaled, CursorAxis, NearestSource;
    AxisIsScaled((mapStart + k) as real, mapStart, mapLen, contentStart, contentLen, frameLen);
    ScaledAtWhole(k, contentStart, contentLen, mapLen);
    assert Local((mapStart + k) as real, mapStart, mapLen) == k as real;
  }

  /** One axis of that: host position `x` inside the letterbox. */
  lemma AxisHits(x: nat, mapStart: nat, mapLen: nat, contentStart: nat, contentLen: nat, frameLen: nat)
    requires AxisInside(mapLen, contentStart, contentLen, frameLen) && mapStart <= x < mapStart + mapLen
    ensures var k := NearestSource(x - mapStart, contentLen, mapLen);
            && k < contentLen
            && CursorAxis(x as real, mapStart, mapLen, contentStart, contentLen, frameLen) == contentStart + k
  {
    hide CursorAxis, NearestSource;
    AxisAtWhole(x - mapStart, mapStart, mapLen, contentStart, contentLen, frameLen);
    NearestSourceInside(x - mapStart, contentLen, mapLen);
    assert mapStart + (x - mapStart) == x;
  }

  /** Draw and click agree: clicking a host pixel inside the letterbox reports the
      very source pixel the scaled copy drew there. */
  lemma ClickHitsDrawnPixel(
    src: seq<Pixel>, srcWidth: u32, srcHeight: u32, content: FrameRect, matte: Pixel, inner: (u32, u32), x: nat, y: nat)
    requires RectInside(src, srcWidth, content) && srcWidth <= TWO_31 && content.y + content.h <= srcHeight <= TWO_31
    requires InRender(AspectFitRect(content.w, content.h, inner.0, inner.1), x, y)
    ensures var (fx, fy) := CursorToFrameCoords(x as real, y as real, inner, content, (srcWidth, srcHeight));
            && content.x <= fx < content.x + content.w && content.y <= fy < content.y + content.h
            && Cell(srcWidth, fx, fy) < |src|
            && Rendered(src, srcWidth, content, matte, AspectFitRect(content.w, content.h, inner.0, inner.1), x, y)
               == PixelForSoftbuffer(src[Cell(srcWidth, fx, fy)], matte)
  {
    hide AspectFitRect, CursorAxis, NearestSource, Cell, PixelForSoftbuffer;
    var m := AspectFitRect(content.w, content.h, inner.0, inner.1);
    AxisHits(x, m.x, m.w, content.x, content.w, srcWidth);
    AxisHits(y, m.y, m.h, content.y, content.h, srcHeight);
    SourceInside(src, srcWidth, content, NearestSource(x - m.x, content.w, m.w),
        NearestSource(y - m.y, content.h, m.h));
  }

  /** In the margin before the letterbox the click lands on the first content
      column; past it, on the last column drawn. */
  lemma MarginLandsOnEdge(
    host: real, mapStart: nat, mapLen: nat, contentStart: nat, contentLen: nat, frameLen: nat)
    requires AxisInside(mapLen, contentStart, contentLen, frameLen)
    ensures var p := CursorAxis(host, mapStart, mapLen, contentStart, contentLen, frameLen);
            && (host <= mapStart as real ==> p == contentStart)
            && (host >= (mapStart + mapLen - 1) as real ==>
                  p == contentStart + NearestSource(mapLen - 1, contentLen, mapLen))
  {
    hide Scaled, CursorAxis, NearestSource;
    AxisIsScaled(host, mapStart, mapLen, contentStart, contentLen, frameLen);
    ScaledStart(contentStart, contentLen, mapLen);
    ScaledAtWhole(mapLen - 1, contentStart, contentLen, mapLen);
  }

  /** The last column drawn is the last content column exactly when the letterbox
      is at least as wide as the content; a shrunk picture never shows, and a
      click in the margin never reaches, the content's far edge. */
  lemma LastDrawnIsEdge(contentLen: nat, mapLen: nat)
    requires mapLen > 0 && contentLen > 0
    ensures NearestSource(mapLen - 1, contentLen, mapLen) == contentLen - 1 <==> contentLen <= mapLen
  {
    var n := (mapLen - 1) * contentLen;
    Distribute(mapLen, contentLen);
    Distribute(contentLen, mapLen);
    MulNonNegative(mapLen - 1, contentLen);
    if contentLen <= mapLen {
      DivIs(n, mapLen, contentLen - 1);
    } else {
      DivMod(n, mapLen);
    }
  }

  // ---- resizing back and forth ----------------------------------------------------------------

  function Magnified(len: nat, scale: real): real { len as real * scale }

  /** `scaled_len`: a guest length shown at `scale`. */
  function ScaledLen(len: u32, scale: real): u32
    requires scale > 0.0
  {
    SaturateU32(Max(1, Min(Round(Magnified(Max(len, 1), scale)), TWO_32)))
  }

  /** One axis of `compute_remote_size`. */
  function RemoteLen(inner: u32, viewScale: real, content: u32, frame: u32): u32 {
    var scale := if viewScale < 0.01 then 0.01 else viewScale;
    var hidden := Max(frame - content, 0);
    Min(SaturateU32(Max(Round(Max(inner, 1) as real / scale), 1)) + hidden, TWO_32 - 1)
  }

  function ComputeRemoteSize(
    inner: (u32, u32), viewScale: real, content: (u32, u32), frame: (u32, u32)): (u32, u32)
  {
    (RemoteLen(inner.0, viewScale, content.0, frame.0), RemoteLen(inner.1, viewScale, content.1, frame.1))
  }

  // ---- what the sizes are, for every window ----------------------------------------------------

  lemma RoundBrackets(v: real, r: int)
    requires v >= 0.0
    ensures Round(v) == r <==> r as real - 0.5 <= v < r as real + 0.5
  {
  }

  lemma QuotientCompare(n: real, d: real, q: real)
    requires d > 0.0
    ensures q <= n / d <==> q * d <= n
  {
    var x := n / d;
    assert x * d == n;
    if q <= x {
      RealMulMono(q, x, d);
    } else {
      RealMulStrict(x, q, d);
    }
  }

  /** How long a window must be to have room for `k` guest pixels, rounded to nearest. */
  function RoomFor(k: int, scale: real): real { (k as real - 0.5) * scale }

  /** The length asked of the guest for a window `inner` long, when `hidden` pixels of the
      frame lie outside its content: one pixel when there is room for none, everything when
      there is room for the largest number, and otherwise as many as there is room for. */
  predicate AsksFor(inner: int, scale: real, hidden: int, r: int) {
    if inner as real < RoomFor(1, scale) then r == Min(1 + hidden, 0xFFFF_FFFF)
    else if inner as real >= RoomFor(0xFFFF_FFFF - hidden, scale) then r == 0xFFFF_FFFF
    else RoomFor(r - hidden, scale) <= inner as real < RoomFor(r - hidden + 1, scale)
  }

  /** The rounded quotient reaches `k` exactly when there is room for it. */
  lemma RoundReaches(n: real, scale: real, k: int)
    requires scale > 0.0 && n >= 0.0
    ensures n / scale >= 0.0
    ensures Round(n / scale) >= k <==> n >= RoomFor(k, scale)
  {
    QuotientCompare(n, scale, 0.0);
    RoundBrackets(n / scale, Round(n / scale));
    QuotientCompare(n, scale, k as real - 0.5);
  }

  lemma RemoteLenAsks(inner: u32, scale: real, content: u32, frame: u32)
    requires scale >= 0.01
    ensures AsksFor(Max(inner, 1), scale, if frame > content then frame - content else 0,
                    RemoteLen(inner, scale, content, frame))
  {
    hide RoomFor, Round;
    var (n, hidden) := (Max(inner, 1) as real, if frame > content then frame - content else 0);
    var asked := Round(n / scale);
    RoundReaches(n, scale, 1);
    RoundReaches(n, scale, 0xFFFF_FFFF - hidden);
    RoundReaches(n, scale, asked);
    RoundReaches(n, scale, asked + 1);
    assert asked + hidden - hidden == asked;
  }

  /** Both axes, for every window, scale, content and frame; a scale below a hundredth
      counts as a hundredth. */
  lemma RemoteSizeAsks(inner: (u32, u32), viewScale: real, content: (u32, u32), frame: (u32, u32))
    ensures var scale := if viewScale < 0.01 then 0.01 else viewScale;
            var (w, h) := ComputeRemoteSize(inner, viewScale, content, frame);
            && AsksFor(Max(inner.0, 1), scale, if frame.0 > content.0 then frame.0 - content.0 else 0, w)
            && AsksFor(Max(inner.1, 1), scale, if frame.1 > content.1 then frame.1 - content.1 else 0, h)
  {
    var scale := if viewScale < 0.01 then 0.01 else viewScale;
    TinyScale(inner.0, viewScale, content.0, frame.0);
    TinyScale(inner.1, viewScale, content.1, frame.1);
    hide RemoteLen, AsksFor;
    RemoteLenAsks(inner.0, scale, content.0, frame.0);
    RemoteLenAsks(inner.1, scale, content.1, frame.1);
  }

  lemma TinyScale(inner: u32, viewScale: real, content: u32, frame: u32)
    ensures viewScale < 0.01 ==> RemoteLen(inner, viewScale, content, frame) == RemoteLen(inner, 0.01, content, frame)
  {
  }

  /** The law has one solution, so it is all there is to say. */
  lemma AsksForOne(inner: int, scale: real, hidden: int, r: int, q: int)
    requires scale > 0.0 && AsksFor(inner, scale, hidden, r) && AsksFor(inner, scale, hidden, q)
    ensures r == q
  {
    hide RoomFor;
    if r < q {
      RoomGrows(r - hidden + 1, q - hidden, scale);
    } else if q < r {
      RoomGrows(q - hidden + 1, r - hidden, scale);
    }
  }

  lemma RoomGrows(k: int, l: int, scale: real)
    requires k <= l && scale > 0.0
    ensures RoomFor(k, scale) <= RoomFor(l, scale)
  {
    RealMulMono(k as real - 0.5, l as real - 0.5, scale);
  }

  /** A guest length is shown as the nearest number of host pixels, but never as none and
      never as more than there are numbers. */
  lemma ScaledLenIsNearest(len: u32, scale: real)
    requires scale > 0.0
    ensures var v := (if len == 0 then 1 else len) as real * scale; var s := ScaledLen(len, scale);
            if v < 1.5 then s == 1
            else if v >= 4294967294.5 then s == 0xFFFF_FFFF
            else s as real - 0.5 <= v < s as real + 0.5
  {
    var v := Magnified(Max(len, 1), scale);
    RealMulMono(0.0, Max(len, 1) as real, scale);
    RoundBrackets(v, Round(v));
  }

  /** `scaled_len` neither floored at one pixel nor saturated. */
  predicate Unclamped(len: u32, scale: real) {
    len >= 1 && 1 <= Round(Magnified(len, scale)) < TWO_32
  }

  lemma RoundError(v: real)
    requires v >= 0.0
    ensures v - 0.5 < Round(v) as real <= v + 0.5
  {
  }

  /** Undoing a scaling lands within half a pixel over the scale. */
  lemma UnscaleError(len: u32, scale: real)
    requires scale > 0.0 && Unclamped(len, scale)
    ensures var back := ScaledLen(len, scale) as real / scale;
            len as real - 0.5 / scale <= back <= len as real + 0.5 / scale
    ensures scale > 1.0 ==> 0.5 / scale < 0.5
    ensures scale > 1.0 / 3.0 ==> 0.5 / scale < 1.5
  {
    hide Round;
    UnclampedIsRound(len, scale);
    var v := Magnified(len, scale);
    var s := ScaledLen(len, scale) as real;
    RoundError(v) by {
      RealMulMono(0.0, len as real, scale);
    }
    DivMonotone(v - 0.5, s, scale);
    DivMonotone(s, v + 0.5, scale);
    SplitQuotient(len as real, scale);
    HalfOver(scale);
  }

  lemma UnclampedIsRound(len: u32, scale: real)
    requires scale > 0.0 && Unclamped(len, scale)
    ensures ScaledLen(len, scale) == Round(Magnified(len, scale))
  {
    hide Magnified, Round;
    assert Max(len, 1) == len;
  }

  lemma SplitQuotient(n: real, d: real)
    requires d > 0.0
    ensures (n * d - 0.5) / d == n - 0.5 / d && (n * d + 0.5) / d == n + 0.5 / d
  {
    var h := 0.5 / d;
    assert h * d == 0.5;
    assert (n - h) * d == n * d - 0.5 && (n + h) * d == n * d + 0.5;
    QuotientIs(n * d - 0.5, d, n - h);
    QuotientIs(n * d + 0.5, d, n + h);
  }

  lemma QuotientIs(n: real, d: real, q: real)
    requires d > 0.0 && q * d == n
    ensures n / d == q
  {
    DivMonotone(n, n, d);
    var x := n / d;
    assert x * d == n;
    if x < q {
      RealMulStrict(x, q, d);
    } else if q < x {
      RealMulStrict(q, x, d);
    }
  }

  lemma HalfOver(d: real)
    requires d > 0.0
    ensures d > 1.0 ==> 0.5 / d < 0.5
    ensures d > 1.0 / 3.0 ==> 0.5 / d < 1.5
  {
    var h := 0.5 / d;
    assert h * d == 0.5;
    if h >= 0.5 {
      RealMulMono(0.5, h, d);
    }
    if h >= 1.5 {
      RealMulMono(1.5, h, d);
    }
  }

  /** No drift when magnified: feeding the scaled content size back asks the guest
      for exactly the frame size it already has. */
  lemma NoDriftMagnified(scale: real, content: u32, frame: u32)
    requires scale >= 1.0 && Unclamped(content, scale) && content <= frame
    ensures RemoteLen(ScaledLen(content, scale), scale, content, frame) == frame
  {
    var s := ScaledLen(content, scale);
    UnscaleError(content, scale);
    if scale == 1.0 {
      ScaleOne(content);
    } else {
      assert Round(s as real / scale) == content;
    }
  }

  lemma ScaleOne(len: u32)
    requires len >= 1
    ensures ScaledLen(len, 1.0) == len && len as real / 1.0 == len as real && Round(len as real) == len
  {
    assert Magnified(len, 1.0) == len as real;
  }

  /** When shrunk, down to a third, the drift is at most one pixel. The viewer's
      smallest scale is 0.35. */
  lemma DriftWhenShrunk(scale: real, content: u32, frame: u32)
    requires 1.0 / 3.0 < scale < 1.0 && Unclamped(content, scale) && content <= frame
    ensures frame - 1 <= RemoteLen(ScaledLen(content, scale), scale, content, frame) <= frame + 1
  {
    var s := ScaledLen(content, scale);
    UnscaleError(content, scale);
    var back := s as real / scale;
    assert content as real - 1.5 < back < content as real + 1.5;
    RoundNear(back, content);
  }

  lemma RoundNear(v: real, n: nat)
    requires v >= 0.0 && n as real - 1.5 < v < n as real + 1.5
    ensures n - 1 <= Round(v) <= n + 1
  {
  }

  /** One axis asks for a frame length within one pixel of the present one. */
  predicate AxisSteady(scale: real, content: u32, frame: u32)
    requires scale > 0.0
  {
    frame - 1 <= RemoteLen(ScaledLen(content, scale), scale, content, frame) <= frame + 1
  }

  /** A one-pixel content that the floor holds at one pixel is asked back as the nearest
      whole number to 1 / scale. */
  lemma FlooredPixel(scale: real, frame: u32)
    requires 1.0 / 3.0 < scale < 0.5 && 1 <= frame < TWO_32 - 4
    ensures !Unclamped(1, scale) && ScaledLen(1, scale) == 1
    ensures RemoteLen(1, scale, 1, frame) == frame - 1 + (if scale <= 0.4 then 3 else 2)
  {
    assert Magnified(1, scale) == scale && Round(scale) == 0;
    assert ScaledLen(1, scale) == 1;
    InverseRounds(scale);
  }

  lemma InverseRounds(scale: real)
    requires 1.0 / 3.0 < scale < 0.5
    ensures Round(1.0 / scale) == if scale <= 0.4 then 3 else 2
  {
    var q := 1.0 / scale;
    assert q * scale == 1.0;
    if q <= 2.0 {
      RealMulMono(q, 2.0, scale);
    }
    if q >= 3.0 {
      RealMulMono(3.0, q, scale);
    }
    if scale <= 0.4 && q < 2.5 {
      RealMulStrict(q, 2.5, scale);
    }
    if scale > 0.4 && q >= 2.5 {
      RealMulMono(2.5, q, scale);
    }
  }

  lemma ProductBelow(c: real, s: real, product: real)
    requires 0.0 <= s <= 1.0 && c >= 0.0 && product == c * s
    ensures 0.0 <= product <= c
  {
  }

  lemma ProductAbove(c: real, s: real, low: real)
    requires c >= low >= 0.0 && s >= 0.0
    ensures c * s >= low * s
  {
  }

  lemma MagnifiedBelow(scale: real, content: u32)
    requires 0.0 <= scale <= 1.0
    ensures 0.0 <= Magnified(content, scale) <= content as real
  {
    hide Magnified;
    var c := content as real;
    var product := c * scale;
    MagnifiedIs(content, scale, product);
    ProductBelow(c, scale, product);
  }

  lemma MagnifiedIs(content: u32, scale: real, product: real)
    requires product == content as real * scale
    ensures Magnified(content, scale) == product
  {
  }

  lemma MagnifiedAbove(scale: real, content: u32)
    requires scale > 1.0 / 3.0
    ensures content == 1 ==> Magnified(content, scale) == scale
    ensures content >= 2 ==> Magnified(content, scale) > 0.5
  {
    if content >= 2 {
      ProductAbove(content as real, scale, 2.0);
    }
  }

  /** The floor acts on nothing longer than one pixel. */
  lemma FloorOnlyOnOne(scale: real, content: u32)
    requires 1.0 / 3.0 < scale < 1.0 && 1 <= content
    ensures !Unclamped(content, scale) ==> content == 1 && scale < 0.5
  {
    var v := Magnified(content, scale);
    MagnifiedBelow(scale, content);
    MagnifiedAbove(scale, content);
    hide Magnified, Round;
    RoundBrackets(v, Round(v));
  }

  lemma AxisSteadyIff(scale: real, content: u32, frame: u32)
    requires 1.0 / 3.0 < scale < 1.0 && 1 <= content <= frame < TWO_32 - 4
    ensures AxisSteady(scale, content, frame) <==> !(content == 1 && scale <= 0.4)
  {
    hide Unclamped, RemoteLen, ScaledLen;
    FloorOnlyOnOne(scale, content);
    if content == 1 && scale < 0.5 {
      FlooredPixel(scale, frame);
    } else {
      DriftWhenShrunk(scale, content, frame);
    }
  }

  /** Exactly when resizing back and forth is stable while shrunk (the viewer's smallest
      scale is 0.35): both sides of the size asked back are within one pixel of the
      present frame unless a side of the content is a single pixel and the scale is at
      most 0.4. */
  lemma SizeSteadyIff(scale: real, content: (u32, u32), frame: (u32, u32))
    requires 1.0 / 3.0 < scale < 1.0
    requires 1 <= content.0 <= frame.0 < TWO_32 - 4 && 1 <= content.1 <= frame.1 < TWO_32 - 4
    ensures var shown := (ScaledLen(content.0, scale), ScaledLen(content.1, scale));
            var (w, h) := ComputeRemoteSize(shown, scale, content, frame);
            (frame.0 - 1 <= w <= frame.0 + 1 && frame.1 - 1 <= h <= frame.1 + 1)
            <==> !((content.0 == 1 || content.1 == 1) && scale <= 0.4)
  {
    hide RemoteLen, ScaledLen;
    AxisSteadyIff(scale, content.0, frame.0);
    AxisSteadyIff(scale, content.1, frame.1);
  }

  /** And magnified, both sides come back exactly. */
  lemma SizeKeptMagnified(scale: real, content: (u32, u32), frame: (u32, u32))
    requires scale >= 1.0 && content.0 <= frame.0 && content.1 <= frame.1
    requires Unclamped(content.0, scale) && Unclamped(content.1, scale)
    ensures ComputeRemoteSize((ScaledLen(content.0, scale), ScaledLen(content.1, scale)), scale, content, frame)
        == frame
  {
    hide RemoteLen, ScaledLen, Unclamped;
    NoDriftMagnified(scale, content.0, frame.0);
    NoDriftMagnified(scale, content.1, frame.1);
  }
}
