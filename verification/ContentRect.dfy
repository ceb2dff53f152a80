/** The viewer's content rectangle: the tight box around the visible pixels,
    then stripped of uniform padding side by side. */
module ContentRect {
  import opened Arith
  import opened MachineInts
  import opened Pixels

  const UNIFORM_PADDING_MIN_RUN: nat := 16
  const PADDING_COLOR_TOLERANCE: nat := 12
  const PADDING_OUTLIER_RATIO: nat := 20

  datatype FrameRect = FrameRect(x: u32, y: u32, w: u32, h: u32)

  /** `FrameRect::new`: neither side is ever zero. */
  function NewRect(x: u32, y: u32, w: u32, h: u32): FrameRect {
    FrameRect(x, y, Max(w, 1), Max(h, 1))
  }

  /** The rectangle is not empty and lies in a frame of rows `stride` wide. */
  predicate RectInside(pixels: seq<Pixel>, stride: nat, r: FrameRect) {
    && r.w >= 1 && r.h >= 1
    && r.x + r.w <= stride
    && (r.y + r.h) * stride <= |pixels|
    && r.y + r.h < TWO_32 && r.x + r.w < TWO_32
  }

  // ---- uniform lines --------------------------------------------------------------

  datatype Line = Row(y: nat) | Col(x: nat)

  function AbsDiff(a: nat, b: nat): nat { if a < b then b - a else a - b }

  function PixelDistance(a: Pixel, b: Pixel): nat {
    AbsDiff(Red(a), Red(b)) + AbsDiff(Green(a), Green(b)) + AbsDiff(Blue(a), Blue(b))
  }

  function CellOn(stride: nat, line: Line, k: nat): nat {
    match line
    case Row(y) => Cell(stride, k, y)
    case Col(x) => Cell(stride, x, k)
  }

  predicate LineInside(pixels: seq<Pixel>, stride: nat, line: Line, start: nat, end: nat) {
    forall k | start <= k < end :: CellOn(stride, line, k) < |pixels|
  }

  /** How many pixels of the line, from `start + 1` to `end`, are farther than the
      tolerance from the pixel at `start`. */
  function Outliers(pixels: seq<Pixel>, stride: nat, line: Line, start: nat, end: nat): nat
    requires start < end && LineInside(pixels, stride, line, start, end)
    decreases end
  {
    if end == start + 1 then 0
    else
      Outliers(pixels, stride, line, start, end - 1)
      + if PixelDistance(pixels[CellOn(stride, line, end - 1)], pixels[CellOn(stride, line, start)])
           > PADDING_COLOR_TOLERANCE
        then 1 else 0
  }

  function Allowed(len: nat): nat { Max(len / PADDING_OUTLIER_RATIO, 1) }

  predicate UniformLine(pixels: seq<Pixel>, stride: nat, line: Line, start: nat, end: nat)
    requires LineInside(pixels, stride, line, start, end)
  {
    start >= end || Outliers(pixels, stride, line, start, end) <= Allowed(end - start)
  }

  predicate Strays(pixels: seq<Pixel>, stride: nat, line: Line, start: nat, k: nat)
    requires start < k && LineInside(pixels, stride, line, start, k + 1)
  {
    PixelDistance(pixels[CellOn(stride, line, k)], pixels[CellOn(stride, line, start)]) > PADDING_COLOR_TOLERANCE
  }

  lemma OutliersNext(pixels: seq<Pixel>, stride: nat, line: Line, start: nat, k: nat)
    requires start < k && LineInside(pixels, stride, line, start, k + 1)
    ensures Outliers(pixels, stride, line, start, k + 1)
         == Outliers(pixels, stride, line, start, k) + if Strays(pixels, stride, line, start, k) then 1 else 0
  {
    hide CellOn, PixelDistance;
  }

  lemma NoOutliersYet(pixels: seq<Pixel>, stride: nat, line: Line, start: nat)
    requires LineInside(pixels, stride, line, start, start + 1)
    ensures Outliers(pixels, stride, line, start, start + 1) == 0
  {
  }

  lemma {:induction false} OutliersGrow(
    pixels: seq<Pixel>, stride: nat, line: Line, start: nat, mid: nat, end: nat)
    requires start < mid <= end && LineInside(pixels, stride, line, start, end)
    ensures Outliers(pixels, stride, line, start, mid) <= Outliers(pixels, stride, line, start, end)
    decreases end
  {
    hide CellOn, PixelDistance;
    if mid < end {
      OutliersGrow(pixels, stride, line, start, mid, end - 1);
    }
  }

  // ---- the same, counted ------------------------------------------------------------

  /** The colours differ by more than 12, summed over red, green and blue. */
  predicate Far(p: Pixel, q: Pixel) {
    var r := p / 0x1_0000 % 0x100 - q / 0x1_0000 % 0x100;
    var g := p / 0x100 % 0x100 - q / 0x100 % 0x100;
    var b := p % 0x100 - q % 0x100;
    (if r < 0 then -r else r) + (if g < 0 then -g else g) + (if b < 0 then -b else b) > 12
  }

  function PixelOr0(pixels: seq<Pixel>, i: int): Pixel { if 0 <= i < |pixels| then pixels[i] else 0 }

  /** The k-th pixel of row y, or of column x. */
  function OnLine(pixels: seq<Pixel>, stride: nat, line: Line, k: nat): Pixel {
    match line
    case Row(y) => PixelOr0(pixels, y * stride + k)
    case Col(x) => PixelOr0(pixels, k * stride + x)
  }

  /** How many pixels of the line are far from its first. */
  function StrayCount(pixels: seq<Pixel>, stride: nat, line: Line, start: nat, end: nat): nat {
    |set k | start < k < end && Far(OnLine(pixels, stride, line, k), OnLine(pixels, stride, line, start))|
  }

  lemma StrayIsFar(pixels: seq<Pixel>, stride: nat, line: Line, start: nat, k: nat)
    requires start < k && LineInside(pixels, stride, line, start, k + 1)
    ensures Strays(pixels, stride, line, start, k)
        <==> Far(OnLine(pixels, stride, line, k), OnLine(pixels, stride, line, start))
  {
    hide PixelDistance, Far;
    OnLineIs(pixels, stride, line, k);
    OnLineIs(pixels, stride, line, start);
    FarByDistance(OnLine(pixels, stride, line, k), OnLine(pixels, stride, line, start));
  }

  lemma OnLineIs(pixels: seq<Pixel>, stride: nat, line: Line, k: nat)
    requires CellOn(stride, line, k) < |pixels|
    ensures OnLine(pixels, stride, line, k) == pixels[CellOn(stride, line, k)]
  {
  }

  lemma FarByDistance(p: Pixel, q: Pixel)
    ensures Far(p, q) <==> PixelDistance(p, q) > 12
  {
  }

  lemma {:induction false} OutliersAreCounted(pixels: seq<Pixel>, stride: nat, line: Line, start: nat, end: nat)
    requires start < end && LineInside(pixels, stride, line, start, end)
    ensures Outliers(pixels, stride, line, start, end) == StrayCount(pixels, stride, line, start, end)
    decreases end
  {
    hide CellOn, PixelDistance, Far, OnLine, Strays;
    if end == start + 1 {
      NoOutliersYet(pixels, stride, line, start);
    } else {
      hide Outliers;
      var last := end - 1;
      OutliersAreCounted(pixels, stride, line, start, last);
      OutliersNext(pixels, stride, line, start, last);
      StrayIsFar(pixels, stride, line, start, last);
      StrayCountNext(pixels, stride, line, start, last);
    }
  }

  lemma StrayCountNext(pixels: seq<Pixel>, stride: nat, line: Line, start: nat, k: nat)
    requires start < k
    ensures StrayCount(pixels, stride, line, start, k + 1)
         == StrayCount(pixels, stride, line, start, k)
            + if Far(OnLine(pixels, stride, line, k), OnLine(pixels, stride, line, start)) then 1 else 0
  {
    hide Far, OnLine;
    var first := OnLine(pixels, stride, line, start);
    var before := set j | start < j < k && Far(OnLine(pixels, stride, line, j), first);
    var after := set j | start < j < k + 1 && Far(OnLine(pixels, stride, line, j), first);
    assert after == if Far(OnLine(pixels, stride, line, k), first) then before + {k} else before;
  }

  /** A line is uniform when at most one pixel in twenty, but always one, is far from the
      first. */
  lemma UniformLineMeans(pixels: seq<Pixel>, stride: nat, line: Line, start: nat, end: nat)
    requires LineInside(pixels, stride, line, start, end)
    ensures UniformLine(pixels, stride, line, start, end)
        <==> start >= end || StrayCount(pixels, stride, line, start, end) <= Max((end - start) / 20, 1)
  {
    hide Outliers, StrayCount;
    if start < end {
      OutliersAreCounted(pixels, stride, line, start, end);
    }
  }

  /** `n` of the pixels before the k-th are farther than the tolerance from the first. */
  predicate Counted(pixels: seq<Pixel>, stride: nat, line: Line, start: nat, k: nat, n: nat) {
    start < k && LineInside(pixels, stride, line, start, k) && n == Outliers(pixels, stride, line, start, k)
  }

  lemma FirstPixel(pixels: seq<Pixel>, stride: nat, line: Line, start: nat, end: nat)
    requires start < end && LineInside(pixels, stride, line, start, end)
    ensures CellOn(stride, line, start) < |pixels| && Counted(pixels, stride, line, start, start + 1, 0)
  {
    hide CellOn, PixelDistance;
  }

  /** One pixel more; a count above the allowance decides, for it only grows. */
  lemma NextPixel(pixels: seq<Pixel>, stride: nat, line: Line, start: nat, end: nat, k: nat, n: nat)
    requires start < k < end && LineInside(pixels, stride, line, start, end)
    requires Counted(pixels, stride, line, start, k, n)
    ensures CellOn(stride, line, k) < |pixels| && CellOn(stride, line, start) < |pixels|
    ensures var far := PixelDistance(pixels[CellOn(stride, line, k)], pixels[CellOn(stride, line, start)])
                       > PADDING_COLOR_TOLERANCE;
            && Counted(pixels, stride, line, start, k + 1, if far then n + 1 else n)
            && (far && n + 1 > Allowed(end - start) ==> !UniformLine(pixels, stride, line, start, end))
  {
    hide CellOn, PixelDistance, Outliers, Allowed;
    OutliersNext(pixels, stride, line, start, k);
    OutliersGrow(pixels, stride, line, start, k + 1, end);
  }

  lemma LastPixel(pixels: seq<Pixel>, stride: nat, line: Line, start: nat, end: nat, n: nat)
    requires Counted(pixels, stride, line, start, end, n) && n <= Allowed(end - start)
    ensures UniformLine(pixels, stride, line, start, end)
  {
    hide CellOn, PixelDistance, Outliers, Allowed;
  }

  method IsUniformRow(pixels: seq<Pixel>, stride: nat, y: nat, xStart: nat, xEnd: nat) returns (uniform: bool)
    requires LineInside(pixels, stride, Row(y), xStart, xEnd)
    ensures uniform == UniformLine(pixels, stride, Row(y), xStart, xEnd)
  {
    if xStart >= xEnd {
      return true;
    }
    hide *;
    var line := Row(y);
    FirstPixel(pixels, stride, line, xStart, xEnd);
    var first := pixels[CellOn(stride, line, xStart)];
    var allow := Allowed(xEnd - xStart);
    var outliers := 0;
    var x := xStart + 1;
    while x < xEnd
      invariant xStart < x <= xEnd && outliers <= allow
      invariant Counted(pixels, stride, line, xStart, x, outliers)
    {
      NextPixel(pixels, stride, line, xStart, xEnd, x, outliers);
      var p := pixels[CellOn(stride, line, x)];
      if PixelDistance(p, first) > PADDING_COLOR_TOLERANCE {
        outliers := outliers + 1;
        if outliers > allow {
          return false;
        }
      }
      x := x + 1;
    }
    LastPixel(pixels, stride, line, xStart, xEnd, outliers);
    return true;
  }

  method IsUniformCol(pixels: seq<Pixel>, stride: nat, x: nat, yStart: nat, yEnd: nat) returns (uniform: bool)
    requires LineInside(pixels, stride, Col(x), yStart, yEnd)
    ensures uniform == UniformLine(pixels, stride, Col(x), yStart, yEnd)
  {
    if yStart >= yEnd {
      return true;
    }
    hide *;
    var line := Col(x);
    FirstPixel(pixels, stride, line, yStart, yEnd);
    var first := pixels[CellOn(stride, line, yStart)];
    var allow := Allowed(yEnd - yStart);
    var outliers := 0;
    var y := yStart + 1;
    while y < yEnd
      invariant yStart < y <= yEnd && outliers <= allow
      invariant Counted(pixels, stride, line, yStart, y, outliers)
    {
      NextPixel(pixels, stride, line, yStart, yEnd, y, outliers);
      var p := pixels[CellOn(stride, line, y)];
      if PixelDistance(p, first) > PADDING_COLOR_TOLERANCE {
        outliers := outliers + 1;
        if outliers > allow {
          return false;
        }
      }
      y := y + 1;
    }
    LastPixel(pixels, stride, line, yStart, yEnd, outliers);
    return true;
  }

  // ---- trimming ----------------------------------------------------------------------

  /** A half-open box, as the trimming loops keep it. */
  datatype Box = Box(left: nat, top: nat, right: nat, bottom: nat)

  datatype Side = Bottom | Top | Right | Left

  predicate BoxInside(pixels: seq<Pixel>, stride: nat, b: Box) {
    b.left < b.right <= stride && b.top < b.bottom && b.bottom * stride <= |pixels|
  }

  /** How many lines lie across the box when it is peeled from `side`. */
  function Lines(b: Box, side: Side): nat
    requires b.left < b.right && b.top < b.bottom
  {
    if side in {Bottom, Top} then b.bottom - b.top else b.right - b.left
  }

  /** The i-th line from `side`, and the part of it inside the box. */
  function LineFrom(b: Box, side: Side, i: nat): Line
    requires b.left < b.right && b.top < b.bottom && i < Lines(b, side)
  {
    match side
    case Bottom => Row(b.bottom - 1 - i)
    case Top => Row(b.top + i)
    case Right => Col(b.right - 1 - i)
    case Left => Col(b.left + i)
  }

  function SpanStart(b: Box, side: Side): nat { if side in {Bottom, Top} then b.left else b.top }

  function SpanEnd(b: Box, side: Side): nat { if side in {Bottom, Top} then b.right else b.bottom }

  lemma CellBelow(pixels: seq<Pixel>, stride: nat, b: Box, x: nat, y: nat)
    requires BoxInside(pixels, stride, b) && x < b.right && y < b.bottom
    ensures Cell(stride, x, y) < |pixels|
  {
    CellInside(stride, b.bottom, x, y);
  }

  lemma LineFromInside(pixels: seq<Pixel>, stride: nat, b: Box, side: Side, i: nat)
    requires BoxInside(pixels, stride, b) && i < Lines(b, side)
    ensures LineInside(pixels, stride, LineFrom(b, side, i), SpanStart(b, side), SpanEnd(b, side))
  {
    forall k | SpanStart(b, side) <= k < SpanEnd(b, side)
      ensures CellOn(stride, LineFrom(b, side, i), k) < |pixels|
    {
      hide Cell;
      match LineFrom(b, side, i)
      case Row(y) => CellBelow(pixels, stride, b, k, y);
      case Col(x) => CellBelow(pixels, stride, b, x, k);
    }
  }

  predicate UniformFrom(pixels: seq<Pixel>, stride: nat, b: Box, side: Side, i: nat)
    requires BoxInside(pixels, stride, b) && i < Lines(b, side)
  {
    LineFromInside(pixels, stride, b, side, i);
    UniformLine(pixels, stride, LineFrom(b, side, i), SpanStart(b, side), SpanEnd(b, side))
  }

  /** The first `n` lines from `side` are uniform. */
  predicate AllUniform(pixels: seq<Pixel>, stride: nat, b: Box, side: Side, n: nat)
    requires BoxInside(pixels, stride, b) && n <= Lines(b, side)
  {
    forall i | 0 <= i < n :: UniformFrom(pixels, stride, b, side, i)
  }

  /** A run of `n` uniform lines that stops at the last remaining line or at one
      that is not uniform. */
  predicate IsRun(pixels: seq<Pixel>, stride: nat, b: Box, side: Side, n: nat)
    requires BoxInside(pixels, stride, b)
  {
    && n < Lines(b, side)
    && AllUniform(pixels, stride, b, side, n)
    && (n + 1 == Lines(b, side) || !UniformFrom(pixels, stride, b, side, n))
  }

  /** The box with `n` lines taken off one side. */
  function Cut(b: Box, side: Side, n: nat): Box
    requires b.left < b.right && b.top < b.bottom && n < Lines(b, side)
  {
    match side
    case Bottom => b.(bottom := b.bottom - n)
    case Top => b.(top := b.top + n)
    case Right => b.(right := b.right - n)
    case Left => b.(left := b.left + n)
  }

  /** What a phase removes: the whole run, unless it is too short to be trusted. */
  function Removed(run: nat): nat { if run < UNIFORM_PADDING_MIN_RUN then 0 else run }

  predicate IsPhase(pixels: seq<Pixel>, stride: nat, b: Box, side: Side, run: nat, after: Box) {
    BoxInside(pixels, stride, b) && IsRun(pixels, stride, b, side, run) && after == Cut(b, side, Removed(run))
  }

  lemma CutInside(pixels: seq<Pixel>, stride: nat, b: Box, side: Side, n: nat)
    requires BoxInside(pixels, stride, b) && n < Lines(b, side)
    ensures BoxInside(pixels, stride, Cut(b, side, n))
  {
    if side == Bottom {
      MulMono(b.bottom - n, b.bottom, stride);
    }
  }

  function BoxOf(r: FrameRect): Box { Box(r.x, r.y, r.x + r.w, r.y + r.h) }

  /** The four runs, in the order bottom, top, right, left, each over the span the
      earlier ones left. */
  datatype Runs = Runs(bottom: nat, top: nat, right: nat, left: nat)

  ghost predicate IsTrimmed(pixels: seq<Pixel>, stride: nat, r: FrameRect, runs: Runs, out: FrameRect)
  {
    exists b1, b2, b3 ::
      && IsPhase(pixels, stride, BoxOf(r), Bottom, runs.bottom, b1)
      && IsPhase(pixels, stride, b1, Top, runs.top, b2)
      && IsPhase(pixels, stride, b2, Right, runs.right, b3)
      && IsPhase(pixels, stride, b3, Left, runs.left, BoxOf(out))
  }

  predicate WithinBox(after: Box, b: Box) {
    b.left <= after.left && after.right <= b.right && b.top <= after.top && after.bottom <= b.bottom
  }

  /** The bottom phase: peel rows while they are uniform; a short run is put back. */
  method TrimBottom(pixels: seq<Pixel>, stride: nat, b: Box) returns (bottom: nat, bottomRun: nat)
    requires BoxInside(pixels, stride, b)
    ensures IsPhase(pixels, stride, b, Bottom, bottomRun, b.(bottom := bottom))
  {
    hide UniformLine;
    bottom, bottomRun := b.bottom, 0;
    while bottom > b.top + 1
      invariant bottom == b.bottom - bottomRun && bottomRun < Lines(b, Bottom)
      invariant AllUniform(pixels, stride, b, Bottom, bottomRun)
    {
      LineFromInside(pixels, stride, b, Bottom, bottomRun);
      var uniform := IsUniformRow(pixels, stride, bottom - 1, b.left, b.right);
      if !uniform {
        break;
      }
      bottom := bottom - 1;
      bottomRun := bottomRun + 1;
    }
    if bottomRun < UNIFORM_PADDING_MIN_RUN {
      bottom := bottom + bottomRun;
    }
  }

  method TrimTop(pixels: seq<Pixel>, stride: nat, b: Box) returns (top: nat, topRun: nat)
    requires BoxInside(pixels, stride, b)
    ensures IsPhase(pixels, stride, b, Top, topRun, b.(top := top))
  {
    hide UniformLine;
    top, topRun := b.top, 0;
    while top + 1 < b.bottom
      invariant top == b.top + topRun && topRun < Lines(b, Top)
      invariant AllUniform(pixels, stride, b, Top, topRun)
    {
      LineFromInside(pixels, stride, b, Top, topRun);
      var uniform := IsUniformRow(pixels, stride, top, b.left, b.right);
      if !uniform {
        break;
      }
      top := top + 1;
      topRun := topRun + 1;
    }
    if topRun < UNIFORM_PADDING_MIN_RUN {
      top := top - topRun;
    }
  }

  method TrimRight(pixels: seq<Pixel>, stride: nat, b: Box) returns (right: nat, rightRun: nat)
    requires BoxInside(pixels, stride, b)
    ensures IsPhase(pixels, stride, b, Right, rightRun, b.(right := right))
  {
    hide UniformLine;
    right, rightRun := b.right, 0;
    while right > b.left + 1
      invariant right == b.right - rightRun && rightRun < Lines(b, Right)
      invariant AllUniform(pixels, stride, b, Right, rightRun)
    {
      LineFromInside(pixels, stride, b, Right, rightRun);
      var uniform := IsUniformCol(pixels, stride, right - 1, b.top, b.bottom);
      if !uniform {
        break;
      }
      right := right - 1;
      rightRun := rightRun + 1;
    }
    if rightRun < UNIFORM_PADDING_MIN_RUN {
      right := right + rightRun;
    }
  }

  method TrimLeft(pixels: seq<Pixel>, stride: nat, b: Box) returns (left: nat, leftRun: nat)
    requires BoxInside(pixels, stride, b)
    ensures IsPhase(pixels, stride, b, Left, leftRun, b.(left := left))
  {
    hide UniformLine;
    left, leftRun := b.left, 0;
    while left + 1 < b.right
      invariant left == b.left + leftRun && leftRun < Lines(b, Left)
      invariant AllUniform(pixels, stride, b, Left, leftRun)
    {
      LineFromInside(pixels, stride, b, Left, leftRun);
      var uniform := IsUniformCol(pixels, stride, left, b.top, b.bottom);
      if !uniform {
        break;
      }
      left := left + 1;
      leftRun := leftRun + 1;
    }
    if leftRun < UNIFORM_PADDING_MIN_RUN {
      left := left - leftRun;
    }
  }

  /** A phase keeps the box non-empty and inside, and moves one side only: by
      nothing, or by 16 lines or more, each of them uniform. */
  lemma PhaseFacts(pixels: seq<Pixel>, stride: nat, b: Box, side: Side, run: nat, after: Box)
    requires IsPhase(pixels, stride, b, side, run, after)
    ensures BoxInside(pixels, stride, after) && WithinBox(after, b)
    ensures Removed(run) == 0 || Removed(run) >= UNIFORM_PADDING_MIN_RUN
    ensures Removed(run) < Lines(b, side) && AllUniform(pixels, stride, b, side, Removed(run))
  {
    hide UniformFrom;
    CutInside(pixels, stride, b, side, Removed(run));
  }

  /** The content rectangle without its uniform padding. */
  method TrimUniformPadding(pixels: seq<Pixel>, stride: nat, rect: FrameRect)
    returns (out: FrameRect, ghost runs: Runs)
    requires RectInside(pixels, stride, rect)
    ensures RectInside(pixels, stride, out)
    ensures IsTrimmed(pixels, stride, rect, runs, out)
  {
    hide IsPhase, BoxInside;
    ghost var b0 := BoxOf(rect);
    assert BoxInside(pixels, stride, b0) by {
      RectIsBox(pixels, stride, rect);
    }
    var b := Box(rect.x, rect.y, rect.x + rect.w, rect.y + rect.h);
    var bottom, bottomRun := TrimBottom(pixels, stride, b);
    PhaseFacts(pixels, stride, b, Bottom, bottomRun, b.(bottom := bottom));
    b := b.(bottom := bottom);
    ghost var b1 := b;
    var top, topRun := TrimTop(pixels, stride, b);
    PhaseFacts(pixels, stride, b, Top, topRun, b.(top := top));
    b := b.(top := top);
    ghost var b2 := b;
    var right, rightRun := TrimRight(pixels, stride, b);
    PhaseFacts(pixels, stride, b, Right, rightRun, b.(right := right));
    b := b.(right := right);
    ghost var b3 := b;
    var left, leftRun := TrimLeft(pixels, stride, b);
    PhaseFacts(pixels, stride, b, Left, leftRun, b.(left := left));
    b := b.(left := left);
    BoxIsRect(pixels, stride, b);
    out := NewRect(b.left, b.top, b.right - b.left, b.bottom - b.top);
    runs := Runs(bottomRun, topRun, rightRun, leftRun);
    assert BoxOf(out) == b;
  }

  lemma RectIsBox(pixels: seq<Pixel>, stride: nat, r: FrameRect)
    requires RectInside(pixels, stride, r)
    ensures BoxInside(pixels, stride, BoxOf(r))
  {
  }

  lemma BoxIsRect(pixels: seq<Pixel>, stride: nat, b: Box)
    requires BoxInside(pixels, stride, b) && b.right < TWO_32 && b.bottom < TWO_32
    ensures var r := NewRect(b.left, b.top, b.right - b.left, b.bottom - b.top);
            BoxOf(r) == b && RectInside(pixels, stride, r)
  {
  }

  // ---- what trimming guarantees --------------------------------------------------------

  lemma RunUnique(pixels: seq<Pixel>, stride: nat, b: Box, side: Side, m: nat, n: nat)
    requires BoxInside(pixels, stride, b) && IsRun(pixels, stride, b, side, m) && IsRun(pixels, stride, b, side, n)
    ensures m == n
  {
    hide UniformFrom;
  }

  lemma PhaseUnique(pixels: seq<Pixel>, stride: nat, b: Box, side: Side, m: nat, after: Box, n: nat, after': Box)
    requires IsPhase(pixels, stride, b, side, m, after) && IsPhase(pixels, stride, b, side, n, after')
    ensures m == n && after == after'
  {
    hide IsRun;
    RunUnique(pixels, stride, b, side, m, n);
  }

  /** Trimming has one possible outcome for each frame and rectangle. */
  lemma TrimDeterministic(
    pixels: seq<Pixel>, stride: nat, r: FrameRect, runs: Runs, out: FrameRect, runs': Runs, out': FrameRect)
    requires IsTrimmed(pixels, stride, r, runs, out) && IsTrimmed(pixels, stride, r, runs', out')
    ensures runs == runs' && out == out'
  {
    hide IsPhase;
    var b1, b2, b3 :|
      && IsPhase(pixels, stride, BoxOf(r), Bottom, runs.bottom, b1)
      && IsPhase(pixels, stride, b1, Top, runs.top, b2)
      && IsPhase(pixels, stride, b2, Right, runs.right, b3)
      && IsPhase(pixels, stride, b3, Left, runs.left, BoxOf(out));
    var c1, c2, c3 :|
      && IsPhase(pixels, stride, BoxOf(r), Bottom, runs'.bottom, c1)
      && IsPhase(pixels, stride, c1, Top, runs'.top, c2)
      && IsPhase(pixels, stride, c2, Right, runs'.right, c3)
      && IsPhase(pixels, stride, c3, Left, runs'.left, BoxOf(out'));
    PhaseUnique(pixels, stride, BoxOf(r), Bottom, runs.bottom, b1, runs'.bottom, c1);
    PhaseUnique(pixels, stride, b1, Top, runs.top, b2, runs'.top, c2);
    PhaseUnique(pixels, stride, b2, Right, runs.right, b3, runs'.right, c3);
    PhaseUnique(pixels, stride, b3, Left, runs.left, BoxOf(out), runs'.left, BoxOf(out'));
  }

  /** A side moved by nothing or by at least sixteen lines. */
  predicate MovedBy(amount: int) { amount == 0 || amount >= 16 }

  /** The result is a non-empty rectangle inside the one given, and each side has
      moved inwards by nothing or by at least sixteen lines. */
  lemma TrimShrinks(pixels: seq<Pixel>, stride: nat, r: FrameRect, runs: Runs, out: FrameRect)
    requires RectInside(pixels, stride, r) && IsTrimmed(pixels, stride, r, runs, out)
    ensures out.w >= 1 && out.h >= 1
    ensures MovedBy(out.x - r.x) && MovedBy(out.y - r.y)
    ensures MovedBy((r.x + r.w) - (out.x + out.w)) && MovedBy((r.y + r.h) - (out.y + out.h))
  {
    hide IsRun, AllUniform;
    var b1, b2, b3 :|
      && IsPhase(pixels, stride, BoxOf(r), Bottom, runs.bottom, b1)
      && IsPhase(pixels, stride, b1, Top, runs.top, b2)
      && IsPhase(pixels, stride, b2, Right, runs.right, b3)
      && IsPhase(pixels, stride, b3, Left, runs.left, BoxOf(out));
    PhaseFacts(pixels, stride, BoxOf(r), Bottom, runs.bottom, b1);
    PhaseFacts(pixels, stride, b1, Top, runs.top, b2);
    PhaseFacts(pixels, stride, b2, Right, runs.right, b3);
    PhaseFacts(pixels, stride, b3, Left, runs.left, BoxOf(out));
  }

  /** Every row cut away, at the bottom or the top, is uniform over the full width
      the rectangle had: at most one pixel in twenty (but always one) strays from
      its first pixel's colour. */
  lemma RemovedRowUniform(pixels: seq<Pixel>, stride: nat, r: FrameRect, runs: Runs, out: FrameRect, y: nat)
    requires RectInside(pixels, stride, r) && IsTrimmed(pixels, stride, r, runs, out)
    requires r.y <= y < out.y || out.y + out.h <= y < r.y + r.h
    ensures LineInside(pixels, stride, Row(y), r.x, r.x + r.w)
    ensures StrayCount(pixels, stride, Row(y), r.x, r.x + r.w) <= Max(r.w / 20, 1)
  {
    hide Outliers, StrayCount, IsRun;
    var b := BoxOf(r);
    var b1, b2, b3 :|
      && IsPhase(pixels, stride, b, Bottom, runs.bottom, b1)
      && IsPhase(pixels, stride, b1, Top, runs.top, b2)
      && IsPhase(pixels, stride, b2, Right, runs.right, b3)
      && IsPhase(pixels, stride, b3, Left, runs.left, BoxOf(out));
    PhaseFacts(pixels, stride, b, Bottom, runs.bottom, b1);
    PhaseFacts(pixels, stride, b1, Top, runs.top, b2);
    if y < out.y {
      assert UniformFrom(pixels, stride, b1, Top, y - b1.top);
      LineFromInside(pixels, stride, b1, Top, y - b1.top);
    } else {
      assert UniformFrom(pixels, stride, b, Bottom, b.bottom - 1 - y);
      LineFromInside(pixels, stride, b, Bottom, b.bottom - 1 - y);
    }
    UniformLineMeans(pixels, stride, Row(y), r.x, r.x + r.w);
  }

  /** Every column cut away, at the right or the left, is uniform over the height
      that is left once rows have been trimmed. */
  lemma RemovedColUniform(pixels: seq<Pixel>, stride: nat, r: FrameRect, runs: Runs, out: FrameRect, x: nat)
    requires RectInside(pixels, stride, r) && IsTrimmed(pixels, stride, r, runs, out)
    requires r.x <= x < out.x || out.x + out.w <= x < r.x + r.w
    ensures LineInside(pixels, stride, Col(x), out.y, out.y + out.h) && out.h >= 1
    ensures StrayCount(pixels, stride, Col(x), out.y, out.y + out.h) <= Max(out.h / 20, 1)
  {
    hide Outliers, StrayCount, IsRun;
    var b := BoxOf(r);
    var b1, b2, b3 :|
      && IsPhase(pixels, stride, b, Bottom, runs.bottom, b1)
      && IsPhase(pixels, stride, b1, Top, runs.top, b2)
      && IsPhase(pixels, stride, b2, Right, runs.right, b3)
      && IsPhase(pixels, stride, b3, Left, runs.left, BoxOf(out));
    PhaseFacts(pixels, stride, b2, Right, runs.right, b3);
    PhaseFacts(pixels, stride, b3, Left, runs.left, BoxOf(out));
    if x < out.x {
      assert UniformFrom(pixels, stride, b3, Left, x - b3.left);
      LineFromInside(pixels, stride, b3, Left, x - b3.left);
    } else {
      assert UniformFrom(pixels, stride, b2, Right, b2.right - 1 - x);
      LineFromInside(pixels, stride, b2, Right, b2.right - 1 - x);
    }
    UniformLineMeans(pixels, stride, Col(x), out.y, out.y + out.h);
  }

  /** A phase moves its side exactly when the first sixteen lines are uniform and
      another line remains behind them; so thick padding always goes and a thin
      uniform border always stays. */
  lemma PhaseMovesExactly(pixels: seq<Pixel>, stride: nat, b: Box, side: Side, run: nat, after: Box)
    requires IsPhase(pixels, stride, b, side, run, after)
    ensures after != b <==> Lines(b, side) > 16 && AllUniform(pixels, stride, b, side, 16)
  {
    hide UniformFrom;
    if Lines(b, side) > UNIFORM_PADDING_MIN_RUN && run < UNIFORM_PADDING_MIN_RUN {
      assert !UniformFrom(pixels, stride, b, side, run);
    }
  }

  /** A rectangle more than sixteen rows high with nothing but uniform rows keeps its top
      row only, and of that only the first pixel when it is more than sixteen wide. */
  lemma BlankKeepsTopLeft(pixels: seq<Pixel>, stride: nat, r: FrameRect, runs: Runs, out: FrameRect)
    requires RectInside(pixels, stride, r) && IsTrimmed(pixels, stride, r, runs, out) && r.h > 16
    requires forall y | r.y <= y < r.y + r.h :: StrayCount(pixels, stride, Row(y), r.x, r.x + r.w) <= Max(r.w / 20, 1)
    ensures out == FrameRect(r.x, r.y, if r.w > 16 then 1 else r.w, 1)
  {
    hide UniformLine, StrayCount;
    var b := BoxOf(r);
    RectIsBox(pixels, stride, r);
    forall i | 0 <= i < Lines(b, Bottom)
      ensures UniformFrom(pixels, stride, b, Bottom, i)
    {
      LineFromInside(pixels, stride, b, Bottom, i);
      UniformLineMeans(pixels, stride, Row(b.bottom - 1 - i), r.x, r.x + r.w);
    }
    var b1, b2, b3 :|
      && IsPhase(pixels, stride, b, Bottom, runs.bottom, b1)
      && IsPhase(pixels, stride, b1, Top, runs.top, b2)
      && IsPhase(pixels, stride, b2, Right, runs.right, b3)
      && IsPhase(pixels, stride, b3, Left, runs.left, BoxOf(out));
    RunThrough(pixels, stride, b, Bottom, runs.bottom);
    PhaseFacts(pixels, stride, b, Bottom, runs.bottom, b1);
    PhaseFacts(pixels, stride, b1, Top, runs.top, b2);
    forall i | 0 <= i < Lines(b2, Right)
      ensures UniformFrom(pixels, stride, b2, Right, i)
    {
      LineFromInside(pixels, stride, b2, Right, i);
      OnePixelUniform(pixels, stride, LineFrom(b2, Right, i), b2.top);
    }
    RunThrough(pixels, stride, b2, Right, runs.right);
    PhaseFacts(pixels, stride, b2, Right, runs.right, b3);
    if r.w <= 16 {
      assert b3 == b2;
    }
  }

  lemma OnePixelUniform(pixels: seq<Pixel>, stride: nat, line: Line, start: nat)
    requires LineInside(pixels, stride, line, start, start + 1)
    ensures UniformLine(pixels, stride, line, start, start + 1)
  {
  }

  /** Uniform all the way, the run stops at the last line. */
  lemma RunThrough(pixels: seq<Pixel>, stride: nat, b: Box, side: Side, run: nat)
    requires BoxInside(pixels, stride, b) && IsRun(pixels, stride, b, side, run)
    requires AllUniform(pixels, stride, b, side, Lines(b, side))
    ensures run == Lines(b, side) - 1
  {
    hide UniformFrom;
  }
}
