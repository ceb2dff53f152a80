/** The viewer's frame buffer, refined to an abstract canvas: what each coordinate
    shows is told by the history of operations alone. */
module FrameBuffers {
  import opened Arith
  import opened MachineInts
  import opened Wrappers
  import opened TileWire
  import opened Pixels
  import opened ContentRect
  import opened BoundingBox

  // ---- tiles --------------------------------------------------------------------

  datatype TileError = UnsupportedEncoding | StrideOverflow | StrideTooSmall | LengthOverflow | BytesMissing

  /** A tile the buffer takes: raw RGBA rows, all of them present, with no u32
      overflow in their sizes. */
  predicate Accepted(tile: FrameTile) {
    && tile.encoding == RawRgba
    && tile.w * 4 <= tile.stride
    && tile.stride * tile.h < TWO_32
    && tile.stride * tile.h <= |tile.bytes|
  }

  lemma TileBytesInside(tile: FrameTile, col: nat, row: nat)
    requires Accepted(tile) && col < tile.w && row < tile.h
    ensures 0 <= row * tile.stride && row * tile.stride + col * 4 + 3 < |tile.bytes|
  {
    MulMono(row + 1, tile.h, tile.stride);
    Distribute(row, tile.stride);
    MulNonNegative(row, tile.stride);
  }

  function TilePixel(tile: FrameTile, col: nat, row: nat): Pixel
    requires Accepted(tile) && col < tile.w && row < tile.h
  {
    TileBytesInside(tile, col, row);
    var src := row * tile.stride + col * 4;
    RgbaToPixel(tile.bytes[src], tile.bytes[src + 1], tile.bytes[src + 2], tile.bytes[src + 3])
  }

  predicate TileCovers(tile: FrameTile, x: nat, y: nat) {
    tile.x <= x < tile.x + tile.w && tile.y <= y < tile.y + tile.h
  }

  /** What the tile puts at a coordinate, if it puts anything there. */
  function Contribution(tile: FrameTile, x: nat, y: nat): Option<Pixel>
    requires Accepted(tile)
  {
    if TileCovers(tile, x, y) && Visible(TilePixel(tile, x - tile.x, y - tile.y))
    then Some(TilePixel(tile, x - tile.x, y - tile.y))
    else None
  }

  // ---- the abstract canvas ----------------------------------------------------------

  datatype Op = Resized(w: u32, h: u32) | RemoteResized(w: u32, h: u32) | Overlaid(tile: FrameTile)

  type History = seq<Op>

  /** The frame's size after the operations. */
  function Size(history: History): (nat, nat) {
    if history == [] then (0, 0)
    else
      var (w, h) := Size(history[..|history| - 1]);
      match history[|history| - 1]
      case Resized(w', h') => (w', h')
      case RemoteResized(w', h') => (w', h')
      case Overlaid(t) =>
        if Accepted(t) then (Max(Max(w, t.x + t.w), 1), Max(Max(h, t.y + t.h), 1)) else (w, h)
  }

  /** The last pixel a tile wrote at (x, y) that no crop and no remote shrink has
      taken away since. */
  function LastWrite(history: History, x: nat, y: nat): Option<Pixel> {
    if history == [] then None
    else
      var before := history[..|history| - 1];
      match history[|history| - 1]
      case Resized(w, h) => if x < w && y < h then LastWrite(before, x, y) else None
      case RemoteResized(w, h) =>
        if w < Size(before).0 || h < Size(before).1 then None else LastWrite(before, x, y)
      case Overlaid(t) =>
        if Accepted(t) && Contribution(t, x, y).Some? then Contribution(t, x, y) else LastWrite(before, x, y)
  }

  function Shown(history: History, x: nat, y: nat): Pixel {
    match LastWrite(history, x, y)
    case Some(p) => p
    case None => TRANSPARENT_PIXEL
  }

  /** The stored pixels are the canvas of the history. */
  predicate Shows(pixels: seq<Pixel>, width: nat, height: nat, history: History) {
    && IsFrame(pixels, width, height)
    && Size(history) == (width, height)
    && forall x, y | 0 <= x < width && 0 <= y < height ::
         PixelAt(pixels, width, height, x, y) == Shown(history, x, y)
  }

  /** Nothing is remembered outside the frame. */
  lemma {:induction false} NothingOutside(history: History, x: nat, y: nat)
    requires x >= Size(history).0 || y >= Size(history).1
    ensures LastWrite(history, x, y) == None
  {
    if history != [] {
      var before := history[..|history| - 1];
      var op := history[|history| - 1];
      if op.Overlaid? || op.RemoteResized? {
        if x >= Size(before).0 || y >= Size(before).1 {
          NothingOutside(before, x, y);
        }
      }
    }
  }

  /** What the k-th operation writes at (x, y), if anything. */
  function Writes(history: History, k: nat, x: nat, y: nat): Option<Pixel>
    requires k < |history|
  {
    match history[k]
    case Overlaid(t) => if Accepted(t) then Contribution(t, x, y) else None
    case _ => None
  }

  /** The k-th operation crops (x, y) away or clears the frame. */
  predicate Erases(history: History, k: nat, x: nat, y: nat)
    requires k < |history|
  {
    match history[k]
    case Resized(w, h) => x >= w || y >= h
    case RemoteResized(w, h) => w < Size(history[..k]).0 || h < Size(history[..k]).1
    case Overlaid(_) => false
  }

  /** The j-th operation wrote `p` at (x, y) and nothing has touched it since. */
  predicate Survives(history: History, j: nat, x: nat, y: nat, p: Pixel)
    requires j < |history|
  {
    && Writes(history, j, x, y) == Some(p)
    && forall k | j < k < |history| :: Writes(history, k, x, y) == None && !Erases(history, k, x, y)
  }

  /** The canvas in one sentence: a coordinate shows a pixel exactly when some
      accepted tile put it there and no later operation wrote over it, cropped it
      or cleared the frame. */
  lemma {:induction false} LastWriteMeaning(history: History, x: nat, y: nat, p: Pixel)
    ensures LastWrite(history, x, y) == Some(p) <==> exists j: nat :: j < |history| && Survives(history, j, x, y, p)
  {
    hide Contribution, Accepted;
    if history != [] {
      var n := |history| - 1;
      var before := history[..n];
      LastWriteMeaning(before, x, y, p);
      if LastWrite(history, x, y) == Some(p) {
        if Writes(history, n, x, y).Some? {
          assert Survives(history, n, x, y, p);
        } else {
          var j: nat :| j < n && Survives(before, j, x, y, p);
          SurvivesLonger(history, j, x, y, p);
        }
      }
      forall j: nat | j <= n && Survives(history, j, x, y, p)
        ensures LastWrite(history, x, y) == Some(p)
      {
        if j < n {
          SurvivesLonger(history, j, x, y, p);
        }
      }
    }
  }

  lemma SurvivesLonger(history: History, j: nat, x: nat, y: nat, p: Pixel)
    requires history != [] && j < |history| - 1
    ensures var n := |history| - 1;
            Survives(history, j, x, y, p)
            <==> Survives(history[..n], j, x, y, p) && Writes(history, n, x, y) == None && !Erases(history, n, x, y)
  {
    hide Contribution, Accepted, Size;
    var n := |history| - 1;
    assert forall k | 0 <= k < n :: history[..n][..k] == history[..k];
    assert forall k | 0 <= k < n :: Writes(history[..n], k, x, y) == Writes(history, k, x, y);
    assert forall k | 0 <= k < n :: Erases(history[..n], k, x, y) == Erases(history, k, x, y);
  }

  // ---- changing size ------------------------------------------------------------------

  /** `after` is `before` cropped to the new size and padded with transparency. */
  predicate Preserved(after: seq<Pixel>, w: nat, h: nat, before: seq<Pixel>, w0: nat, h0: nat, rows: nat) {
    && IsFrame(after, w, h) && IsFrame(before, w0, h0)
    && forall x, y | 0 <= x < w && 0 <= y < h ::
         PixelAt(after, w, h, x, y)
         == if x < w0 && y < h0 && y < rows then PixelAt(before, w0, h0, x, y) else TRANSPARENT_PIXEL
  }

  /** `after` is `before` with `n` cells from `start` replaced by those of `src` from `from`. */
  predicate Spliced(after: seq<Pixel>, before: seq<Pixel>, start: nat, src: seq<Pixel>, from: nat, n: nat) {
    && |after| == |before| && from + n <= |src|
    && forall i | 0 <= i < |after| :: after[i] == if start <= i < start + n then src[from + (i - start)] else before[i]
  }

  method CopyRow(dst: array<Pixel>, start: nat, src: array<Pixel>, from: nat, n: nat)
    requires dst != src && start + n <= dst.Length && from + n <= src.Length
    modifies dst
    ensures Spliced(dst[..], old(dst[..]), start, src[..], from, n)
  {
    var k := 0;
    while k < n
      invariant 0 <= k <= n
      invariant forall i | 0 <= i < dst.Length ::
                  dst[i] == if start <= i < start + k then src[from + (i - start)] else old(dst[i])
    {
      dst[start + k] := src[from + k];
      k := k + 1;
    }
  }

  lemma RowPreserved(
    after: seq<Pixel>, middle: seq<Pixel>, w: nat, h: nat, before: seq<Pixel>, w0: nat, h0: nat, y: nat)
    requires y < h && y < h0
    requires Preserved(middle, w, h, before, w0, h0, y)
    requires Spliced(after, middle, Cell(w, 0, y), before, Cell(w0, 0, y), Min(w0, w))
    ensures Preserved(after, w, h, before, w0, h0, y + 1)
  {
    hide Cell;
    forall a, b | 0 <= a < w && 0 <= b < h
      ensures PixelAt(after, w, h, a, b)
              == if a < w0 && b < h0 && b < y + 1 then PixelAt(before, w0, h0, a, b) else TRANSPARENT_PIXEL
    {
      CellInside(w, h, a, b);
      CellOffset(w, a, b);
      var previous := PixelAt(middle, w, h, a, b);
      if b != y {
        CellElsewhere(w, a, b, y);
      } else if a < w0 {
        CellOffset(w0, a, y);
        var source := PixelAt(before, w0, h0, a, y);
      }
    }
  }

  // ---- overlaying a tile ------------------------------------------------------------------

  /** `after` is `base` with the tile's first `rows` rows laid over it. */
  predicate Blitted(after: seq<Pixel>, base: seq<Pixel>, w: nat, h: nat, tile: FrameTile, rows: nat)
    requires Accepted(tile)
  {
    && IsFrame(after, w, h) && IsFrame(base, w, h)
    && forall x, y | 0 <= x < w && 0 <= y < h ::
         PixelAt(after, w, h, x, y)
         == if y < tile.y + rows && Contribution(tile, x, y).Some? then Contribution(tile, x, y).value
            else PixelAt(base, w, h, x, y)
  }

  /** `after` is `before` with the visible pixels of one tile row written from `start`. */
  predicate RowWritten(after: seq<Pixel>, before: seq<Pixel>, start: nat, tile: FrameTile, row: nat, n: nat)
    requires Accepted(tile) && row < tile.h && n <= tile.w
  {
    && |after| == |before|
    && forall i | 0 <= i < |after| ::
         after[i] == if start <= i < start + n && Visible(TilePixel(tile, i - start, row))
                     then TilePixel(tile, i - start, row) else before[i]
  }

  method WriteRow(pixels: array<Pixel>, start: nat, tile: FrameTile, row: nat)
    requires Accepted(tile) && row < tile.h && start + tile.w <= pixels.Length
    modifies pixels
    ensures RowWritten(pixels[..], old(pixels[..]), start, tile, row, tile.w)
  {
    hide TilePixel, Visible;
    ghost var before := pixels[..];
    var col := 0;
    while col < tile.w
      invariant 0 <= col <= tile.w
      invariant RowWritten(pixels[..], before, start, tile, row, col)
    {
      var p := ReadPixel(tile, row, col);
      if Visible(p) {
        pixels[start + col] := p;
      }
      col := col + 1;
    }
  }

  method ReadPixel(tile: FrameTile, row: nat, col: nat) returns (p: Pixel)
    requires Accepted(tile) && row < tile.h && col < tile.w
    ensures p == TilePixel(tile, col, row)
  {
    TileBytesInside(tile, col, row);
    var src := row * tile.stride + col * 4;
    var r, g, b, a := tile.bytes[src], tile.bytes[src + 1], tile.bytes[src + 2], tile.bytes[src + 3];
    p := RgbaToPixel(r, g, b, a);
  }

  lemma RowBlitted(
    after: seq<Pixel>, middle: seq<Pixel>, base: seq<Pixel>, w: nat, h: nat, tile: FrameTile, row: nat)
    requires Accepted(tile) && row < tile.h && tile.x + tile.w <= w && tile.y + tile.h <= h
    requires Blitted(middle, base, w, h, tile, row)
    requires RowWritten(after, middle, Cell(w, tile.x, tile.y + row), tile, row, tile.w)
    ensures Blitted(after, base, w, h, tile, row + 1)
  {
    hide Cell, TilePixel, Visible;
    var y := tile.y + row;
    CellOffset(w, tile.x, y);
    forall a, b | 0 <= a < w && 0 <= b < h
      ensures PixelAt(after, w, h, a, b)
              == if b < tile.y + row + 1 && Contribution(tile, a, b).Some? then Contribution(tile, a, b).value
                 else PixelAt(base, w, h, a, b)
    {
      CellInside(w, h, a, b);
      CellOffset(w, a, b);
      var previous := PixelAt(middle, w, h, a, b);
      if b != y {
        CellElsewhere(w, a, b, y);
      }
    }
  }

  // ---- how the canvas follows ----------------------------------------------------------------

  lemma BlankPreserves(after: seq<Pixel>, w: nat, h: nat, before: seq<Pixel>, w0: nat, h0: nat)
    requires IsFrame(after, w, h) && IsFrame(before, w0, h0)
    requires forall i | 0 <= i < |after| :: after[i] == TRANSPARENT_PIXEL
    ensures Preserved(after, w, h, before, w0, h0, 0)
  {
    hide Cell;
    forall x, y | 0 <= x < w && 0 <= y < h
      ensures PixelAt(after, w, h, x, y) == TRANSPARENT_PIXEL
    {
      CellInside(w, h, x, y);
    }
  }

  lemma NothingBlitted(base: seq<Pixel>, w: nat, h: nat, tile: FrameTile)
    requires IsFrame(base, w, h) && Accepted(tile)
    ensures Blitted(base, base, w, h, tile, 0)
  {
  }

  lemma ShowsFrame(pixels: seq<Pixel>, w: nat, h: nat, history: History)
    requires Shows(pixels, w, h, history)
    ensures IsFrame(pixels, w, h)
  {
  }

  lemma HistoryPush(history: History, op: Op)
    ensures (history + [op])[..|history + [op]| - 1] == history
  {
  }

  lemma ResizeShows(after: seq<Pixel>, before: seq<Pixel>, w0: nat, h0: nat, w: u32, h: u32, history: History)
    requires Shows(before, w0, h0, history)
    requires if w == w0 && h == h0 then after == before else Preserved(after, w, h, before, w0, h0, Min(h0, h))
    ensures Shows(after, w, h, history + [Resized(w, h)])
  {
    hide PixelAt;
    HistoryPush(history, Resized(w, h));
    var extended := history + [Resized(w, h)];
    forall x, y | 0 <= x < w && 0 <= y < h
      ensures PixelAt(after, w, h, x, y) == Shown(extended, x, y)
    {
      assert LastWrite(extended, x, y) == LastWrite(history, x, y);
      if x >= w0 || y >= h0 {
        NothingOutside(history, x, y);
      }
    }
  }

  lemma RemoteResizeShows(
    after: seq<Pixel>, before: seq<Pixel>, w0: nat, h0: nat, w: u32, h: u32, history: History)
    requires Shows(before, w0, h0, history)
    requires if w == w0 && h == h0 then after == before
             else if w < w0 || h < h0 then
               IsFrame(after, w, h) && forall i | 0 <= i < |after| :: after[i] == TRANSPARENT_PIXEL
             else Preserved(after, w, h, before, w0, h0, Min(h0, h))
    ensures Shows(after, w, h, history + [RemoteResized(w, h)])
  {
    hide Cell;
    HistoryPush(history, RemoteResized(w, h));
    var extended := history + [RemoteResized(w, h)];
    forall x, y | 0 <= x < w && 0 <= y < h
      ensures PixelAt(after, w, h, x, y) == Shown(extended, x, y)
    {
      if w < w0 || h < h0 {
        CellInside(w, h, x, y);
        assert LastWrite(extended, x, y) == None;
      } else {
        assert LastWrite(extended, x, y) == LastWrite(history, x, y);
        if x >= w0 || y >= h0 {
          NothingOutside(history, x, y);
        }
      }
    }
  }

  /** A frame grown for the tile shows the history; laying all rows shows the tile on top. */
  lemma OverlayShows(
    after: seq<Pixel>, base: seq<Pixel>, before: seq<Pixel>, w0: nat, h0: nat, w: nat, h: nat,
    tile: FrameTile, history: History)
    requires Shows(before, w0, h0, history) && Accepted(tile)
    requires w == Max(Max(w0, tile.x + tile.w), 1) && h == Max(Max(h0, tile.y + tile.h), 1)
    requires if w == w0 && h == h0 then base == before else Preserved(base, w, h, before, w0, h0, Min(h0, h))
    requires Blitted(after, base, w, h, tile, tile.h)
    ensures Shows(after, w, h, history + [Overlaid(tile)])
  {
    hide PixelAt, Contribution, Accepted;
    HistoryPush(history, Overlaid(tile));
    var extended := history + [Overlaid(tile)];
    forall x, y | 0 <= x < w && 0 <= y < h
      ensures PixelAt(after, w, h, x, y) == Shown(extended, x, y)
    {
      ContributionInside(tile, x, y);
      if x >= w0 || y >= h0 {
        NothingOutside(history, x, y);
      }
      assert PixelAt(base, w, h, x, y) == Shown(history, x, y);
    }
  }

  lemma ContributionInside(tile: FrameTile, x: nat, y: nat)
    requires Accepted(tile)
    ensures Contribution(tile, x, y).Some? ==> y < tile.y + tile.h
  {
  }

  // ---- one call, told by the bytes ------------------------------------------------------------

  /** The pixel is the four bytes from `i` on: red, green, blue and alpha. */
  predicate FromBytes(p: Pixel, bytes: seq<u8>, i: int)
    requires 0 <= i && i + 3 < |bytes|
  {
    var r: nat, g: nat, b: nat, a: nat := bytes[i], bytes[i + 1], bytes[i + 2], bytes[i + 3];
    && p == 0x100_0000 * a + 0x1_0000 * r + 0x100 * g + b
    && Red(p) == bytes[i] && Green(p) == bytes[i + 1] && Blue(p) == bytes[i + 2] && Alpha(p) == bytes[i + 3]
  }

  /** `p` is what a frame padded with zeros has at (x, y). */
  predicate Keeps(p: Pixel, before: seq<Pixel>, w0: nat, h0: nat, x: nat, y: nat)
    requires IsFrame(before, w0, h0)
  {
    p == if x < w0 && y < h0 then PixelAt(before, w0, h0, x, y) else 0
  }

  /** The frame shows the tile's bytes where its alpha is 48 or more and what it
      showed before everywhere else. */
  predicate TileLaid(after: seq<Pixel>, w: nat, h: nat, before: seq<Pixel>, w0: nat, h0: nat, tile: FrameTile) {
    && IsFrame(after, w, h) && IsFrame(before, w0, h0) && Accepted(tile)
    && w == Max(Max(w0, tile.x + tile.w), 1) && h == Max(Max(h0, tile.y + tile.h), 1)
    && (forall col, row | 0 <= col < tile.w && 0 <= row < tile.h ::
          ShowsTile(after, w, h, before, w0, h0, tile, col, row))
    && (forall x, y | 0 <= x < w && 0 <= y < h &&
          !(tile.x <= x < tile.x + tile.w && tile.y <= y < tile.y + tile.h) ::
          Keeps(PixelAt(after, w, h, x, y), before, w0, h0, x, y))
  }

  /** One cell of the tile. */
  predicate ShowsTile(
    after: seq<Pixel>, w: nat, h: nat, before: seq<Pixel>, w0: nat, h0: nat, tile: FrameTile, col: nat, row: nat)
    requires IsFrame(after, w, h) && IsFrame(before, w0, h0) && Accepted(tile) && col < tile.w && row < tile.h
    requires tile.x + tile.w <= w && tile.y + tile.h <= h
  {
    TileBytesInside(tile, col, row);
    var i := row * tile.stride + 4 * col;
    var p := PixelAt(after, w, h, tile.x + col, tile.y + row);
    if tile.bytes[i + 3] >= 48 then FromBytes(p, tile.bytes, i)
    else Keeps(p, before, w0, h0, tile.x + col, tile.y + row)
  }

  lemma TilePixelBytes(tile: FrameTile, col: nat, row: nat)
    requires Accepted(tile) && col < tile.w && row < tile.h
    ensures var i := row * tile.stride + 4 * col;
            && 0 <= i && i + 3 < |tile.bytes|
            && FromBytes(TilePixel(tile, col, row), tile.bytes, i)
            && (Visible(TilePixel(tile, col, row)) <==> tile.bytes[i + 3] >= 48)
  {
    hide Red, Green, Blue, Alpha, Accepted;
    TileBytesInside(tile, col, row);
    var i := row * tile.stride + 4 * col;
    PackUnpack(tile.bytes[i], tile.bytes[i + 1], tile.bytes[i + 2], tile.bytes[i + 3]);
  }

  lemma ShownAfterTile(history: History, tile: FrameTile, x: nat, y: nat)
    requires Accepted(tile)
    ensures Shown(history + [Overlaid(tile)], x, y)
         == if Contribution(tile, x, y).Some? then Contribution(tile, x, y).value else Shown(history, x, y)
  {
    hide Contribution, Accepted;
    HistoryPush(history, Overlaid(tile));
  }

  lemma ShownBefore(before: seq<Pixel>, w0: nat, h0: nat, history: History, x: nat, y: nat)
    requires Shows(before, w0, h0, history)
    ensures Keeps(Shown(history, x, y), before, w0, h0, x, y)
  {
    hide PixelAt;
    if x >= w0 || y >= h0 {
      NothingOutside(history, x, y);
    }
  }

  lemma SizeAfterTile(history: History, tile: FrameTile)
    requires Accepted(tile)
    ensures var (w0, h0) := Size(history);
            Size(history + [Overlaid(tile)])
            == (Max(Max(w0, tile.x + tile.w), 1), Max(Max(h0, tile.y + tile.h), 1))
  {
    hide Accepted;
    HistoryPush(history, Overlaid(tile));
  }

  lemma TileCell(
    after: seq<Pixel>, w: nat, h: nat, before: seq<Pixel>, w0: nat, h0: nat, history: History, tile: FrameTile,
    col: nat, row: nat)
    requires Shows(before, w0, h0, history) && Shows(after, w, h, history + [Overlaid(tile)])
    requires Accepted(tile) && tile.x + tile.w <= w && tile.y + tile.h <= h
    requires col < tile.w && row < tile.h
    ensures IsFrame(after, w, h) && IsFrame(before, w0, h0)
    ensures ShowsTile(after, w, h, before, w0, h0, tile, col, row)
  {
    hide PixelAt, FromBytes, TilePixel, Visible, Accepted, Size, LastWrite, Shown, Keeps;
    var x, y := tile.x + col, tile.y + row;
    TilePixelBytes(tile, col, row);
    ShownAfterTile(history, tile, x, y);
    ShownBefore(before, w0, h0, history, x, y);
    assert PixelAt(after, w, h, x, y) == Shown(history + [Overlaid(tile)], x, y);
  }

  lemma OverlayIsLaid(
    after: seq<Pixel>, w: nat, h: nat, before: seq<Pixel>, w0: nat, h0: nat, history: History, tile: FrameTile)
    requires Shows(before, w0, h0, history) && Shows(after, w, h, history + [Overlaid(tile)]) && Accepted(tile)
    ensures TileLaid(after, w, h, before, w0, h0, tile)
  {
    hide PixelAt, ShowsTile, TilePixel, Visible, Accepted, Size, LastWrite, Shown, Keeps;
    SizeAfterTile(history, tile);
    forall col, row | 0 <= col < tile.w && 0 <= row < tile.h
      ensures ShowsTile(after, w, h, before, w0, h0, tile, col, row)
    {
      TileCell(after, w, h, before, w0, h0, history, tile, col, row);
    }
    forall x, y | 0 <= x < w && 0 <= y < h && !TileCovers(tile, x, y)
      ensures Keeps(PixelAt(after, w, h, x, y), before, w0, h0, x, y)
    {
      ShownAfterTile(history, tile, x, y);
      ShownBefore(before, w0, h0, history, x, y);
      assert PixelAt(after, w, h, x, y) == Shown(history + [Overlaid(tile)], x, y);
    }
  }

  /** The frame is the old one cropped to the new size, zero where it had nothing. */
  predicate Recut(after: seq<Pixel>, w: nat, h: nat, before: seq<Pixel>, w0: nat, h0: nat) {
    && IsFrame(after, w, h) && IsFrame(before, w0, h0)
    && forall x, y | 0 <= x < w && 0 <= y < h :: Keeps(PixelAt(after, w, h, x, y), before, w0, h0, x, y)
  }

  lemma ResizeRecuts(
    after: seq<Pixel>, w: u32, h: u32, before: seq<Pixel>, w0: nat, h0: nat, history: History)
    requires Shows(before, w0, h0, history) && Shows(after, w, h, history + [Resized(w, h)])
    ensures Recut(after, w, h, before, w0, h0)
  {
    hide PixelAt, Keeps;
    HistoryPush(history, Resized(w, h));
    forall x, y | 0 <= x < w && 0 <= y < h
      ensures Keeps(PixelAt(after, w, h, x, y), before, w0, h0, x, y)
    {
      ShownBefore(before, w0, h0, history, x, y);
      assert Shown(history + [Resized(w, h)], x, y) == Shown(history, x, y);
    }
  }

  lemma RemoteResizeRecuts(
    after: seq<Pixel>, w: u32, h: u32, before: seq<Pixel>, w0: nat, h0: nat, history: History)
    requires Shows(before, w0, h0, history) && Shows(after, w, h, history + [RemoteResized(w, h)])
    ensures if w < w0 || h < h0 then Blank(after, w, h) else Recut(after, w, h, before, w0, h0)
  {
    hide PixelAt, Keeps;
    HistoryPush(history, RemoteResized(w, h));
    forall x, y | 0 <= x < w && 0 <= y < h
      ensures PixelAt(after, w, h, x, y) == 0 || !(w < w0 || h < h0)
      ensures Keeps(PixelAt(after, w, h, x, y), before, w0, h0, x, y) || w < w0 || h < h0
    {
      ShownBefore(before, w0, h0, history, x, y);
      assert PixelAt(after, w, h, x, y) == Shown(history + [RemoteResized(w, h)], x, y);
    }
  }

  predicate Blank(pixels: seq<Pixel>, w: nat, h: nat) {
    && IsFrame(pixels, w, h)
    && forall x, y | 0 <= x < w && 0 <= y < h :: PixelAt(pixels, w, h, x, y) == 0
  }

  // ---- the buffer itself ----------------------------------------------------------------------

  /** The extent the frame must have for the tile. */
  predicate Fits(width: nat, height: nat, tile: FrameTile) {
    && tile.x + tile.w < TWO_32 && tile.y + tile.h < TWO_32
    && Max(Max(width, tile.x + tile.w), 1) * Max(Max(height, tile.y + tile.h), 1) < TWO_32
  }

  class FrameBuffer {
    var width: u32
    var height: u32
    var pixels: array<Pixel>
    var content: FrameRect
    var matte: Pixel
    ghost var history: History

    ghost predicate Valid()
      reads this, pixels
    {
      Shows(pixels[..], width, height, history)
    }

    constructor (w: u32, h: u32)
      ensures Valid() && fresh(pixels)
      ensures history == [Resized(w, h)]
      ensures width == w && height == h && Blank(pixels[..], w, h)
      ensures content == FrameRect(0, 0, Max(w, 1), Max(h, 1)) && matte == 0x18_1818
    {
      width, height := 0, 0;
      pixels := new Pixel[0];
      content := FrameRect(0, 0, 1, 1);
      matte := DEFAULT_MATTE_PIXEL;
      history := [];
      new;
      Resize(w, h);
      assert history == [] + [Resized(w, h)];
    }

    /** Crop or pad to the new size. The matte is kept. */
    method Resize(w: u32, h: u32)
      requires Valid()
      modifies this
      ensures Valid() && (pixels == old(pixels) || fresh(pixels))
      ensures history == old(history) + [Resized(w, h)]
      ensures width == w && height == h
      ensures Recut(pixels[..], w, h, old(pixels[..]), old(width), old(height))
      ensures matte == old(matte)
      ensures content == if old(width) == w && old(height) == h then old(content)
                         else FrameRect(0, 0, Max(w, 1), Max(h, 1))
    {
      ghost var before := pixels[..];
      if width == w && height == h {
        ResizeShows(before, before, width, height, w, h, history);
        ResizeRecuts(before, w, h, before, width, height, history);
        history := history + [Resized(w, h)];
        return;
      }
      ReplaceBufferPreservingPixels(w, h);
      content := NewRect(0, 0, Max(w, 1), Max(h, 1));
      ResizeShows(pixels[..], before, old(width), old(height), w, h, history);
      ResizeRecuts(pixels[..], w, h, before, old(width), old(height), history);
      history := history + [Resized(w, h)];
    }

    /** Like `Resize`, but a remote shrink clears the frame. */
    method ResizeForRemoteSize(w: u32, h: u32)
      requires Valid()
      modifies this
      ensures Valid() && (pixels == old(pixels) || fresh(pixels))
      ensures history == old(history) + [RemoteResized(w, h)]
      ensures width == w && height == h
      ensures if w < old(width) || h < old(height) then Blank(pixels[..], w, h)
              else Recut(pixels[..], w, h, old(pixels[..]), old(width), old(height))
      ensures matte == old(matte)
      ensures content == if old(width) == w && old(height) == h then old(content)
                         else FrameRect(0, 0, Max(w, 1), Max(h, 1))
    {
      hide Shows, Preserved, Recut, Blank;
      ghost var before := pixels[..];
      ShowsFrame(before, width, height, history);
      if width == w && height == h {
        RemoteResizeShows(before, before, width, height, w, h, history);
        RemoteResizeRecuts(before, w, h, before, width, height, history);
        history := history + [RemoteResized(w, h)];
        return;
      }
      var shrinks := w < width || h < height;
      if shrinks {
        ReplaceBufferClearing(w, h);
      } else {
        ReplaceBufferPreservingPixels(w, h);
      }
      content := NewRect(0, 0, Max(w, 1), Max(h, 1));
      RemoteResizeShows(pixels[..], before, old(width), old(height), w, h, history);
      RemoteResizeRecuts(pixels[..], w, h, before, old(width), old(height), history);
      history := history + [RemoteResized(w, h)];
    }

    method ReplaceBufferPreservingPixels(w: u32, h: u32)
      requires IsFrame(pixels[..], width, height)
      modifies this`width, this`height, this`pixels
      ensures width == w && height == h && fresh(pixels)
      ensures Preserved(pixels[..], w, h, old(pixels[..]), old(width), old(height), Min(old(height), h))
    {
      hide PixelAt;
      var oldPixels, oldWidth, oldHeight := pixels, width, height;
      width, height := w, h;
      pixels := new Pixel[w * h](_ => TRANSPARENT_PIXEL);
      var copyW, copyH := Min(oldWidth, w), Min(oldHeight, h);
      ghost var before := oldPixels[..];
      BlankPreserves(pixels[..], w, h, before, oldWidth, oldHeight);
      var y := 0;
      while y < copyH
        invariant 0 <= y <= copyH && oldPixels[..] == before
        invariant Preserved(pixels[..], w, h, before, oldWidth, oldHeight, y)
        modifies pixels
      {
        ghost var middle := pixels[..];
        RowInside(w, h, y);
        RowInside(oldWidth, oldHeight, y);
        CopyRow(pixels, y * w, oldPixels, y * oldWidth, copyW);
        RowPreserved(pixels[..], middle, w, h, before, oldWidth, oldHeight, y);
        y := y + 1;
      }
    }

    method ReplaceBufferClearing(w: u32, h: u32)
      modifies this`width, this`height, this`pixels
      ensures width == w && height == h && fresh(pixels)
      ensures |pixels[..]| == w * h && forall i | 0 <= i < w * h :: pixels[..][i] == TRANSPARENT_PIXEL
    {
      width, height := w, h;
      pixels := new Pixel[w * h](_ => TRANSPARENT_PIXEL);
    }

    /** Lay a tile over the frame, growing it if need be. A tile that is refused
        changes nothing; an accepted one writes exactly its visible pixels, and the
        content rectangle and matte follow the new frame. */
    method ApplyTile(tile: FrameTile) returns (r: Result<bool, TileError>)
      requires Valid() && (Accepted(tile) ==> Fits(width, height, tile))
      modifies this, pixels
      ensures Valid() && (pixels == old(pixels) || fresh(pixels))
      ensures r.Ok? <==> && tile.encoding == RawRgba && tile.w * 4 <= tile.stride
                         && tile.stride * tile.h < 0x1_0000_0000 && tile.stride * tile.h <= |tile.bytes|
      ensures r.Err? ==> unchanged(this) && unchanged(old(pixels))
      ensures r.Err? ==>
                match r.error
                case UnsupportedEncoding => tile.encoding == ZstdRgba
                case StrideOverflow => tile.encoding == RawRgba && tile.w >= 0x4000_0000
                case StrideTooSmall => tile.encoding == RawRgba && tile.stride < tile.w * 4 < 0x1_0000_0000
                case LengthOverflow => && tile.encoding == RawRgba && tile.w * 4 <= tile.stride
                                       && tile.stride * tile.h >= 0x1_0000_0000
                case BytesMissing => && tile.encoding == RawRgba && tile.w * 4 <= tile.stride
                                     && |tile.bytes| < tile.stride * tile.h < 0x1_0000_0000
      ensures r.Ok? ==> history == old(history) + [Overlaid(tile)]
      ensures r.Ok? ==> TileLaid(pixels[..], width, height, old(pixels[..]), old(width), old(height), tile)
      ensures r.Ok? ==> IsContent(pixels[..], width, height, content, matte)
      ensures r.Ok? ==> (r.value <==> || Max(content.w, 1) != Max(old(content).w, 1)
                                      || Max(content.h, 1) != Max(old(content).h, 1))
    {
      if tile.encoding != RawRgba {
        return Err(UnsupportedEncoding);
      }
      if tile.w * 4 >= TWO_32 {
        return Err(StrideOverflow);
      }
      var minStride := tile.w * 4;
      if tile.stride < minStride {
        return Err(StrideTooSmall);
      }
      if tile.stride * tile.h >= TWO_32 {
        return Err(LengthOverflow);
      }
      if |tile.bytes| < tile.stride * tile.h {
        return Err(BytesMissing);
      }
      var oldDisplaySize := DisplaySize(content);
      Overlay(tile);
      content, matte := UpdateContentRect(pixels[..], width, height);
      r := Ok(oldDisplaySize != DisplaySize(content));
    }

    /** The part of `ApplyTile` that touches pixels. */
    method Overlay(tile: FrameTile)
      requires Valid() && Accepted(tile) && Fits(width, height, tile)
      modifies this`width, this`height, this`pixels, this`history, pixels
      ensures Valid() && (pixels == old(pixels) || fresh(pixels))
      ensures history == old(history) + [Overlaid(tile)]
      ensures TileLaid(pixels[..], width, height, old(pixels[..]), old(width), old(height), tile)
    {
      hide Shows, PixelAt, Accepted, TileLaid;
      ghost var before, w0, h0 := pixels[..], width, height;
      assert IsFrame(before, w0, h0) by {
        ShowsFrame(before, w0, h0, history);
      }
      var newWidth := Max(Max(width, tile.x + tile.w), 1);
      var newHeight := Max(Max(height, tile.y + tile.h), 1);
      if newWidth != width || newHeight != height {
        ReplaceBufferPreservingPixels(newWidth, newHeight);
      }
      ghost var base := pixels[..];
      NothingBlitted(base, width, height, tile);
      var row := 0;
      while row < tile.h
        invariant 0 <= row <= tile.h && IsFrame(pixels[..], width, height)
        invariant Blitted(pixels[..], base, width, height, tile, row)
        modifies pixels
      {
        ghost var middle := pixels[..];
        RowInside(width, height, tile.y + row);
        WriteRow(pixels, (tile.y + row) * width + tile.x, tile, row);
        RowBlitted(pixels[..], middle, base, width, height, tile, row);
        row := row + 1;
      }
      OverlayShows(pixels[..], base, before, w0, h0, width, height, tile, history);
      OverlayIsLaid(pixels[..], width, height, before, w0, h0, history, tile);
      history := history + [Overlaid(tile)];
    }
  }

  function DisplaySize(content: FrameRect): (u32, u32) { (Max(content.w, 1), Max(content.h, 1)) }
}
