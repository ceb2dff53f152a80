/** Packed pixels and the row-major grid they are stored in. Shifts and masks of
    disjoint bytes are written as base-256 digits. */
module Pixels {
  import opened Arith
  import opened MachineInts

  type Pixel = u32

  const TRANSPARENT_PIXEL: Pixel := 0
  const DEFAULT_MATTE_PIXEL: Pixel := 0x18_1818
  const VISIBLE_ALPHA_THRESHOLD: nat := 48

  function RgbaToPixel(r: u8, g: u8, b: u8, a: u8): Pixel {
    a * 0x100_0000 + r * 0x1_0000 + g * 0x100 + b
  }

  function RgbToPixel(r: u8, g: u8, b: u8): Pixel { RgbaToPixel(r, g, b, 0) }

  function Alpha(p: Pixel): u8 { p / 0x100_0000 }

  function Red(p: Pixel): u8 { p / 0x1_0000 % 0x100 }

  function Green(p: Pixel): u8 { p / 0x100 % 0x100 }

  function Blue(p: Pixel): u8 { p % 0x100 }

  predicate Visible(p: Pixel) { Alpha(p) >= VISIBLE_ALPHA_THRESHOLD }

  function OpaqueSoftbufferPixel(p: Pixel): Pixel { 0xff00_0000 + p % 0x100_0000 }

  /** Packing and unpacking are inverse. */
  lemma PackUnpack(r: u8, g: u8, b: u8, a: u8)
    ensures var p := RgbaToPixel(r, g, b, a);
            Alpha(p) == a && Red(p) == r && Green(p) == g && Blue(p) == b
  {
    var p := RgbaToPixel(r, g, b, a);
    assert p / 0x1_0000 == a * 0x100 + r;
    assert p / 0x100 == (a * 0x100 + r) * 0x100 + g;
  }

  lemma UnpackPack(p: Pixel)
    ensures RgbaToPixel(Red(p), Green(p), Blue(p), Alpha(p)) == p
  {
    var p1 := p / 0x100;
    var p2 := p / 0x1_0000;
    assert p1 / 0x100 == p2 && p2 / 0x100 == p / 0x100_0000;
  }

  // ---- the row-major grid -----------------------------------------------------

  /** Where the pixel at column x of row y is stored. */
  function Cell(width: nat, x: nat, y: nat): nat { y * width + x }

  lemma CellInside(width: nat, height: nat, x: nat, y: nat)
    requires x < width && y < height
    ensures Cell(width, x, y) < width * height
  {
    MulMono(y + 1, height, width);
    Distribute(y, width);
  }

  /** Row y starts at y * width and the next row right after it. */
  lemma RowInside(width: nat, height: nat, y: nat)
    requires y < height
    ensures 0 <= y * width && y * width + width <= height * width == width * height
    ensures (y + 1) * width == y * width + width
  {
    MulMono(y + 1, height, width);
    Distribute(y, width);
    MulNonNegative(y, width);
  }

  /** A stored position belongs to one row only. */
  lemma CellInRow(width: nat, x: nat, y: nat, row: nat, k: int)
    requires x < width && Cell(width, x, y) == row * width + k && 0 <= k < width
    ensures y == row && x == k
  {
    if y < row {
      MulMono(y + 1, row, width);
      Distribute(y, width);
    } else if y > row {
      MulMono(row + 1, y, width);
      Distribute(row, width);
    }
  }

  lemma CellOffset(width: nat, x: nat, y: nat)
    ensures Cell(width, x, y) == Cell(width, 0, y) + x
  {
  }

  /** A position of one row is not in the cells of another. */
  lemma CellElsewhere(width: nat, x: nat, y: nat, row: nat)
    requires x < width && y != row
    ensures !(Cell(width, 0, row) <= Cell(width, x, y) < Cell(width, 0, row) + width)
  {
    if Cell(width, 0, row) <= Cell(width, x, y) < Cell(width, 0, row) + width {
      CellInRow(width, x, y, row, Cell(width, x, y) - row * width);
    }
  }
}
