/** Cutting a byte string into equal pieces (the last may be shorter) and
    joining pieces again. */
module Slices {
  import opened Arith
  import opened MachineInts

  function CeilDiv(n: nat, d: nat): nat
    requires d > 0
  {
    if n % d == 0 then n / d else n / d + 1
  }

  lemma CeilDivBounds(n: nat, d: nat)
    requires d > 0
    ensures n == 0 ==> CeilDiv(n, d) == 0
    ensures n > 0 ==> 1 <= CeilDiv(n, d) && (CeilDiv(n, d) - 1) * d < n
    ensures n <= CeilDiv(n, d) * d
  {
    var q := n / d;
    DivMod(n, d);
    Distribute(q, d);
  }

  lemma CeilDivAtMost(n: nat, d: nat)
    requires d > 0
    ensures CeilDiv(n, d) <= n
  {
    CeilDivBounds(n, d);
    if n > 0 {
      MulAtLeast(CeilDiv(n, d) - 1, d);
    }
  }

  /** Piece i starts inside the bytes and is not empty. */
  lemma PieceInside(n: nat, size: nat, i: nat)
    requires size > 0 && i < CeilDiv(n, size)
    ensures 0 <= i * size < n
    ensures (i + 1) * size == i * size + size
  {
    CeilDivBounds(n, size);
    MulMono(i, CeilDiv(n, size) - 1, size);
    Distribute(i, size);
    MulNonNegative(i, size);
  }

  /** While bytes remain, so do pieces, and the next one starts where the last ended. */
  lemma NextPiece(n: nat, size: nat, i: nat)
    requires size > 0 && i * size < n
    ensures i < CeilDiv(n, size)
    ensures (i + 1) * size == i * size + size
  {
    CeilDivBounds(n, size);
    if i >= CeilDiv(n, size) {
      MulMono(CeilDiv(n, size), i, size);
    }
    Distribute(i, size);
  }

  lemma LastPiece(n: nat, size: nat, i: nat)
    requires size > 0 && n <= i * size && i <= CeilDiv(n, size)
    ensures i == CeilDiv(n, size)
  {
    CeilDivBounds(n, size);
    if i < CeilDiv(n, size) {
      MulMono(i, CeilDiv(n, size) - 1, size);
    }
  }

  /** The i-th piece of `bytes` cut every `size` bytes. */
  function Slice(bytes: Bytes, size: nat, i: nat): (piece: Bytes)
    requires size > 0 && i < CeilDiv(|bytes|, size)
    ensures 0 < |piece| <= size
  {
    PieceInside(|bytes|, size, i);
    var start := i * size;
    bytes[start..Min(start + size, |bytes|)]
  }

  function Flatten(parts: seq<Bytes>): Bytes {
    if parts == [] then [] else Flatten(parts[..|parts| - 1]) + parts[|parts| - 1]
  }

  lemma FlattenPush(parts: seq<Bytes>, part: Bytes)
    ensures Flatten(parts + [part]) == Flatten(parts) + part
  {
    assert (parts + [part])[..|parts|] == parts;
  }

  predicate IsPieces(parts: seq<Bytes>, bytes: Bytes, size: nat)
    requires size > 0
  {
    && |parts| <= CeilDiv(|bytes|, size)
    && forall i | 0 <= i < |parts| :: parts[i] == Slice(bytes, size, i)
  }

  lemma AppendSlice(bytes: Bytes, start: nat, size: nat)
    requires start < |bytes|
    ensures bytes[..start] + bytes[start..Min(start + size, |bytes|)] == bytes[..Min(start + size, |bytes|)]
  {
  }

  lemma {:induction false} PiecesJoinPrefix(parts: seq<Bytes>, bytes: Bytes, size: nat)
    requires size > 0 && IsPieces(parts, bytes, size)
    ensures |parts| * size >= 0
    ensures Flatten(parts) == bytes[..Min(|parts| * size, |bytes|)]
  {
    if parts != [] {
      var k := |parts| - 1;
      PiecesJoinPrefix(parts[..k], bytes, size);
      PieceInside(|bytes|, size, k);
      AppendSlice(bytes, k * size, size);
    }
  }

  /** Joining all the pieces restores the bytes. */
  lemma PiecesJoin(parts: seq<Bytes>, bytes: Bytes, size: nat)
    requires size > 0 && IsPieces(parts, bytes, size) && |parts| == CeilDiv(|bytes|, size)
    ensures Flatten(parts) == bytes
  {
    CeilDivBounds(|bytes|, size);
    PiecesJoinPrefix(parts, bytes, size);
  }
}
