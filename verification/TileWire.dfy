/** Frame tiles, the chunks they travel in, and the sender's fragmentation. */
module TileWire {
  import opened Arith
  import opened MachineInts
  import opened Wrappers
  import opened Postcard
  import opened Slices

  datatype PixelEncoding = RawRgba | ZstdRgba

  datatype FrameTile = FrameTile(
    id: u64, x: u32, y: u32, w: u32, h: u32, stride: u32, encoding: PixelEncoding, bytes: Bytes)

  datatype FrameTileHeader = FrameTileHeader(
    id: u64, x: u32, y: u32, w: u32, h: u32, stride: u32, encoding: PixelEncoding)
  {
    function IntoTile(bytes: Bytes): FrameTile {
      FrameTile(id, x, y, w, h, stride, encoding, bytes)
    }
  }

  function HeaderOf(tile: FrameTile): FrameTileHeader {
    FrameTileHeader(tile.id, tile.x, tile.y, tile.w, tile.h, tile.stride, tile.encoding)
  }

  datatype FrameTileChunk = FrameTileChunk(
    channelId: u64, frameSeq: u64, chunkIndex: u32, chunkCount: u32, totalLen: u32,
    header: FrameTileHeader, bytes: Bytes)

  // ---- wire form ------------------------------------------------------------

  function EncodingSchema(): Schema { Choice(Then(Tuple(End), Then(Tuple(End), End))) }

  function HeaderFields(): Schemas {
    Then(U64, Then(U32, Then(U32, Then(U32, Then(U32, Then(U32, Then(EncodingSchema(), End)))))))
  }

  function ChunkFields(): Schemas {
    Then(U64, Then(U64, Then(U32, Then(U32, Then(U32, Then(Tuple(HeaderFields()), Then(Blob, End)))))))
  }

  function DatagramSchema(): Schema { Choice(Then(Tuple(ChunkFields()), End)) }

  function EncodingValue(e: PixelEncoding): (v: Value)
    ensures HasType(v, EncodingSchema())
  {
    Pick(if e.RawRgba? then 0 else 1, Record(Last))
  }

  function HeaderValue(h: FrameTileHeader): (v: Value)
    ensures HasType(v, Tuple(HeaderFields()))
  {
    Record(More(Num(h.id), More(Num(h.x), More(Num(h.y), More(Num(h.w), More(Num(h.h),
      More(Num(h.stride), More(EncodingValue(h.encoding), Last))))))))
  }

  function DatagramValue(c: FrameTileChunk): (v: Value)
    requires |c.bytes| < TWO_64
    ensures HasType(v, DatagramSchema())
  {
    var r := Record(More(Num(c.channelId), More(Num(c.frameSeq), More(Num(c.chunkIndex),
      More(Num(c.chunkCount), More(Num(c.totalLen), More(HeaderValue(c.header), More(Raw(c.bytes), Last))))))));
    assert HasType(r, Tuple(ChunkFields()));
    Pick(0, r)
  }

  function EncodingOf(v: Value): PixelEncoding
    requires HasType(v, EncodingSchema())
  {
    if v.index == 0 then RawRgba else ZstdRgba
  }

  function HeaderFrom(v: Value): FrameTileHeader
    requires HasType(v, Tuple(HeaderFields()))
  {
    hide CaseAt, CaseCount, HaveTypes, Field, HeaderFields, EncodingSchema;
    HeaderFieldTypes();
    var fs, ts := v.record, HeaderFields();
    FrameTileHeader(
      Field(fs, ts, 0).n, Field(fs, ts, 1).n, Field(fs, ts, 2).n, Field(fs, ts, 3).n,
      Field(fs, ts, 4).n, Field(fs, ts, 5).n, EncodingOf(Field(fs, ts, 6)))
  }

  function ChunkFrom(v: Value): FrameTileChunk
    requires HasType(v, DatagramSchema())
  {
    assert HasType(v.payload, Tuple(ChunkFields()));
    ChunkFromRecord(v.payload.record)
  }

  lemma ChunkFieldTypes()
    ensures var ts := ChunkFields();
            && CaseCount(ts) == 7
            && CaseAt(ts, 0) == U64 && CaseAt(ts, 1) == U64
            && CaseAt(ts, 2) == U32 && CaseAt(ts, 3) == U32 && CaseAt(ts, 4) == U32
            && CaseAt(ts, 5) == Tuple(HeaderFields()) && CaseAt(ts, 6) == Blob
  {
  }

  lemma HeaderFieldTypes()
    ensures var ts := HeaderFields();
            && CaseCount(ts) == 7
            && CaseAt(ts, 0) == U64
            && CaseAt(ts, 1) == U32 && CaseAt(ts, 2) == U32 && CaseAt(ts, 3) == U32
            && CaseAt(ts, 4) == U32 && CaseAt(ts, 5) == U32
            && CaseAt(ts, 6) == EncodingSchema()
  {
  }

  function ChunkFromRecord(fs: Values): FrameTileChunk
    requires HaveTypes(fs, ChunkFields())
  {
    hide CaseAt, CaseCount, HaveTypes, Field, ChunkFields, HeaderFields;
    ChunkFieldTypes();
    var ts := ChunkFields();
    FrameTileChunk(
      Field(fs, ts, 0).n, Field(fs, ts, 1).n, Field(fs, ts, 2).n, Field(fs, ts, 3).n,
      Field(fs, ts, 4).n, HeaderFrom(Field(fs, ts, 5)), Field(fs, ts, 6).bytes)
  }

  lemma ChunkFromValue(c: FrameTileChunk)
    requires |c.bytes| < TWO_64
    ensures ChunkFrom(DatagramValue(c)) == c
  {
    assert HeaderFrom(HeaderValue(c.header)) == c.header;
  }

  function EncodeDatagram(c: FrameTileChunk): Bytes
    requires |c.bytes| < TWO_64
  {
    Encode(DatagramValue(c), DatagramSchema())
  }

  function DecodeDatagram(bytes: Bytes): Option<FrameTileChunk>
    requires |bytes| < TWO_64
  {
    match Decode(DatagramSchema(), bytes)
    case None => None
    case Some((v, _)) =>
      DecodeTyped(DatagramSchema(), bytes);
      Some(ChunkFrom(v))
  }

  /** A chunk survives the wire, whatever bytes trail it. */
  lemma DatagramRoundTrip(c: FrameTileChunk, trailing: Bytes)
    requires |c.bytes| < TWO_64 && |EncodeDatagram(c) + trailing| < TWO_64
    ensures DecodeDatagram(EncodeDatagram(c) + trailing) == Some(c)
  {
    RoundTrip(DatagramValue(c), DatagramSchema(), trailing);
    ChunkFromValue(c);
  }

  const DATAGRAM_OVERHEAD: nat := 90

  lemma FixedSizesThen(t: Schema, ts: Schemas)
    requires FixedSize(t).Some? && FixedSizes(ts).Some?
    ensures FixedSizes(Then(t, ts)) == Some(FixedSize(t).value + FixedSizes(ts).value)
  {
  }

  /** Three u32 fields in front of others. */
  lemma FixedSizesThree(ts: Schemas)
    requires FixedSizes(ts).Some?
    ensures FixedSizes(Then(U32, Then(U32, Then(U32, ts)))) == Some(15 + FixedSizes(ts).value)
  {
    hide FixedSizes;
    FixedSizesThen(U32, ts);
    FixedSizesThen(U32, Then(U32, ts));
    FixedSizesThen(U32, Then(U32, Then(U32, ts)));
  }

  lemma HeaderFixedSize()
    ensures FixedSizes(HeaderFields()) == Some(40)
  {
    hide FixedSizes, FixedSize;
    assert FixedSize(EncodingSchema()) == Some(5) && FixedSize(U32) == Some(5) && FixedSize(U64) == Some(10)
      && FixedSizes(End) == Some(0) by {
      EncodingFixedSize();
    }
    var h1 := Then(EncodingSchema(), End);
    var h3 := Then(U32, Then(U32, h1));
    FixedSizesThen(EncodingSchema(), End);
    FixedSizesThen(U32, h1);
    FixedSizesThen(U32, Then(U32, h1));
    FixedSizesThree(h3);
    FixedSizesThen(U64, Then(U32, Then(U32, Then(U32, h3))));
  }

  lemma EncodingFixedSize()
    ensures FixedSize(EncodingSchema()) == Some(5) && FixedSize(U32) == Some(5) && FixedSize(U64) == Some(10)
    ensures FixedSize(Blob) == Some(10) && FixedSizes(End) == Some(0)
    ensures forall ts :: FixedSize(Tuple(ts)) == FixedSizes(ts)
  {
    assert FixedSize(Tuple(End)) == Some(0);
  }

  lemma DatagramFixedSize()
    ensures FixedSize(DatagramSchema()) == Some(DATAGRAM_OVERHEAD)
  {
    hide FixedSizes, HeaderFields;
    EncodingFixedSize();
    HeaderFixedSize();
    var c2 := Then(Tuple(HeaderFields()), Then(Blob, End));
    FixedSizesThen(Blob, End);
    FixedSizesThen(Tuple(HeaderFields()), Then(Blob, End));
    FixedSizesThree(c2);
    FixedSizesThen(U64, Then(U32, Then(U32, Then(U32, c2))));
    FixedSizesThen(U64, Then(U64, Then(U32, Then(U32, Then(U32, c2)))));
  }

  lemma HeaderHasNoBlobs(h: FrameTileHeader)
    ensures BlobBytes(HeaderValue(h), Tuple(HeaderFields())) == 0
  {
  }

  lemma BlobBytesThree(a: Value, b: Value, c: Value, vs: Values, ts: Schemas)
    requires HasType(a, U32) && HasType(b, U32) && HasType(c, U32) && HaveTypes(vs, ts)
    ensures HaveTypes(More(a, More(b, More(c, vs))), Then(U32, Then(U32, Then(U32, ts))))
    ensures BlobBytesOf(More(a, More(b, More(c, vs))), Then(U32, Then(U32, Then(U32, ts)))) == BlobBytesOf(vs, ts)
  {
    var ts1, vs1 := Then(U32, ts), More(c, vs);
    assert BlobBytesOf(vs1, ts1) == BlobBytesOf(vs, ts);
    assert BlobBytesOf(More(b, vs1), Then(U32, ts1)) == BlobBytesOf(vs1, ts1);
  }

  lemma BlobBytesOfDatagram(c: FrameTileChunk)
    requires |c.bytes| < TWO_64
    ensures BlobBytes(DatagramValue(c), DatagramSchema()) == |c.bytes|
  {
    hide HeaderValue, HeaderFields;
    HeaderHasNoBlobs(c.header);
    var ts := Then(Tuple(HeaderFields()), Then(Blob, End));
    var v := DatagramValue(c).payload.record;
    var vs := v.tail.tail.tail.tail.tail;
    assert BlobBytesOf(vs, ts) == |c.bytes|;
    BlobBytesThree(Num(c.chunkIndex), Num(c.chunkCount), Num(c.totalLen), vs, ts);
  }

  lemma DatagramSize(c: FrameTileChunk)
    requires |c.bytes| < TWO_64
    ensures |EncodeDatagram(c)| <= DATAGRAM_OVERHEAD + |c.bytes|
  {
    DatagramFixedSize();
    BlobBytesOfDatagram(c);
    SizeBound(DatagramValue(c), DatagramSchema());
  }

  // ---- fragmentation ----------------------------------------------------------

  /** Payload bytes per datagram. */
  function PayloadLimit(maxDatagramSize: nat): (limit: nat)
    ensures 256 <= limit <= 944
  {
    Max(Max(Min(maxDatagramSize, 1200) - 256, 0), 256)
  }

  function ChunkCount(tile: FrameTile, limit: nat): nat
    requires limit > 0
  {
    Max(CeilDiv(|tile.bytes|, limit), 1)
  }

  function ChunkBytes(tile: FrameTile, limit: nat, i: nat): Bytes
    requires limit > 0 && i < ChunkCount(tile, limit)
  {
    if tile.bytes == [] then [] else Slice(tile.bytes, limit, i)
  }

  /** The i-th chunk a tile is sent as. */
  function SentChunk(tile: FrameTile, channelId: u64, frameSeq: u64, limit: nat, i: nat): FrameTileChunk
    requires 0 < limit && |tile.bytes| < TWO_32 && i < ChunkCount(tile, limit)
  {
    CeilDivAtMost(|tile.bytes|, limit);
    FrameTileChunk(channelId, frameSeq, i, ChunkCount(tile, limit), |tile.bytes|, HeaderOf(tile),
                   ChunkBytes(tile, limit, i))
  }

  lemma SentChunkShort(tile: FrameTile, channelId: u64, frameSeq: u64, limit: nat, i: nat)
    requires 0 < limit && |tile.bytes| < TWO_32 && i < ChunkCount(tile, limit)
    ensures |SentChunk(tile, channelId, frameSeq, limit, i).bytes| <= limit
  {
  }

  /** A chunk with room to spare is carried by its own encoding. */
  lemma ChunkIsCarried(c: FrameTileChunk, maxDatagramSize: u64)
    requires DATAGRAM_OVERHEAD + |c.bytes| <= maxDatagramSize
    ensures Carries(EncodeDatagram(c), c, maxDatagramSize)
  {
    hide EncodeDatagram, DecodeDatagram;
    DatagramSize(c);
    assert EncodeDatagram(c) + [] == EncodeDatagram(c);
    DatagramRoundTrip(c, []);
  }

  /** Every chunk the sender makes fits the datagram limit and decodes to itself. */
  lemma SentChunkFits(tile: FrameTile, channelId: u64, frameSeq: u64, maxDatagramSize: u64, i: nat)
    requires maxDatagramSize >= 512 && |tile.bytes| < TWO_32
    requires i < ChunkCount(tile, PayloadLimit(maxDatagramSize))
    ensures var c := SentChunk(tile, channelId, frameSeq, PayloadLimit(maxDatagramSize), i);
            && |c.bytes| < TWO_64 && |EncodeDatagram(c)| <= maxDatagramSize
            && Carries(EncodeDatagram(c), c, maxDatagramSize)
  {
    hide EncodeDatagram, DecodeDatagram, SentChunk, ChunkCount;
    var limit := PayloadLimit(maxDatagramSize);
    SentChunkShort(tile, channelId, frameSeq, limit, i);
    ChunkIsCarried(SentChunk(tile, channelId, frameSeq, limit, i), maxDatagramSize);
  }

  datatype FragmentError = DatagramSizeTooSmall | TooManyChunks | TileTooLarge | EncodedTooLarge

  /** `datagram` is an encoding of `c` within the size limit. */
  predicate Carries(datagram: Bytes, c: FrameTileChunk, maxDatagramSize: u64) {
    && |c.bytes| < TWO_64 && |datagram| <= maxDatagramSize
    && datagram == EncodeDatagram(c) && DecodeDatagram(datagram) == Some(c)
  }

  /** The datagrams carry the first chunks of the tile, in index order. */
  predicate CarryChunks(
    datagrams: seq<Bytes>, tile: FrameTile, channelId: u64, frameSeq: u64, maxDatagramSize: u64)
  {
    && |tile.bytes| < TWO_32
    && |datagrams| <= ChunkCount(tile, PayloadLimit(maxDatagramSize))
    && forall i | 0 <= i < |datagrams| ::
         Carries(datagrams[i], SentChunk(tile, channelId, frameSeq, PayloadLimit(maxDatagramSize), i), maxDatagramSize)
  }

  lemma NextChunk(tile: FrameTile, channelId: u64, frameSeq: u64, limit: nat, index: nat, start: nat)
    requires 0 < limit && |tile.bytes| < TWO_32 && tile.bytes != [] && index < ChunkCount(tile, limit)
    requires start == index * limit < |tile.bytes|
    ensures SentChunk(tile, channelId, frameSeq, limit, index)
         == FrameTileChunk(channelId, frameSeq, index, CeilDiv(|tile.bytes|, limit), |tile.bytes|, HeaderOf(tile),
                           tile.bytes[start..Min(start + limit, |tile.bytes|)])
  {
    CeilDivBounds(|tile.bytes|, limit);
  }

  /** The chunk is piece `i` of `n` of the tile cut every `length` bytes: the tile's
      numbers, and the bytes from `start`, where i pieces end, `length` of them or
      all that are left. */
  predicate IsPiece(
    c: FrameTileChunk, tile: FrameTile, channelId: u64, frameSeq: u64, i: nat, n: nat, start: int, length: nat)
  {
    && c.channelId == channelId && c.frameSeq == frameSeq
    && c.chunkIndex == i && c.chunkCount == n && c.totalLen == |tile.bytes|
    && c.header == FrameTileHeader(tile.id, tile.x, tile.y, tile.w, tile.h, tile.stride, tile.encoding)
    && 0 <= start && start + |c.bytes| <= |tile.bytes|
    && c.bytes == tile.bytes[start..start + |c.bytes|]
    && |c.bytes| == if i < n - 1 then length else |tile.bytes| - start
  }

  predicate CarriesPiece(
    datagram: Bytes, tile: FrameTile, channelId: u64, frameSeq: u64, i: nat, n: nat, length: nat)
  {
    && |datagram| < TWO_64
    && DecodeDatagram(datagram).Some?
    && IsPiece(DecodeDatagram(datagram).value, tile, channelId, frameSeq, i, n, i * length, length)
  }

  /** The datagrams are the tile cut every `length` bytes: as many as that takes,
      and one empty piece for an empty tile. */
  predicate AreTilePieces(
    datagrams: seq<Bytes>, tile: FrameTile, channelId: u64, frameSeq: u64, length: nat)
  {
    && |datagrams| >= 1
    && |tile.bytes| <= |datagrams| * length
    && (|datagrams| == 1 || (|datagrams| - 1) * length < |tile.bytes|)
    && forall i | 0 <= i < |datagrams| ::
         CarriesPiece(datagrams[i], tile, channelId, frameSeq, i, |datagrams|, length)
  }

  lemma ChunkIsPiece(
    datagram: Bytes, tile: FrameTile, channelId: u64, frameSeq: u64, maxDatagramSize: u64, length: nat, i: nat)
    requires length > 0 && |tile.bytes| < TWO_32 && i < ChunkCount(tile, length)
    requires Carries(datagram, SentChunk(tile, channelId, frameSeq, length, i), maxDatagramSize)
    ensures CarriesPiece(datagram, tile, channelId, frameSeq, i, ChunkCount(tile, length), length)
  {
    hide DecodeDatagram, EncodeDatagram;
    var n := ChunkCount(tile, length);
    CeilDivBounds(|tile.bytes|, length);
    if tile.bytes != [] {
      PieceInside(|tile.bytes|, length, i);
      if i < n - 1 {
        PieceInside(|tile.bytes|, length, i + 1);
      } else {
        assert i == n - 1 && |tile.bytes| <= i * length + length;
      }
    } else {
      assert i * length == 0;
    }
  }

  /** The chunks the sender makes are the tile's pieces. */
  lemma ChunksArePieces(
    datagrams: seq<Bytes>, tile: FrameTile, channelId: u64, frameSeq: u64, maxDatagramSize: u64)
    requires maxDatagramSize >= 512
    requires CarryChunks(datagrams, tile, channelId, frameSeq, maxDatagramSize)
    requires |datagrams| == ChunkCount(tile, PayloadLimit(maxDatagramSize))
    ensures AreTilePieces(datagrams, tile, channelId, frameSeq, Min(maxDatagramSize, 1200) - 256)
  {
    hide CarriesPiece, Carries, SentChunk;
    var length := Min(maxDatagramSize, 1200) - 256;
    CeilDivBounds(|tile.bytes|, length);
    forall i | 0 <= i < |datagrams|
      ensures CarriesPiece(datagrams[i], tile, channelId, frameSeq, i, |datagrams|, length)
    {
      ChunkIsPiece(datagrams[i], tile, channelId, frameSeq, maxDatagramSize, length, i);
    }
  }

  lemma TooManyIff(n: nat, d: nat)
    requires d > 0
    ensures CeilDiv(n, d) >= TWO_32 <==> n > (TWO_32 - 1) * d
  {
    CeilDivBounds(n, d);
    if CeilDiv(n, d) >= TWO_32 {
      MulMono(TWO_32 - 1, CeilDiv(n, d) - 1, d);
    } else {
      MulMono(CeilDiv(n, d), TWO_32 - 1, d);
    }
  }

  /** Splits a tile into encoded datagrams. The size checks after each encoding
      never fire, so the only failures are a datagram limit below 512 and a
      tile of 2^32 bytes or more. */
  method FrameTileDatagrams(tile: FrameTile, channelId: u64, frameSeq: u64, maxDatagramSize: u64)
    returns (r: Result<seq<Bytes>, FragmentError>)
    requires |tile.bytes| < TWO_64
    ensures r.Ok? <==> maxDatagramSize >= 512 && |tile.bytes| < TWO_32
    ensures maxDatagramSize < 512 ==> r == Err(DatagramSizeTooSmall)
    ensures r.Err? && maxDatagramSize >= 512 ==>
              r.error == if |tile.bytes| > (TWO_32 - 1) * (Min(maxDatagramSize, 1200) - 256)
                         then TooManyChunks else TileTooLarge
    ensures r.Ok? ==>
              AreTilePieces(r.value, tile, channelId, frameSeq, Min(maxDatagramSize, 1200) - 256)
    ensures r.Ok? ==>
              && |r.value| == ChunkCount(tile, PayloadLimit(maxDatagramSize))
              && CarryChunks(r.value, tile, channelId, frameSeq, maxDatagramSize)
  {
    hide Carries, EncodeDatagram, DecodeDatagram, AreTilePieces;
    if maxDatagramSize < 512 {
      return Err(DatagramSizeTooSmall);
    }
    var limit := PayloadLimit(maxDatagramSize);
    var count := CeilDiv(|tile.bytes|, limit);
    CeilDivAtMost(|tile.bytes|, limit);
    TooManyIff(|tile.bytes|, limit);
    if count >= TWO_32 {
      return Err(TooManyChunks);
    }
    if |tile.bytes| >= TWO_32 {
      return Err(TileTooLarge);
    }
    var header := HeaderOf(tile);
    var datagrams := [];
    if tile.bytes == [] {
      var chunk := FrameTileChunk(channelId, frameSeq, 0, 1, 0, header, []);
      SentChunkFits(tile, channelId, frameSeq, maxDatagramSize, 0);
      var encoded := EncodeDatagram(chunk);
      if |encoded| > maxDatagramSize {
        return Err(EncodedTooLarge);
      }
      datagrams := datagrams + [encoded];
      ChunksArePieces(datagrams, tile, channelId, frameSeq, maxDatagramSize);
      return Ok(datagrams);
    }
    var start := 0;
    while start < |tile.bytes|
      invariant |datagrams| <= count && start == Min(|datagrams| * limit, |tile.bytes|)
      invariant CarryChunks(datagrams, tile, channelId, frameSeq, maxDatagramSize)
      decreases |tile.bytes| - start
    {
      var index := |datagrams|;
      NextPiece(|tile.bytes|, limit, index);
      var end := Min(start + limit, |tile.bytes|);
      var chunk := FrameTileChunk(channelId, frameSeq, index, count, |tile.bytes|, header, tile.bytes[start..end]);
      NextChunk(tile, channelId, frameSeq, limit, index, start);
      SentChunkFits(tile, channelId, frameSeq, maxDatagramSize, index);
      var encoded := EncodeDatagram(chunk);
      if |encoded| > maxDatagramSize {
        return Err(EncodedTooLarge);
      }
      datagrams := datagrams + [encoded];
      start := end;
    }
    LastPiece(|tile.bytes|, limit, |datagrams|);
    ChunksArePieces(datagrams, tile, channelId, frameSeq, maxDatagramSize);
    return Ok(datagrams);
  }

  /** The chunk payloads, in index order, concatenate to the tile. */
  lemma ChunksJoin(tile: FrameTile, limit: nat, parts: seq<Bytes>)
    requires limit > 0 && |parts| == ChunkCount(tile, limit)
    requires forall i | 0 <= i < |parts| :: parts[i] == ChunkBytes(tile, limit, i)
    ensures Flatten(parts) == tile.bytes
  {
    CeilDivBounds(|tile.bytes|, limit);
    if tile.bytes == [] {
      assert parts[..0] == [];
    } else {
      PiecesJoin(parts, tile.bytes, limit);
    }
  }
}
