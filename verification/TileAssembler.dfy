/** The receiver's tile reassembly: a table of partial tiles, bounded in size,
    fed with chunks in whatever order the network delivers them. */
module TileAssembler {
  import opened MachineInts
  import opened Wrappers
  import opened Slices
  import opened TileWire

  const MAX_PENDING_FRAMES: nat := 32
  const MAX_CHUNKS_PER_FRAME: nat := 16_384
  const MAX_FRAME_BYTES: nat := 64 * 1024 * 1024

  type Key = (u64, u64)

  datatype PendingFrameTile = PendingFrameTile(
    header: FrameTileHeader, totalLen: nat, chunks: seq<Option<Bytes>>, received: nat)

  type Table = map<Key, PendingFrameTile>

  function KeyOf(c: FrameTileChunk): Key { (c.channelId, c.frameSeq) }

  // ---- what one push does ----------------------------------------------------

  predicate Acceptable(c: FrameTileChunk) {
    && 0 < c.chunkCount <= MAX_CHUNKS_PER_FRAME
    && c.chunkIndex < c.chunkCount
    && c.totalLen <= MAX_FRAME_BYTES
  }

  predicate Wipes(table: Table, c: FrameTileChunk) {
    Acceptable(c) && KeyOf(c) !in table && |table| >= MAX_PENDING_FRAMES
  }

  function Unfilled(n: nat): (chunks: seq<Option<Bytes>>)
    ensures |chunks| == n && forall i | 0 <= i < n :: chunks[i] == None
  {
    seq(n, _ => None)
  }

  function FreshSlot(c: FrameTileChunk): PendingFrameTile {
    PendingFrameTile(c.header, c.totalLen, Unfilled(c.chunkCount), 0)
  }

  /** The partial tile the chunk is for, created if need be. */
  function SlotFor(table: Table, c: FrameTileChunk): PendingFrameTile {
    if KeyOf(c) in table then table[KeyOf(c)] else FreshSlot(c)
  }

  predicate Agrees(slot: PendingFrameTile, c: FrameTileChunk) {
    slot.totalLen == c.totalLen && slot.header == c.header && |slot.chunks| == c.chunkCount
  }

  predicate Complete(chunks: seq<Option<Bytes>>) {
    forall i | 0 <= i < |chunks| :: chunks[i].Some?
  }

  function Payloads(chunks: seq<Option<Bytes>>): (parts: seq<Bytes>)
    requires Complete(chunks)
    ensures |parts| == |chunks| && forall i | 0 <= i < |parts| :: parts[i] == chunks[i].value
  {
    seq(|chunks|, i requires 0 <= i < |chunks| => chunks[i].value)
  }

  function Filled(slot: PendingFrameTile, c: FrameTileChunk): PendingFrameTile
    requires c.chunkIndex < |slot.chunks|
  {
    slot.(chunks := slot.chunks[c.chunkIndex := Some(c.bytes)], received := slot.received + |c.bytes|)
  }

  /** The table once the chunk's slot is sure to exist: a new key arriving at a
      full table wipes it first. */
  function Entered(table: Table, c: FrameTileChunk): Table {
    (if Wipes(table, c) then map[] else table)[KeyOf(c) := SlotFor(table, c)]
  }

  /** What becomes of a table that has the chunk's slot, and the tile handed on. */
  function Placed(table: Table, c: FrameTileChunk): (Table, Option<FrameTile>)
    requires Acceptable(c) && KeyOf(c) in table
  {
    var slot := table[KeyOf(c)];
    if !Agrees(slot, c) then (table - {KeyOf(c)}, None)
    else if slot.chunks[c.chunkIndex].Some? then (table, None)
    else
      var filled := Filled(slot, c);
      if filled.received > filled.totalLen then (table - {KeyOf(c)}, None)
      else if !Complete(filled.chunks) then (table[KeyOf(c) := filled], None)
      else (table - {KeyOf(c)}, Assembled(filled))
  }

  /** The outcome of one push. */
  function Step(table: Table, c: FrameTileChunk): (Table, Option<FrameTile>) {
    if Acceptable(c) then Placed(Entered(table, c), c) else (table, None)
  }

  /** The tile of a slot with every chunk present. */
  function Assembled(slot: PendingFrameTile): Option<FrameTile>
    requires Complete(slot.chunks)
  {
    var bytes := Flatten(Payloads(slot.chunks));
    if |bytes| == slot.totalLen then Some(slot.header.IntoTile(bytes)) else None
  }

  // ---- what one push never does -------------------------------------------------

  /** The partial tile kept under a key. */
  function Kept(table: Table, key: Key): Option<PendingFrameTile> {
    if key in table then Some(table[key]) else None
  }

  /** No push touches another key, unless it wipes a table of 32 tiles or more to make
      room for a new one. */
  lemma OthersKept(table: Table, c: FrameTileChunk, key: Key)
    requires key != (c.channelId, c.frameSeq)
    requires (c.channelId, c.frameSeq) in table || |table| < 32
    ensures Kept(Step(table, c).0, key) == Kept(table, key)
  {
    hide Assembled, Filled, Complete;
  }

  /** The first chunk of a new tile at a table of 32 or more leaves nothing else there. */
  lemma NewTileWipes(table: Table, c: FrameTileChunk, key: Key)
    requires 0 < c.chunkCount <= 16_384 && c.chunkIndex < c.chunkCount && c.totalLen <= 0x400_0000
    requires (c.channelId, c.frameSeq) !in table && |table| >= 32 && key != (c.channelId, c.frameSeq)
    ensures Kept(Step(table, c).0, key) == None
  {
    hide Assembled, Filled, Complete;
  }

  /** A chunk with impossible numbers changes nothing. */
  lemma ImpossibleChunkIgnored(table: Table, c: FrameTileChunk)
    requires c.chunkCount == 0 || c.chunkCount > 16_384 || c.chunkIndex >= c.chunkCount || c.totalLen > 0x400_0000
    ensures Step(table, c) == (table, None)
  {
  }

  /** A chunk that contradicts what its slot was opened with takes the slot away, with
      all it had gathered, and hands nothing on. */
  lemma ConflictDropsSlot(table: Table, c: FrameTileChunk)
    requires Acceptable(c) && KeyOf(c) in table
    requires var slot := table[KeyOf(c)];
             slot.totalLen != c.totalLen || slot.header != c.header || |slot.chunks| != c.chunkCount
    ensures Kept(Step(table, c).0, KeyOf(c)) == None && Step(table, c).1 == None
  {
  }

  /** A chunk that already came changes nothing, whatever bytes it brings now. */
  lemma DuplicateIgnored(table: Table, c: FrameTileChunk)
    requires Acceptable(c) && KeyOf(c) in table
    requires var slot := table[KeyOf(c)];
             && slot.totalLen == c.totalLen && slot.header == c.header && |slot.chunks| == c.chunkCount
             && slot.chunks[c.chunkIndex].Some?
    ensures Step(table, c) == (table, None)
  {
    assert table[KeyOf(c) := table[KeyOf(c)]] == table;
  }

  /** A new chunk that brings more bytes than the tile announced, counting those already
      there, takes the slot away; one that does not is in the slot afterwards, as long as
      another chunk is missing. */
  lemma OverlongDropsSlot(table: Table, c: FrameTileChunk, missing: nat)
    requires Acceptable(c) && (KeyOf(c) in table || |table| < 32)
    requires KeyOf(c) in table ==>
               var slot := table[KeyOf(c)];
               && slot.totalLen == c.totalLen && slot.header == c.header && |slot.chunks| == c.chunkCount
               && slot.chunks[c.chunkIndex] == None
    requires missing < c.chunkCount && missing != c.chunkIndex
    requires KeyOf(c) in table ==> table[KeyOf(c)].chunks[missing] == None
    ensures var (after, tile) := Step(table, c);
            var held := if KeyOf(c) in table then table[KeyOf(c)].received else 0;
            && tile == None
            && (held + |c.bytes| > c.totalLen ==> Kept(after, KeyOf(c)) == None)
            && (held + |c.bytes| <= c.totalLen ==>
                 && KeyOf(c) in after
                 && var slot := after[KeyOf(c)];
                    && slot.received == held + |c.bytes| && |slot.chunks| == c.chunkCount
                    && slot.totalLen == c.totalLen && slot.header == c.header
                    && slot.chunks[c.chunkIndex] == Some(c.bytes)
                    && forall i | 0 <= i < c.chunkCount && i != c.chunkIndex ::
                         slot.chunks[i] == if KeyOf(c) in table then table[KeyOf(c)].chunks[i] else None)
  {
    var slot := SlotFor(table, c);
    assert Filled(slot, c).chunks[missing] == None;
  }

  method JoinPayloads(chunks: seq<Option<Bytes>>) returns (bytes: Bytes)
    requires Complete(chunks)
    ensures bytes == Flatten(Payloads(chunks))
  {
    ghost var parts := Payloads(chunks);
    bytes := [];
    for i := 0 to |chunks|
      invariant bytes == Flatten(parts[..i])
    {
      FlattenPush(parts[..i], parts[i]);
      assert parts[..i + 1] == parts[..i] + [parts[i]];
      bytes := bytes + chunks[i].value;
    }
    assert parts[..|chunks|] == parts;
  }

  class FrameTileDatagramAssembler {
    var pending: Table

    constructor ()
      ensures pending == map[]
    {
      pending := map[];
    }

    method Push(c: FrameTileChunk) returns (tile: Option<FrameTile>)
      modifies this
      ensures (pending, tile) == Step(old(pending), c)
    {
      if c.chunkCount == 0 || c.chunkCount > MAX_CHUNKS_PER_FRAME || c.chunkIndex >= c.chunkCount {
        return None;
      }
      if c.totalLen > MAX_FRAME_BYTES {
        return None;
      }
      var key := KeyOf(c);
      if key !in pending && |pending| >= MAX_PENDING_FRAMES {
        pending := map[];
      }
      if key !in pending {
        pending := pending[key := FreshSlot(c)];
      }
      assert pending == Entered(old(pending), c);
      tile := Place(c);
    }

    /** The second half of `Push`: put the chunk in its slot. */
    method Place(c: FrameTileChunk) returns (tile: Option<FrameTile>)
      requires Acceptable(c) && KeyOf(c) in pending
      modifies this
      ensures (pending, tile) == Placed(old(pending), c)
    {
      hide Flatten, Payloads;
      var key := KeyOf(c);
      var slot := pending[key];
      if slot.totalLen != c.totalLen || slot.header != c.header || |slot.chunks| != c.chunkCount {
        pending := pending - {key};
        return None;
      }
      if slot.chunks[c.chunkIndex].Some? {
        return None;
      }
      slot := slot.(received := slot.received + |c.bytes|);
      if slot.received > slot.totalLen {
        pending := pending - {key};
        return None;
      }
      slot := slot.(chunks := slot.chunks[c.chunkIndex := Some(c.bytes)]);
      pending := pending[key := slot];
      if exists i | 0 <= i < |slot.chunks| :: slot.chunks[i].None? {
        return None;
      }
      pending := pending - {key};
      assert pending == old(pending) - {key};
      var bytes := JoinPayloads(slot.chunks);
      if |bytes| != slot.totalLen {
        return None;
      }
      return Some(slot.header.IntoTile(bytes));
    }
  }
}
