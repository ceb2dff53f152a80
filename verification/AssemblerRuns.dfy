/** What reassembly guarantees over whole runs: any sequence of pushes, with
    chunks lost, reordered, duplicated and interleaved, and the table wiped
    whenever a new key finds it full. */
module AssemblerRuns {
  import opened Arith
  import opened MachineInts
  import opened Wrappers
  import opened Slices
  import opened TileWire
  import opened TileAssembler

  // ---- runs --------------------------------------------------------------------

  type Trace = seq<FrameTileChunk>

  function TableFrom(start: Table, trace: Trace): Table {
    if trace == [] then start
    else Step(TableFrom(start, trace[..|trace| - 1]), trace[|trace| - 1]).0
  }

  /** What the j-th push hands on. */
  function Output(start: Table, trace: Trace, j: nat): Option<FrameTile>
    requires j < |trace|
  {
    Step(TableFrom(start, trace[..j]), trace[j]).1
  }

  /** A push touches no other key, except that a wipe forgets them all. */
  lemma StepFrame(table: Table, c: FrameTileChunk, key: Key)
    requires key != KeyOf(c)
    ensures var after := Step(table, c).0;
            if Wipes(table, c) then key !in after
            else (key in after <==> key in table) && (key in table ==> after[key] == table[key])
  {
  }

  // ---- the table invariant -------------------------------------------------------

  function StoredLen(chunks: seq<Option<Bytes>>): nat {
    if chunks == [] then 0
    else StoredLen(chunks[..|chunks| - 1]) + OptionLen(chunks[|chunks| - 1])
  }

  function OptionLen(o: Option<Bytes>): nat { if o.Some? then |o.value| else 0 }

  lemma {:induction false} StoredLenUpdate(chunks: seq<Option<Bytes>>, i: nat, o: Option<Bytes>)
    requires i < |chunks|
    ensures StoredLen(chunks[i := o]) == StoredLen(chunks) - OptionLen(chunks[i]) + OptionLen(o)
  {
    var k := |chunks| - 1;
    if i < k {
      assert chunks[i := o][..k] == chunks[..k][i := o];
      StoredLenUpdate(chunks[..k], i, o);
    } else {
      assert chunks[i := o][..k] == chunks[..k];
    }
  }

  lemma {:induction false} StoredLenUnfilled(chunks: seq<Option<Bytes>>)
    requires forall i | 0 <= i < |chunks| :: chunks[i].None?
    ensures StoredLen(chunks) == 0
  {
    if chunks != [] {
      StoredLenUnfilled(chunks[..|chunks| - 1]);
    }
  }

  predicate SomeFilled(chunks: seq<Option<Bytes>>) { exists i | 0 <= i < |chunks| :: chunks[i].Some? }

  predicate SlotInvariant(slot: PendingFrameTile) {
    && |slot.chunks| <= MAX_CHUNKS_PER_FRAME
    && slot.received == StoredLen(slot.chunks)
    && slot.received <= slot.totalLen <= MAX_FRAME_BYTES
    && SomeFilled(slot.chunks)
    && !Complete(slot.chunks)
  }

  predicate TableInvariant(table: Table) {
    && |table| <= MAX_PENDING_FRAMES
    && forall key | key in table :: SlotInvariant(table[key])
  }

  /** The slot a chunk is put in: the invariant, or still empty. */
  lemma FilledKeepsSlot(slot: PendingFrameTile, c: FrameTileChunk)
    requires Acceptable(c) && Agrees(slot, c) && slot.chunks[c.chunkIndex].None?
    requires slot.received == StoredLen(slot.chunks)
    requires Filled(slot, c).received <= slot.totalLen && !Complete(Filled(slot, c).chunks)
    ensures SlotInvariant(Filled(slot, c))
  {
    StoredLenUpdate(slot.chunks, c.chunkIndex, Some(c.bytes));
    assert Filled(slot, c).chunks[c.chunkIndex].Some?;
  }

  lemma SlotForCounts(table: Table, c: FrameTileChunk)
    requires TableInvariant(table)
    ensures SlotFor(table, c).received == StoredLen(SlotFor(table, c).chunks)
  {
    StoredLenUnfilled(Unfilled(c.chunkCount));
  }

  lemma StepKeepsSlots(table: Table, c: FrameTileChunk)
    requires TableInvariant(table)
    ensures forall key | key in Step(table, c).0 :: SlotInvariant(Step(table, c).0[key])
  {
    forall key | key in Step(table, c).0
      ensures SlotInvariant(Step(table, c).0[key])
    {
      if key != KeyOf(c) {
        StepFrame(table, c, key);
      } else if Acceptable(c) {
        StepOwnSlot(table, c);
      }
    }
  }

  lemma StepOwnSlot(table: Table, c: FrameTileChunk)
    requires TableInvariant(table) && Acceptable(c)
    ensures KeyOf(c) in Step(table, c).0 ==> SlotInvariant(Step(table, c).0[KeyOf(c)])
  {
    var slot := SlotFor(table, c);
    SlotForCounts(table, c);
    assert Entered(table, c)[KeyOf(c)] == slot;
    if Agrees(slot, c) && slot.chunks[c.chunkIndex].None? {
      var filled := Filled(slot, c);
      if filled.received <= filled.totalLen && !Complete(filled.chunks) {
        FilledKeepsSlot(slot, c);
      }
    }
  }

  lemma InsertSize<K, V>(m: map<K, V>, k: K, v: V)
    ensures |m[k := v]| == if k in m then |m| else |m| + 1
  {
    if k in m {
      assert m[k := v].Keys == m.Keys;
    } else {
      assert m[k := v].Keys == m.Keys + {k};
    }
  }

  lemma EnteredSize(table: Table, c: FrameTileChunk)
    requires TableInvariant(table) && Acceptable(c)
    ensures |Entered(table, c)| <= MAX_PENDING_FRAMES
  {
    hide SlotInvariant;
    var kept: Table := if Wipes(table, c) then map[] else table;
    InsertSize(kept, KeyOf(c), SlotFor(table, c));
  }

  lemma StepSize(table: Table, c: FrameTileChunk)
    requires TableInvariant(table)
    ensures |Step(table, c).0| <= MAX_PENDING_FRAMES
  {
    if Acceptable(c) {
      EnteredSize(table, c);
      var after := Step(table, c).0;
      assert after.Keys <= Entered(table, c).Keys;
      SubsetSize(after.Keys, Entered(table, c).Keys);
    }
  }

  /** Every push keeps the table within its bounds: at most 32 slots, each with
      an exact byte count within its declared length, something stored and
      something missing. Any chunk at all may arrive. */
  lemma StepKeepsInvariant(table: Table, c: FrameTileChunk)
    requires TableInvariant(table)
    ensures TableInvariant(Step(table, c).0)
  {
    StepSize(table, c);
    StepKeepsSlots(table, c);
  }

  lemma {:induction false} ReachableInvariant(trace: Trace)
    ensures TableInvariant(TableFrom(map[], trace))
  {
    if trace != [] {
      var k := |trace| - 1;
      ReachableInvariant(trace[..k]);
      StepKeepsInvariant(TableFrom(map[], trace[..k]), trace[k]);
    }
  }

  // ---- multiplicity ----------------------------------------------------------------

  /** How often index `i` of `key` was pushed. */
  function Pushes(trace: Trace, key: Key, i: nat): nat {
    if trace == [] then 0
    else
      var c := trace[|trace| - 1];
      Pushes(trace[..|trace| - 1], key, i) + if KeyOf(c) == key && c.chunkIndex == i then 1 else 0
  }

  /** How often a tile with a chunk `i` was handed on for `key`. */
  function Emissions(trace: Trace, key: Key, i: nat): nat {
    if trace == [] then 0
    else
      var k := |trace| - 1;
      Emissions(trace[..k], key, i)
      + if KeyOf(trace[k]) == key && i < trace[k].chunkCount && Output(map[], trace, k).Some? then 1 else 0
  }

  /** One if the table holds chunk `i` of `key`. */
  function Held(table: Table, key: Key, i: nat): nat {
    if key in table && i < |table[key].chunks| && table[key].chunks[i].Some? then 1 else 0
  }

  lemma StepHeld(table: Table, c: FrameTileChunk, key: Key, i: nat)
    ensures var (after, out) := Step(table, c);
            var emitted := if KeyOf(c) == key && i < c.chunkCount && out.Some? then 1 else 0;
            var pushed := if KeyOf(c) == key && c.chunkIndex == i then 1 else 0;
            Held(after, key, i) + emitted <= Held(table, key, i) + pushed
  {
    if KeyOf(c) != key {
      StepFrame(table, c, key);
    } else if Acceptable(c) {
      var slot := SlotFor(table, c);
      assert Entered(table, c)[key] == slot;
      assert Held(map[key := slot], key, i) == Held(table, key, i);
      if Step(table, c).1.Some? && i < c.chunkCount && i != c.chunkIndex {
        assert Filled(slot, c).chunks[i].Some?;
      }
    }
  }

  /** A late duplicate can hand a tile on again, but never more often than the
      rarest of its chunks was pushed. Any chunks at all may arrive. */
  lemma {:induction false} EmissionsBounded(trace: Trace, key: Key, i: nat)
    ensures Emissions(trace, key, i) + Held(TableFrom(map[], trace), key, i) <= Pushes(trace, key, i)
  {
    if trace != [] {
      var k := |trace| - 1;
      EmissionsBounded(trace[..k], key, i);
      StepHeld(TableFrom(map[], trace[..k]), trace[k], key, i);
    }
  }

  /** Exactly-once delivery is false: pushing a one-chunk tile twice hands it on twice. */
  lemma DuplicateEmittedTwice(tile: FrameTile, key: Key)
    requires |tile.bytes| <= 256
    ensures var c := SentChunk(tile, key.0, key.1, 256, 0);
            Emissions([c, c], key, 0) == 2
  {
    var send := Send(tile, 256);
    CeilDivBounds(|tile.bytes|, 256);
    assert ChunkCount(tile, 256) == 1;
    var c := SentChunk(tile, key.0, key.1, 256, 0);
    OneChunkEmitted(map[], key, send);
    assert [c, c][..1] == [c] && [c][..0] == [] && [c, c][..0] == [];
    assert Output(map[], [c], 0) == Some(tile);
    assert TableFrom(map[], [c]) == map[];
    assert Output(map[], [c, c], 1) == Some(tile);
    assert Emissions([c], key, 0) == 1;
  }

  // ---- what the sender sent -----------------------------------------------------------

  datatype Send = Send(tile: FrameTile, limit: nat)

  predicate Sendable(send: Send) {
    |send.tile.bytes| < TWO_32 && 256 <= send.limit <= 944
  }

  function Count(send: Send): nat
    requires Sendable(send)
  {
    ChunkCount(send.tile, send.limit)
  }

  predicate GenuineFor(c: FrameTileChunk, key: Key, send: Send) {
    && Sendable(send)
    && KeyOf(c) == key
    && c.chunkIndex < Count(send)
    && c == SentChunk(send.tile, key.0, key.1, send.limit, c.chunkIndex)
  }

  /** One tile per key, and every chunk that arrives is one of its chunks. */
  predicate Genuine(c: FrameTileChunk, sent: map<Key, Send>) {
    KeyOf(c) in sent && GenuineFor(c, KeyOf(c), sent[KeyOf(c)])
  }

  predicate AllGenuine(trace: Trace, sent: map<Key, Send>) {
    forall j | 0 <= j < |trace| :: Genuine(trace[j], sent)
  }

  predicate ChunksMatch(chunks: seq<Option<Bytes>>, send: Send) {
    && Sendable(send)
    && |chunks| == Count(send)
    && forall i | 0 <= i < |chunks| :: chunks[i].Some? ==> chunks[i].value == ChunkBytes(send.tile, send.limit, i)
  }

  predicate SlotMatches(slot: PendingFrameTile, send: Send) {
    && slot.header == HeaderOf(send.tile)
    && slot.totalLen == |send.tile.bytes|
    && ChunksMatch(slot.chunks, send)
    && slot.received == StoredLen(slot.chunks)
  }

  /** The slot a genuine chunk is put in matches its tile before and after. */
  lemma FilledMatches(slot: PendingFrameTile, c: FrameTileChunk, key: Key, send: Send)
    requires GenuineFor(c, key, send) && SlotMatches(slot, send)
    requires slot.chunks[c.chunkIndex].None?
    ensures Agrees(slot, c) && SlotMatches(Filled(slot, c), send)
    ensures Filled(slot, c).received <= slot.totalLen
  {
    StoredLenUpdate(slot.chunks, c.chunkIndex, Some(c.bytes));
    StoredLenAtMost(Filled(slot, c).chunks, send);
  }

  lemma FreshMatches(c: FrameTileChunk, key: Key, send: Send)
    requires GenuineFor(c, key, send)
    ensures SlotMatches(FreshSlot(c), send)
  {
    StoredLenUnfilled(Unfilled(c.chunkCount));
  }

  /** Bytes stored from the first `k` chunks never exceed the bytes those chunks cover. */
  lemma {:induction false} StoredLenPrefix(chunks: seq<Option<Bytes>>, parts: seq<Bytes>)
    requires |chunks| == |parts|
    requires forall i | 0 <= i < |chunks| :: chunks[i].Some? ==> chunks[i].value == parts[i]
    ensures StoredLen(chunks) <= |Flatten(parts)|
  {
    if chunks != [] {
      var k := |chunks| - 1;
      StoredLenPrefix(chunks[..k], parts[..k]);
    }
  }

  function AllParts(send: Send): (parts: seq<Bytes>)
    requires Sendable(send)
    ensures |parts| == Count(send)
    ensures forall i | 0 <= i < |parts| :: parts[i] == ChunkBytes(send.tile, send.limit, i)
  {
    seq(Count(send), i requires 0 <= i < Count(send) => ChunkBytes(send.tile, send.limit, i))
  }

  lemma StoredLenAtMost(chunks: seq<Option<Bytes>>, send: Send)
    requires ChunksMatch(chunks, send)
    ensures StoredLen(chunks) <= |send.tile.bytes|
  {
    ChunksJoin(send.tile, send.limit, AllParts(send));
    StoredLenPrefix(chunks, AllParts(send));
  }

  lemma AssembledIsTile(slot: PendingFrameTile, send: Send)
    requires SlotMatches(slot, send) && Complete(slot.chunks)
    ensures Assembled(slot) == Some(send.tile)
  {
    ChunksJoin(send.tile, send.limit, Payloads(slot.chunks));
  }

  /** A genuine chunk for a matching slot: what the push does, case by case. */
  lemma StepGenuine(table: Table, c: FrameTileChunk, key: Key, send: Send)
    requires GenuineFor(c, key, send) && Acceptable(c)
    requires key in table ==> SlotMatches(table[key], send)
    ensures var (after, out) := Step(table, c);
            var slot := SlotFor(table, c);
            && SlotMatches(slot, send)
            && if slot.chunks[c.chunkIndex].Some? then key in after && after[key] == slot && out == None
               else
                 && SlotMatches(Filled(slot, c), send)
                 && if Complete(Filled(slot, c).chunks) then key !in after && out == Some(send.tile)
                    else key in after && after[key] == Filled(slot, c) && out == None
  {
    var slot := SlotFor(table, c);
    if key !in table {
      FreshMatches(c, key, send);
    }
    assert Entered(table, c)[key] == slot;
    if slot.chunks[c.chunkIndex].None? {
      FilledMatches(slot, c, key, send);
      if Complete(Filled(slot, c).chunks) {
        AssembledIsTile(Filled(slot, c), send);
      }
    }
  }

  lemma OneChunkEmitted(table: Table, key: Key, send: Send)
    requires Sendable(send) && Count(send) == 1 && |send.tile.bytes| <= MAX_FRAME_BYTES && key !in table
    ensures var c := SentChunk(send.tile, key.0, key.1, send.limit, 0);
            var (after, out) := Step(table, c);
            out == Some(send.tile) && key !in after && (table == map[] ==> after == map[])
  {
    var c := SentChunk(send.tile, key.0, key.1, send.limit, 0);
    StepGenuine(table, c, key, send);
  }

  // ---- integrity -------------------------------------------------------------------------

  predicate TableMatches(table: Table, sent: map<Key, Send>) {
    forall key | key in table :: key in sent && SlotMatches(table[key], sent[key])
  }

  lemma StepKeepsMatches(table: Table, c: FrameTileChunk, sent: map<Key, Send>)
    requires TableMatches(table, sent) && Genuine(c, sent)
    ensures TableMatches(Step(table, c).0, sent)
    ensures Step(table, c).1.Some? ==> Step(table, c).1.value == sent[KeyOf(c)].tile
  {
    if Acceptable(c) {
      StepGenuine(table, c, KeyOf(c), sent[KeyOf(c)]);
    }
    forall key | key in Step(table, c).0
      ensures key in sent && SlotMatches(Step(table, c).0[key], sent[key])
    {
      if key != KeyOf(c) {
        StepFrame(table, c, key);
      }
    }
  }

  lemma {:induction false} RunMatches(trace: Trace, sent: map<Key, Send>)
    requires AllGenuine(trace, sent)
    ensures TableMatches(TableFrom(map[], trace), sent)
  {
    if trace != [] {
      var k := |trace| - 1;
      RunMatches(trace[..k], sent);
      StepKeepsMatches(TableFrom(map[], trace[..k]), trace[k], sent);
    }
  }

  /** Integrity: whatever is lost, repeated, reordered or interleaved, and however
      often the table is wiped, every tile handed on is the tile sent under that
      key, byte for byte. */
  lemma ReassemblyIntegrity(trace: Trace, sent: map<Key, Send>, j: nat)
    requires AllGenuine(trace, sent)
    requires j < |trace| && Output(map[], trace, j).Some?
    ensures KeyOf(trace[j]) in sent && Output(map[], trace, j).value == sent[KeyOf(trace[j])].tile
  {
    RunMatches(trace[..j], sent);
    StepKeepsMatches(TableFrom(map[], trace[..j]), trace[j], sent);
  }

  // ---- completeness ----------------------------------------------------------------------

  predicate Deliverable(send: Send) {
    Sendable(send) && Count(send) <= MAX_CHUNKS_PER_FRAME && |send.tile.bytes| <= MAX_FRAME_BYTES
  }

  /** The indices of `key` pushed so far. */
  function Seen(trace: Trace, key: Key): set<nat> {
    if trace == [] then {}
    else
      var c := trace[|trace| - 1];
      Seen(trace[..|trace| - 1], key) + if KeyOf(c) == key then {c.chunkIndex as nat} else {}
  }

  /** No wipe happens while the key has a slot. */
  predicate Undisturbed(start: Table, trace: Trace, key: Key) {
    forall j | 0 <= j < |trace| ::
      Wipes(TableFrom(start, trace[..j]), trace[j]) ==> key !in TableFrom(start, trace[..j])
  }

  predicate GenuineKey(trace: Trace, key: Key, send: Send) {
    forall j | 0 <= j < |trace| && KeyOf(trace[j]) == key :: GenuineFor(trace[j], key, send)
  }

  function Indices(n: nat): (all: set<nat>)
    ensures forall i: nat :: i in all <==> i < n
  {
    if n == 0 then {} else Indices(n - 1) + {n - 1}
  }

  /** The slot of `key` holds exactly the chunks seen. */
  predicate Tracks(table: Table, key: Key, send: Send, seen: set<nat>) {
    if seen == {} then key !in table
    else
      && key in table
      && SlotMatches(table[key], send)
      && Marks(table[key].chunks, seen)
  }

  lemma StepTracks(table: Table, c: FrameTileChunk, key: Key, send: Send, seen: set<nat>)
    requires Deliverable(send) && Tracks(table, key, send, seen) && seen < Indices(Count(send))
    requires Wipes(table, c) ==> key !in table
    requires KeyOf(c) == key ==> GenuineFor(c, key, send)
    ensures var (after, out) := Step(table, c);
            var seen' := seen + if KeyOf(c) == key then {c.chunkIndex as nat} else {};
            if seen' == Indices(Count(send)) then KeyOf(c) == key && out == Some(send.tile)
            else Tracks(after, key, send, seen') && seen' < Indices(Count(send)) && (KeyOf(c) == key ==> out == None)
  {
    if KeyOf(c) != key {
      StepFrame(table, c, key);
      assert seen + {} == seen;
    } else {
      StepTracksOwn(table, c, key, send, seen);
    }
  }

  lemma StepTracksOwn(table: Table, c: FrameTileChunk, key: Key, send: Send, seen: set<nat>)
    requires Deliverable(send) && Tracks(table, key, send, seen) && seen < Indices(Count(send))
    requires GenuineFor(c, key, send)
    ensures var (after, out) := Step(table, c);
            var seen' := seen + {c.chunkIndex as nat};
            if seen' == Indices(Count(send)) then out == Some(send.tile)
            else Tracks(after, key, send, seen') && seen' < Indices(Count(send)) && out == None
  {
    var slot := SlotFor(table, c);
    StepGenuine(table, c, key, send);
    assert Marks(slot.chunks, seen);
    if slot.chunks[c.chunkIndex].Some? {
      assert seen + {c.chunkIndex as nat} == seen;
    } else {
      MarksCompleteness(slot.chunks, seen, c.chunkIndex, Some(c.bytes));
    }
  }

  /** The filled places are the indices in `seen`. */
  predicate Marks(chunks: seq<Option<Bytes>>, seen: set<nat>) {
    forall i | 0 <= i < |chunks| :: chunks[i].Some? <==> i in seen
  }

  lemma MarksCompleteness(chunks: seq<Option<Bytes>>, seen: set<nat>, i: nat, o: Option<Bytes>)
    requires Marks(chunks, seen) && seen <= Indices(|chunks|) && i < |chunks| && o.Some?
    ensures Marks(chunks[i := o], seen + {i}) && seen + {i} <= Indices(|chunks|)
    ensures Complete(chunks[i := o]) <==> seen + {i} == Indices(|chunks|)
  {
    var after := chunks[i := o];
    if Complete(after) {
      assert forall k | k in Indices(|chunks|) :: after[k].Some?;
    } else {
      var k: nat :| k < |after| && after[k].None?;
      assert k in Indices(|chunks|);
    }
  }

  predicate Silent(start: Table, trace: Trace, key: Key) {
    forall j | 0 <= j < |trace| && KeyOf(trace[j]) == key :: Output(start, trace, j) == None
  }

  lemma WithoutLastOutputs(start: Table, trace: Trace, j: nat)
    requires j < |trace| - 1
    ensures Output(start, trace, j) == Output(start, trace[..|trace| - 1], j)
  {
    hide Step;
    assert trace[..|trace| - 1][..j] == trace[..j];
  }

  lemma SilentAndLast(start: Table, trace: Trace, key: Key)
    requires trace != [] && Silent(start, trace[..|trace| - 1], key)
    requires KeyOf(trace[|trace| - 1]) == key ==> Output(start, trace, |trace| - 1) == None
    ensures Silent(start, trace, key)
  {
    hide Output;
    forall j | 0 <= j < |trace| - 1 && KeyOf(trace[j]) == key
      ensures Output(start, trace, j) == None
    {
      WithoutLastOutputs(start, trace, j);
      assert trace[..|trace| - 1][j] == trace[j];
    }
  }

  lemma WithoutLastUndisturbed(start: Table, trace: Trace, key: Key)
    requires trace != [] && Undisturbed(start, trace, key)
    ensures var front := trace[..|trace| - 1];
            && Undisturbed(start, front, key)
            && (Wipes(TableFrom(start, front), trace[|front|]) ==> key !in TableFrom(start, front))
  {
    hide Step, Wipes, TableFrom;
    var front := trace[..|trace| - 1];
    forall j | 0 <= j < |front| && Wipes(TableFrom(start, front[..j]), front[j])
      ensures key !in TableFrom(start, front[..j])
    {
      assert front[..j] == trace[..j] && front[j] == trace[j];
    }
  }

  lemma SeenGrows(trace: Trace, key: Key)
    requires trace != []
    ensures Seen(trace[..|trace| - 1], key) <= Seen(trace, key)
  {
  }

  lemma {:induction false} RunTracks(start: Table, trace: Trace, key: Key, send: Send)
    requires Deliverable(send) && key !in start
    requires GenuineKey(trace, key, send) && Undisturbed(start, trace, key)
    requires Seen(trace, key) < Indices(Count(send))
    ensures Tracks(TableFrom(start, trace), key, send, Seen(trace, key))
    ensures Silent(start, trace, key)
  {
    if trace != [] {
      hide Step, SlotMatches, GenuineFor, Wipes, Marks, Tracks, Undisturbed, Silent, Deliverable, Count, Indices;
      var k := |trace| - 1;
      var front := trace[..k];
      WithoutLastUndisturbed(start, trace, key);
      SeenGrows(trace, key);
      RunTracks(start, front, key, send);
      StepTracks(TableFrom(start, front), trace[k], key, send, Seen(front, key));
      SilentAndLast(start, trace, key);
    }
  }

  /** Completeness: once every chunk of a deliverable tile has arrived, in any
      order, with repeats and other tiles between, the push that supplies the
      last missing chunk hands the tile on, and no earlier push for that key
      hands anything on. Chunks of other keys may be anything. */
  lemma ReassemblyCompleteness(start: Table, trace: Trace, key: Key, send: Send)
    requires Deliverable(send) && key !in start && trace != []
    requires GenuineKey(trace, key, send) && Undisturbed(start, trace, key)
    requires Seen(trace[..|trace| - 1], key) != Seen(trace, key) == Indices(Count(send))
    ensures Output(start, trace, |trace| - 1) == Some(send.tile)
    ensures Silent(start, trace[..|trace| - 1], key)
  {
    hide Step, SlotMatches, GenuineFor, Wipes, Marks, Tracks, Undisturbed, Silent, Deliverable, Count, Indices;
    var k := |trace| - 1;
    var front := trace[..k];
    WithoutLastUndisturbed(start, trace, key);
    SeenGrows(trace, key);
    RunTracks(start, front, key, send);
    StepTracks(TableFrom(start, front), trace[k], key, send, Seen(front, key));
  }

  // ---- exactly how often a tile is handed on ----------------------------------------------------

  /** Another key's chunk clears the table. */
  predicate ForeignWipe(table: Table, c: FrameTileChunk, key: Key) { KeyOf(c) != key && Wipes(table, c) }

  /** How many times the indices pushed since the last round ended, or since the last
      wipe, became complete; and the indices of the round under way. */
  function Rounds(start: Table, trace: Trace, key: Key, n: nat): (nat, set<nat>) {
    if trace == [] then (0, {})
    else
      var k := |trace| - 1;
      var (done, seen) := Rounds(start, trace[..k], key, n);
      if KeyOf(trace[k]) == key then
        var more := seen + {trace[k].chunkIndex as nat};
        if more == Indices(n) then (done + 1, {}) else (done, more)
      else if ForeignWipe(TableFrom(start, trace[..k]), trace[k], key) then (done, {})
      else (done, seen)
  }

  /** How many pushes for the key hand something on. */
  function HandedOn(start: Table, trace: Trace, key: Key): nat {
    if trace == [] then 0
    else
      var k := |trace| - 1;
      HandedOn(start, trace[..k], key)
      + if KeyOf(trace[k]) == key && Output(start, trace, k).Some? then 1 else 0
  }

  lemma WipeForgets(table: Table, c: FrameTileChunk, key: Key)
    requires ForeignWipe(table, c, key)
    ensures key !in Step(table, c).0
  {
  }

  /** One push of a deliverable tile's run, wipes included. */
  lemma RoundStep(table: Table, c: FrameTileChunk, key: Key, send: Send, seen: set<nat>)
    requires Deliverable(send) && Tracks(table, key, send, seen) && seen < Indices(Count(send))
    requires KeyOf(c) == key ==> GenuineFor(c, key, send)
    ensures var (after, out) := Step(table, c); var more := seen + {c.chunkIndex as nat};
            if KeyOf(c) == key then
              if more == Indices(Count(send)) then out == Some(send.tile) && key !in after
              else out == None && Tracks(after, key, send, more) && more < Indices(Count(send))
            else if ForeignWipe(table, c, key) then key !in after
            else Tracks(after, key, send, seen)
  {
    if KeyOf(c) != key {
      if ForeignWipe(table, c, key) {
        WipeForgets(table, c, key);
      } else {
        StepFrame(table, c, key);
      }
    } else {
      StepTracksOwn(table, c, key, send, seen);
      if seen + {c.chunkIndex as nat} == Indices(Count(send)) {
        hide Tracks, GenuineFor, SlotMatches, Marks;
        EmittedIsRemoved(table, c);
      }
    }
  }

  lemma EmittedIsRemoved(table: Table, c: FrameTileChunk)
    requires Step(table, c).1.Some?
    ensures KeyOf(c) !in Step(table, c).0
  {
  }

  lemma EmptyRound(n: nat)
    requires n > 0
    ensures {} < Indices(n)
  {
    assert 0 in Indices(n);
  }

  /** Exactly how often, with no hypothesis on wipes: the pushes that hand the tile on
      are the ones that complete a round, and between them the table holds exactly the
      chunks of the round under way. Chunks of other keys may be anything. */
  lemma {:induction false} HandedOnIsRounds(start: Table, trace: Trace, key: Key, send: Send)
    requires Deliverable(send) && key !in start && GenuineKey(trace, key, send)
    ensures var (done, seen) := Rounds(start, trace, key, Count(send));
            && HandedOn(start, trace, key) == done
            && Tracks(TableFrom(start, trace), key, send, seen) && seen < Indices(Count(send))
  {
    EmptyRound(Count(send));
    if trace != [] {
      var k := |trace| - 1;
      var front := trace[..k];
      assert GenuineKey(front, key, send);
      HandedOnIsRounds(start, front, key, send);
      RoundStep(TableFrom(start, front), trace[k], key, send, Rounds(start, front, key, Count(send)).1) by {
        assert GenuineKey(trace, key, send);
      }
      hide Step, SlotMatches, GenuineFor, Wipes, Marks, Deliverable, Count, Indices, GenuineKey;
    }
  }

  /** A push for the key hands the tile on if and only if it completes a round. */
  lemma HandsOnIff(start: Table, trace: Trace, key: Key, send: Send, j: nat)
    requires Deliverable(send) && key !in start && GenuineKey(trace, key, send)
    requires j < |trace| && KeyOf(trace[j]) == key
    ensures Output(start, trace, j) == Some(send.tile)
            <==> Rounds(start, trace[..j], key, Count(send)).1 + {trace[j].chunkIndex as nat} == Indices(Count(send))
    ensures Output(start, trace, j).Some? ==> Output(start, trace, j).value == send.tile
  {
    HandedOnIsRounds(start, trace[..j], key, send);
    RoundStep(TableFrom(start, trace[..j]), trace[j], key, send, Rounds(start, trace[..j], key, Count(send)).1);
  }

  // ---- the same, said of the trace ------------------------------------------------------------------

  /** No other key's chunk clears the table at the pushes from `a` to `b`. */
  predicate Unwiped(start: Table, trace: Trace, key: Key, a: nat, b: nat)
    requires a <= b <= |trace|
  {
    forall j | a <= j < b :: !ForeignWipe(TableFrom(start, trace[..j]), trace[j], key)
  }

  /** A stretch of the trace without a wipe in which every index of the key arrives. */
  predicate IsWindow(start: Table, trace: Trace, key: Key, n: nat, a: nat, b: nat) {
    a <= b <= |trace| && Unwiped(start, trace, key, a, b) && Seen(trace[a..b], key) == Indices(n)
  }

  /** There are `m` such stretches, one after the other. */
  ghost predicate HasWindows(start: Table, trace: Trace, key: Key, n: nat, m: nat)
    decreases m
  {
    if m == 0 then true
    else
      exists a: nat, b: nat ::
        a <= |trace| && IsWindow(start, trace, key, n, a, b) && HasWindows(start, trace[..a], key, n, m - 1)
  }

  lemma SeenPush(trace: Trace, key: Key, a: nat)
    requires a < |trace|
    ensures Seen(trace[a..], key)
         == Seen(trace[a..|trace| - 1], key)
            + (if KeyOf(trace[|trace| - 1]) == key then {trace[|trace| - 1].chunkIndex as nat} else {})
  {
    assert trace[a..][..|trace| - a - 1] == trace[a..|trace| - 1];
  }

  predicate RoundBegan(start: Table, trace: Trace, key: Key, n: nat, a: nat) {
    && a <= |trace|
    && Unwiped(start, trace, key, a, |trace|)
    && Seen(trace[a..], key) == Rounds(start, trace, key, n).1
    && Rounds(start, trace[..a], key, n).0 == Rounds(start, trace, key, n).0
  }

  lemma UnwipedPush(start: Table, trace: Trace, key: Key, a: nat)
    requires trace != [] && a < |trace|
    requires Unwiped(start, trace[..|trace| - 1], key, a, |trace| - 1)
    requires !ForeignWipe(TableFrom(start, trace[..|trace| - 1]), trace[|trace| - 1], key)
    ensures Unwiped(start, trace, key, a, |trace|)
  {
    hide ForeignWipe;
    forall j | a <= j < |trace|
      ensures !ForeignWipe(TableFrom(start, trace[..j]), trace[j], key)
    {
      if j < |trace| - 1 {
        assert trace[..|trace| - 1][..j] == trace[..j];
      }
    }
  }

  /** The round under way began somewhere, and nothing has been lost since. */
  lemma {:induction false} RoundBegins(start: Table, trace: Trace, key: Key, n: nat) returns (a: nat)
    ensures RoundBegan(start, trace, key, n, a)
  {
    hide ForeignWipe, Indices;
    if trace == [] || Rounds(start, trace, key, n).1 == {} {
      a := |trace|;
      assert trace[a..] == [] && trace[..a] == trace;
    } else {
      a := RoundBegins(start, trace[..|trace| - 1], key, n);
      RoundGoesOn(start, trace, key, n, a);
    }
  }

  lemma RoundGoesOn(start: Table, trace: Trace, key: Key, n: nat, a: nat)
    requires trace != [] && Rounds(start, trace, key, n).1 != {}
    requires RoundBegan(start, trace[..|trace| - 1], key, n, a)
    ensures RoundBegan(start, trace, key, n, a)
  {
    hide Wipes, Indices, TableFrom;
    var k := |trace| - 1;
    var front := trace[..k];
    assert front[a..] == trace[a..k] && front[..a] == trace[..a];
    SeenPush(trace, key, a);
    UnwipedPush(start, trace, key, a);
  }

  lemma WindowInLonger(start: Table, trace: Trace, key: Key, n: nat, a: nat, b: nat)
    requires trace != [] && IsWindow(start, trace[..|trace| - 1], key, n, a, b)
    ensures IsWindow(start, trace, key, n, a, b)
  {
    hide ForeignWipe;
    var front := trace[..|trace| - 1];
    assert front[a..b] == trace[a..b];
    forall j | a <= j < b
      ensures !ForeignWipe(TableFrom(start, trace[..j]), trace[j], key)
    {
      assert front[..j] == trace[..j];
    }
  }

  lemma WindowsInLonger(start: Table, trace: Trace, key: Key, n: nat, m: nat)
    requires trace != [] && HasWindows(start, trace[..|trace| - 1], key, n, m)
    ensures HasWindows(start, trace, key, n, m)
  {
    hide IsWindow;
    if m > 0 {
      var front := trace[..|trace| - 1];
      var a, b := LastWindow(start, front, key, n, m);
      WindowInLonger(start, trace, key, n, a, b);
      assert front[..a] == trace[..a];
    }
  }

  lemma {:induction false} RoundsGiveWindows(start: Table, trace: Trace, key: Key, n: nat, m: nat)
    requires Rounds(start, trace, key, n).0 >= m
    ensures HasWindows(start, trace, key, n, m)
    decreases |trace|
  {
    hide Rounds, HasWindows, IsWindow;
    if m == 0 {
      ZeroWindows(start, trace, key, n);
    } else {
      NoTraceNoRounds(start, trace, key, n);
      var front := trace[..|trace| - 1];
      if Rounds(start, front, key, n).0 >= m {
        RoundsGiveWindows(start, front, key, n, m);
        WindowsInLonger(start, trace, key, n, m);
      } else {
        OneMoreRound(start, trace, key, n);
        var a := CompletionWindow(start, trace, key, n);
        RoundsGiveWindows(start, trace[..a], key, n, m - 1);
        WindowsFrom(start, trace, key, n, m, a, |trace|);
      }
    }
  }

  lemma ZeroWindows(start: Table, trace: Trace, key: Key, n: nat)
    ensures HasWindows(start, trace, key, n, 0)
  {
  }

  lemma NoTraceNoRounds(start: Table, trace: Trace, key: Key, n: nat)
    ensures trace == [] ==> Rounds(start, trace, key, n).0 == 0
  {
  }

  lemma OneMoreRound(start: Table, trace: Trace, key: Key, n: nat)
    requires trace != []
    ensures Rounds(start, trace, key, n).0 <= Rounds(start, trace[..|trace| - 1], key, n).0 + 1
  {
    hide ForeignWipe, Indices;
  }

  /** The push that completes a round ends a window. */
  lemma CompletionWindow(start: Table, trace: Trace, key: Key, n: nat) returns (a: nat)
    requires trace != []
    requires Rounds(start, trace, key, n).0 == Rounds(start, trace[..|trace| - 1], key, n).0 + 1
    ensures a < |trace| && IsWindow(start, trace, key, n, a, |trace|)
    ensures Rounds(start, trace[..a], key, n).0 + 1 == Rounds(start, trace, key, n).0
  {
    hide ForeignWipe, Indices, Rounds, TableFrom, Seen;
    var k := |trace| - 1;
    var front := trace[..k];
    a := RoundBegins(start, front, key, n);
    CompletesOwn(start, trace, key, n);
    SeenPush(trace, key, a);
    assert front[a..] == trace[a..k] && front[..a] == trace[..a] && trace[a..] == trace[a..|trace|];
    UnwipedPush(start, trace, key, a);
  }

  lemma CompletesOwn(start: Table, trace: Trace, key: Key, n: nat)
    requires trace != []
    requires Rounds(start, trace, key, n).0 == Rounds(start, trace[..|trace| - 1], key, n).0 + 1
    ensures var c := trace[|trace| - 1];
            && KeyOf(c) == key
            && Rounds(start, trace[..|trace| - 1], key, n).1 + {c.chunkIndex as nat} == Indices(n)
            && !ForeignWipe(TableFrom(start, trace[..|trace| - 1]), c, key)
  {
    hide Indices;
  }

  lemma WindowsFrom(start: Table, trace: Trace, key: Key, n: nat, m: nat, a: nat, b: nat)
    requires m > 0 && IsWindow(start, trace, key, n, a, b) && HasWindows(start, trace[..a], key, n, m - 1)
    ensures HasWindows(start, trace, key, n, m)
  {
  }

  lemma {:induction false} RoundsOnlyGrow(start: Table, trace: Trace, key: Key, n: nat, b: nat)
    requires b <= |trace|
    ensures Rounds(start, trace[..b], key, n).0 <= Rounds(start, trace, key, n).0
    decreases |trace|
  {
    hide ForeignWipe, Indices;
    if b == |trace| {
      assert trace[..b] == trace;
    } else {
      var front := trace[..|trace| - 1];
      RoundsOnlyGrow(start, front, key, n, b);
      assert front[..b] == trace[..b];
    }
  }

  /** Without a wipe and without a completion, nothing that arrived is forgotten. */
  lemma {:induction false} RoundStaysOpen(start: Table, trace: Trace, key: Key, n: nat, a: nat)
    requires a <= |trace| && Unwiped(start, trace, key, a, |trace|)
    requires Rounds(start, trace[..a], key, n).0 == Rounds(start, trace, key, n).0
    ensures Seen(trace[a..], key) <= Rounds(start, trace, key, n).1
    decreases |trace|
  {
    hide ForeignWipe, Indices, Rounds, Seen, Unwiped, TableFrom;
    if a < |trace| {
      var front := trace[..|trace| - 1];
      assert front[..a] == trace[..a] && front[a..] == trace[a..|trace| - 1];
      RoundsOnlyGrow(start, front, key, n, a);
      RoundsOnlyGrow(start, trace, key, n, |front|);
      UnwipedFront(start, trace, key, a);
      RoundStaysOpen(start, front, key, n, a);
      SeenPush(trace, key, a);
      OpenRoundStep(start, trace, key, n);
    } else {
      assert trace[a..] == [];
      NothingSeen(key);
    }
  }

  lemma NothingSeen(key: Key)
    ensures Seen([], key) == {}
  {
  }

  lemma OpenRoundStep(start: Table, trace: Trace, key: Key, n: nat)
    requires trace != [] && !ForeignWipe(TableFrom(start, trace[..|trace| - 1]), trace[|trace| - 1], key)
    requires Rounds(start, trace, key, n).0 == Rounds(start, trace[..|trace| - 1], key, n).0
    ensures Rounds(start, trace, key, n).1
         == Rounds(start, trace[..|trace| - 1], key, n).1
            + (if KeyOf(trace[|trace| - 1]) == key then {trace[|trace| - 1].chunkIndex as nat} else {})
  {
    hide Wipes, Indices, TableFrom;
  }

  lemma UnwipedFront(start: Table, trace: Trace, key: Key, a: nat)
    requires a < |trace| && Unwiped(start, trace, key, a, |trace|)
    ensures Unwiped(start, trace[..|trace| - 1], key, a, |trace| - 1)
    ensures !ForeignWipe(TableFrom(start, trace[..|trace| - 1]), trace[|trace| - 1], key)
  {
    hide ForeignWipe;
    var front := trace[..|trace| - 1];
    forall j | a <= j < |front|
      ensures !ForeignWipe(TableFrom(start, front[..j]), front[j], key)
    {
      assert front[..j] == trace[..j];
    }
  }

  lemma UnwipedPrefix(start: Table, trace: Trace, key: Key, a: nat, b: nat)
    requires a <= b <= |trace| && Unwiped(start, trace, key, a, b)
    ensures Unwiped(start, trace[..b], key, a, b)
  {
    hide ForeignWipe;
    forall j | a <= j < b
      ensures !ForeignWipe(TableFrom(start, trace[..b][..j]), trace[..b][j], key)
    {
      assert trace[..b][..j] == trace[..j];
    }
  }

  /** Every window completes a round. */
  lemma WindowCompletes(start: Table, trace: Trace, key: Key, send: Send, a: nat, b: nat)
    requires Deliverable(send) && key !in start && GenuineKey(trace, key, send)
    requires IsWindow(start, trace, key, Count(send), a, b)
    ensures Rounds(start, trace[..b], key, Count(send)).0 > Rounds(start, trace[..a], key, Count(send)).0
  {
    var n := Count(send);
    var upto := trace[..b];
    assert upto[..a] == trace[..a] && upto[a..] == trace[a..b];
    UnwipedPrefix(start, trace, key, a, b);
    RoundsOnlyGrow(start, upto, key, n, a);
    HandedOnIsRounds(start, upto, key, send);
    hide Rounds, ForeignWipe, Unwiped, Tracks, Deliverable, GenuineKey, Indices, Count;
    if Rounds(start, upto, key, n).0 == Rounds(start, trace[..a], key, n).0 {
      RoundStaysOpen(start, upto, key, n, a);
    }
  }

  lemma {:induction false} WindowsGiveRounds(start: Table, trace: Trace, key: Key, send: Send, m: nat)
    requires Deliverable(send) && key !in start && GenuineKey(trace, key, send)
    requires HasWindows(start, trace, key, Count(send), m)
    ensures Rounds(start, trace, key, Count(send)).0 >= m
    decreases m
  {
    hide HasWindows, IsWindow, Rounds, GenuineKey, Indices, Count;
    var n := Count(send);
    if m > 0 {
      var a, b := LastWindow(start, trace, key, n, m);
      GenuinePrefix(trace, key, send, a);
      WindowsGiveRounds(start, trace[..a], key, send, m - 1);
      WindowCompletes(start, trace, key, send, a, b);
      RoundsOnlyGrow(start, trace, key, n, b);
    }
  }

  lemma LastWindow(start: Table, trace: Trace, key: Key, n: nat, m: nat) returns (a: nat, b: nat)
    requires m > 0 && HasWindows(start, trace, key, n, m)
    ensures a <= b <= |trace| && IsWindow(start, trace, key, n, a, b) && HasWindows(start, trace[..a], key, n, m - 1)
  {
    hide IsWindow;
    a, b :| a <= |trace| && IsWindow(start, trace, key, n, a, b) && HasWindows(start, trace[..a], key, n, m - 1);
    WindowBounds(start, trace, key, n, a, b);
  }

  lemma WindowBounds(start: Table, trace: Trace, key: Key, n: nat, a: nat, b: nat)
    requires IsWindow(start, trace, key, n, a, b)
    ensures a <= b <= |trace|
  {
  }

  lemma GenuinePrefix(trace: Trace, key: Key, send: Send, a: nat)
    requires a <= |trace| && GenuineKey(trace, key, send)
    ensures GenuineKey(trace[..a], key, send)
  {
    hide GenuineFor;
  }

  /** The exact law of delivery, repetition and loss: a tile is handed on at least `m`
      times if and only if the trace has `m` stretches, one after the other, in each of
      which all its chunks arrive without a wipe. With m = 1 this is when it arrives at
      all, wipes and everything; with m = 2, when duplicates hand it on again. */
  lemma HandedOnIffWindows(start: Table, trace: Trace, key: Key, send: Send, m: nat)
    requires Deliverable(send) && key !in start && GenuineKey(trace, key, send)
    ensures HandedOn(start, trace, key) >= m <==> HasWindows(start, trace, key, Count(send), m)
  {
    hide HasWindows, Rounds, HandedOn, GenuineKey, Tracks, Count;
    HandedOnIsRounds(start, trace, key, send);
    if Rounds(start, trace, key, Count(send)).0 >= m {
      RoundsGiveWindows(start, trace, key, Count(send), m);
    }
    if HasWindows(start, trace, key, Count(send), m) {
      WindowsGiveRounds(start, trace, key, send, m);
    }
  }

  /** Wipes do lose tiles: with 31 other tiles pending, a single chunk of yet another key
      between the two chunks of a tile is enough, although both chunks arrive. */
  lemma WipeLosesTile(start: Table, key: Key, send: Send, foreign: FrameTileChunk)
    requires Deliverable(send) && Count(send) == 2 && key !in start && |start| == MAX_PENDING_FRAMES - 1
    requires Acceptable(foreign) && KeyOf(foreign) != key && KeyOf(foreign) !in start
    ensures var first := SentChunk(send.tile, key.0, key.1, send.limit, 0);
            var second := SentChunk(send.tile, key.0, key.1, send.limit, 1);
            && GenuineKey([first, foreign, second], key, send)
            && Seen([first, foreign, second], key) == Indices(2)
            && HandedOn(start, [first, foreign, second], key) == 0
  {
    var first := SentChunk(send.tile, key.0, key.1, send.limit, 0);
    var second := SentChunk(send.tile, key.0, key.1, send.limit, 1);
    WipeAfterFirst(start, key, send, foreign);
    TwoGenuine(key, send, foreign);
    hide Step, GenuineFor, GenuineKey, Indices, ForeignWipe, Tracks, TableFrom, Seen, Rounds, HandedOn, Count,
        Acceptable;
    LostRound(start, first, foreign, second, key);
    HandedOnIsRounds(start, [first, foreign, second], key, send);
  }

  lemma WipeAfterFirst(start: Table, key: Key, send: Send, foreign: FrameTileChunk)
    requires Deliverable(send) && Count(send) == 2 && key !in start && |start| == MAX_PENDING_FRAMES - 1
    requires Acceptable(foreign) && KeyOf(foreign) != key && KeyOf(foreign) !in start
    ensures ForeignWipe(Step(start, SentChunk(send.tile, key.0, key.1, send.limit, 0)).0, foreign, key)
  {
    var first := SentChunk(send.tile, key.0, key.1, send.limit, 0);
    TwoIndices();
    assert 1 in {0, 1} && 1 !in {0};
    FirstChunkAdds(start, first, key, send);
    hide Step;
  }

  lemma TwoGenuine(key: Key, send: Send, foreign: FrameTileChunk)
    requires Deliverable(send) && Count(send) == 2 && KeyOf(foreign) != key
    ensures GenuineKey([SentChunk(send.tile, key.0, key.1, send.limit, 0), foreign,
                        SentChunk(send.tile, key.0, key.1, send.limit, 1)], key, send)
  {
    assert GenuineFor(SentChunk(send.tile, key.0, key.1, send.limit, 0), key, send);
    assert GenuineFor(SentChunk(send.tile, key.0, key.1, send.limit, 1), key, send);
    hide GenuineFor, SentChunk;
  }

  lemma LostRound(start: Table, first: FrameTileChunk, foreign: FrameTileChunk, second: FrameTileChunk, key: Key)
    requires KeyOf(first) == key && KeyOf(second) == key && ForeignWipe(Step(start, first).0, foreign, key)
    requires first.chunkIndex == 0 && second.chunkIndex == 1
    ensures var trace := [first, foreign, second];
            Seen(trace, key) == Indices(2) && Rounds(start, trace, key, 2).0 == 0
  {
    assert KeyOf(foreign) != key;
    TwoIndices();
    hide Step, ForeignWipe, TableFrom, Seen, Rounds, Indices;
    BeforeTheWipe(start, first, key);
    var (one, two) := ([first], [first, foreign]);
    assert two == one + [foreign] && [first, foreign, second] == two + [second];
    TracePush(start, one, foreign, key, 2);
    assert Seen(two, key) == {0};
    TracePush(start, two, second, key, 2);
    OneOfTwo();
  }

  lemma BeforeTheWipe(start: Table, first: FrameTileChunk, key: Key)
    requires KeyOf(first) == key && first.chunkIndex == 0
    ensures TableFrom(start, [first]) == Step(start, first).0
    ensures Seen([first], key) == {0} && Rounds(start, [first], key, 2) == (0, {0})
  {
    TwoIndices();
    hide Step, ForeignWipe, TableFrom, Seen, Rounds, Indices;
    assert [first] == [] + [first];
    NoTrace(start, key, 2);
    TracePush(start, [], first, key, 2);
    OneOfTwo();
  }

  lemma OneOfTwo()
    ensures {0} != {0, 1} && {1} != {0, 1}
  {
    assert 1 in {0, 1} && 0 in {0, 1};
  }

  lemma TwoIndices()
    ensures Indices(2) == {0, 1}
  {
    assert Indices(1) == {0};
  }

  lemma NoTrace(start: Table, key: Key, n: nat)
    ensures TableFrom(start, []) == start && Seen([], key) == {} && Rounds(start, [], key, n) == (0, {})
  {
  }

  /** What one more push adds to each of the accounts. */
  lemma TracePush(start: Table, front: Trace, c: FrameTileChunk, key: Key, n: nat)
    ensures var trace := front + [c]; var table := TableFrom(start, front);
            var (done, seen) := Rounds(start, front, key, n); var more := seen + {c.chunkIndex as nat};
            && TableFrom(start, trace) == Step(table, c).0
            && Seen(trace, key) == Seen(front, key) + (if KeyOf(c) == key then {c.chunkIndex as nat} else {})
            && Rounds(start, trace, key, n)
               == if KeyOf(c) == key then if more == Indices(n) then (done + 1, {}) else (done, more)
                  else if ForeignWipe(table, c, key) then (done, {}) else (done, seen)
  {
    hide Step, ForeignWipe, Indices;
    assert (front + [c])[..|front|] == front;
  }

  lemma FirstChunkAdds(start: Table, c: FrameTileChunk, key: Key, send: Send)
    requires Deliverable(send) && key !in start && |start| < MAX_PENDING_FRAMES
    requires GenuineFor(c, key, send) && {c.chunkIndex as nat} != Indices(Count(send))
    ensures Step(start, c).0.Keys == start.Keys + {key} && |Step(start, c).0| == |start| + 1
  {
    EmptyRound(Count(send));
    StepTracksOwn(start, c, key, send, {});
    assert !Wipes(start, c);
    assert {} + {c.chunkIndex as nat} == {c.chunkIndex as nat};
    hide Step, Indices, Marks, SlotMatches, Count, GenuineFor, Wipes;
    var after := Step(start, c).0;
    forall other | other != key
      ensures other in after <==> other in start
    {
      StepFrame(start, c, other);
    }
    assert after.Keys == start.Keys + {key};
    assert |after| == |after.Keys| && |start| == |start.Keys|;
  }

  // ---- when no wipe can happen --------------------------------------------------------------

  function KeysOf(trace: Trace): set<Key> { set c | c in trace :: KeyOf(c) }

  lemma {:induction false} TableKeys(trace: Trace)
    ensures TableFrom(map[], trace).Keys <= KeysOf(trace)
  {
    if trace != [] {
      var k := |trace| - 1;
      TableKeys(trace[..k]);
      assert forall c | c in trace[..k] :: c in trace;
      assert KeyOf(trace[k]) in KeysOf(trace);
      forall key | key in TableFrom(map[], trace)
        ensures key in KeysOf(trace)
      {
        if key != KeyOf(trace[k]) {
          StepFrame(TableFrom(map[], trace[..k]), trace[k], key);
        }
      }
    }
  }

  /** With at most 32 keys in flight the table is never wiped. */
  lemma FewKeysNeverWipe(trace: Trace, j: nat)
    requires j < |trace| && |KeysOf(trace)| <= MAX_PENDING_FRAMES
    ensures !Wipes(TableFrom(map[], trace[..j]), trace[j])
  {
    var table := TableFrom(map[], trace[..j]);
    TableKeys(trace[..j]);
    assert forall c | c in trace[..j] :: c in trace;
    if Wipes(table, trace[j]) {
      assert trace[j] in trace;
      assert table.Keys + {KeyOf(trace[j])} <= KeysOf(trace);
      SubsetSize(table.Keys + {KeyOf(trace[j])}, KeysOf(trace));
    }
  }

  // ---- exactly which tiles can arrive ---------------------------------------------------------

  /** The chunks of a tile in index order. */
  function InOrder(key: Key, send: Send, k: nat): (trace: Trace)
    requires Sendable(send) && k <= Count(send)
    ensures |trace| == k
    ensures forall i | 0 <= i < k :: trace[i] == SentChunk(send.tile, key.0, key.1, send.limit, i)
  {
    seq(k, i requires 0 <= i < k => SentChunk(send.tile, key.0, key.1, send.limit, i))
  }

  lemma {:induction false} SeenInOrder(key: Key, send: Send, k: nat)
    requires Sendable(send) && k <= Count(send)
    ensures Seen(InOrder(key, send, k), key) == Indices(k)
  {
    if k > 0 {
      var trace := InOrder(key, send, k);
      assert trace[..k - 1] == InOrder(key, send, k - 1);
      SeenInOrder(key, send, k - 1);
      assert Indices(k) == Indices(k - 1) + {k - 1};
    }
  }

  lemma InOrderGenuine(key: Key, send: Send, k: nat)
    requires Sendable(send) && k <= Count(send)
    ensures GenuineKey(InOrder(key, send, k), key, send)
    ensures KeysOf(InOrder(key, send, k)) <= {key}
  {
  }

  lemma InOrderUndisturbed(key: Key, send: Send, k: nat)
    requires Sendable(send) && k <= Count(send)
    ensures Undisturbed(map[], InOrder(key, send, k), key)
  {
    hide Step, Wipes;
    var trace := InOrder(key, send, k);
    InOrderGenuine(key, send, k);
    SubsetSize(KeysOf(trace), {key});
    forall j | 0 <= j < |trace|
      ensures !Wipes(TableFrom(map[], trace[..j]), trace[j])
    {
      FewKeysNeverWipe(trace, j);
    }
  }

  lemma OneIndexMore(n: nat)
    requires n > 0
    ensures Indices(n - 1) != Indices(n)
  {
    assert n - 1 in Indices(n) && n - 1 !in Indices(n - 1);
  }

  /** Sent in order with nothing lost, a deliverable tile arrives. */
  lemma InOrderDelivers(key: Key, send: Send)
    requires Deliverable(send)
    ensures var trace := InOrder(key, send, Count(send));
            && GenuineKey(trace, key, send) && trace != []
            && Output(map[], trace, |trace| - 1) == Some(send.tile)
  {
    hide Step, Wipes, Undisturbed, GenuineKey, Output, GenuineFor, Silent, Seen, Indices;
    var n := Count(send);
    var trace := InOrder(key, send, n);
    assert trace[..n - 1] == InOrder(key, send, n - 1);
    SeenInOrder(key, send, n);
    SeenInOrder(key, send, n - 1);
    OneIndexMore(n);
    InOrderGenuine(key, send, n);
    InOrderUndisturbed(key, send, n);
    ReassemblyCompleteness(map[], trace, key, send);
  }

  /** Some run of genuine chunks hands the tile on. */
  ghost predicate CanArrive(key: Key, send: Send) {
    exists trace: Trace, j: nat ::
      && GenuineKey(trace, key, send)
      && j < |trace| && KeyOf(trace[j]) == key
      && Output(map[], trace, j).Some?
  }

  /** A tile can arrive over datagrams exactly when it takes at most 16384 chunks.
      The sender does not check this, so a longer tile is sent and never shown. */
  lemma ArrivesExactlyWhenFewChunks(key: Key, send: Send)
    requires Sendable(send)
    ensures CanArrive(key, send) <==> |send.tile.bytes| <= MAX_CHUNKS_PER_FRAME * send.limit
  {
    var n := |send.tile.bytes|;
    CeilDivBounds(n, send.limit);
    if n <= MAX_CHUNKS_PER_FRAME * send.limit {
      if CeilDiv(n, send.limit) > MAX_CHUNKS_PER_FRAME {
        MulMono(MAX_CHUNKS_PER_FRAME, CeilDiv(n, send.limit) - 1, send.limit);
      }
      InOrderDelivers(key, send);
      var trace := InOrder(key, send, Count(send));
      assert Output(map[], trace, |trace| - 1).Some?;
    } else {
      if CeilDiv(n, send.limit) <= MAX_CHUNKS_PER_FRAME {
        MulMono(CeilDiv(n, send.limit), MAX_CHUNKS_PER_FRAME, send.limit);
      }
      assert Count(send) > MAX_CHUNKS_PER_FRAME;
      forall trace: Trace, j: nat | GenuineKey(trace, key, send) && j < |trace| && KeyOf(trace[j]) == key
        ensures Output(map[], trace, j) == None
      {
        assert trace[j] in trace;
      }
    }
  }

  // ---- from datagrams -------------------------------------------------------------------------

  /** The chunks the reader decodes; a datagram that does not decode is dropped. */
  function Received(datagrams: seq<Bytes>): Trace
    requires forall k | 0 <= k < |datagrams| :: |datagrams[k]| < TWO_64
  {
    if datagrams == [] then []
    else
      var k := |datagrams| - 1;
      Received(datagrams[..k]) + match DecodeDatagram(datagrams[k]) case None => [] case Some(c) => [c]
  }

  /** A datagram some fragmentation of a sent tile produced. */
  predicate FromSender(d: Bytes, sent: map<Key, Send>) {
    exists key, i: nat ::
      && key in sent && Sendable(sent[key]) && i < Count(sent[key])
      && |d| < TWO_64
      && DecodeDatagram(d) == Some(SentChunk(sent[key].tile, key.0, key.1, sent[key].limit, i))
  }

  predicate AllFromSender(datagrams: seq<Bytes>, sent: map<Key, Send>) {
    forall k | 0 <= k < |datagrams| :: |datagrams[k]| < TWO_64 && FromSender(datagrams[k], sent)
  }

  lemma {:induction false} ReceivedGenuine(datagrams: seq<Bytes>, sent: map<Key, Send>)
    requires AllFromSender(datagrams, sent)
    ensures AllGenuine(Received(datagrams), sent)
  {
    hide DecodeDatagram;
    if datagrams != [] {
      var k := |datagrams| - 1;
      ReceivedGenuine(datagrams[..k], sent);
      assert FromSender(datagrams[k], sent);
    }
  }

  /** End to end: feed the assembler any multiset and order of the datagrams that
      fragmentation produced, and every tile it hands on is the one sent. */
  lemma DatagramsToTiles(datagrams: seq<Bytes>, sent: map<Key, Send>, j: nat)
    requires AllFromSender(datagrams, sent)
    requires j < |Received(datagrams)| && Output(map[], Received(datagrams), j).Some?
    ensures var trace := Received(datagrams);
            KeyOf(trace[j]) in sent && Output(map[], trace, j).value == sent[KeyOf(trace[j])].tile
  {
    hide DecodeDatagram, Output;
    ReceivedGenuine(datagrams, sent);
    ReassemblyIntegrity(Received(datagrams), sent, j);
  }

  /** What `FrameTileDatagrams` returns is of that kind. */
  lemma FragmentsAreFromSender(
    datagrams: seq<Bytes>, tile: FrameTile, key: Key, maxDatagramSize: u64, sent: map<Key, Send>)
    requires key in sent && sent[key] == Send(tile, PayloadLimit(maxDatagramSize))
    requires CarryChunks(datagrams, tile, key.0, key.1, maxDatagramSize)
    ensures AllFromSender(datagrams, sent)
  {
    hide DecodeDatagram, EncodeDatagram;
    forall i | 0 <= i < |datagrams|
      ensures |datagrams[i]| < TWO_64 && FromSender(datagrams[i], sent)
    {
      assert Carries(datagrams[i], SentChunk(tile, key.0, key.1, PayloadLimit(maxDatagramSize), i), maxDatagramSize);
    }
  }
}
