/** The bytes themselves: what the encoders put on the wire and on disk, told byte by
    byte and field by field, without the description language. */
module WireLayout {
  import opened MachineInts
  import opened Wrappers
  import opened Arith
  import opened Postcard
  import W = MessageWire
  import F = Framing
  import T = TileWire
  import R = Registry
  import D = SnapshotFile

  // ---- numbers ------------------------------------------------------------------------

  /** The number whose base-128 digits these are, the least first, whatever the top bits. */
  function Base128(bytes: Bytes): nat {
    if bytes == [] then 0 else bytes[0] % 128 + 128 * Base128(bytes[1..])
  }

  /** A varint is the number's base-128 digits, least first, without a leading zero; every
      byte but the last has its top bit set. */
  lemma {:induction false} VarintBytes(n: nat)
    ensures var bytes := EncodeVarint(n);
            && |bytes| >= 1 && Base128(bytes) == n
            && (forall i | 0 <= i < |bytes| - 1 :: bytes[i] >= 128)
            && bytes[|bytes| - 1] < 128
            && (|bytes| > 1 ==> bytes[|bytes| - 1] != 0)
    decreases n
  {
    var bytes := EncodeVarint(n);
    if n < 128 {
      assert bytes[1..] == [];
    } else {
      VarintBytes(n / 128);
      var tail := EncodeVarint(n / 128);
      assert bytes[1..] == tail && bytes[0] % 128 == n % 128;
      assert bytes[|bytes| - 1] == tail[|tail| - 1];
      forall i | 0 <= i < |bytes| - 1
        ensures bytes[i] >= 128
      {
        assert i > 0 ==> bytes[i] == tail[i - 1];
      }
    }
  }

  /** A number in one byte, a signed number folded onto the even and odd ones, and a
      float's bits least byte first. */
  lemma NumberForms(n: int)
    ensures 0 <= n < TWO_8 ==> Encode(Num(n), U8) == [n]
    ensures 0 <= n < TWO_31 ==> Encode(Num(n), I32) == EncodeVarint(2 * n)
    ensures -TWO_31 <= n < 0 ==> Encode(Num(n), I32) == EncodeVarint(-2 * n - 1)
    ensures 0 <= n < TWO_32 ==>
              var b := Encode(Num(n), F32);
              |b| == 4 && n == b[0] as int + 0x100 * b[1] as int + 0x1_0000 * b[2] as int + 0x100_0000 * b[3] as int
  {
    hide EncodeVarint;
    if 0 <= n < TWO_32 {
      LittleEndianDigits(n);
    }
  }

  /** A flag, bytes after their length, and an optional value after a byte that says
      whether it is there. */
  lemma OtherForms(raw: Bytes, v: Value, t: Schema)
    requires HasType(v, t) && |raw| < TWO_64
    ensures Encode(Bool(false), Flag) == [0] && Encode(Bool(true), Flag) == [1]
    ensures Encode(Raw(raw), Blob) == EncodeVarint(|raw|) + raw
    ensures Encode(Absent, Optional(t)) == [0] && Encode(Present(v), Optional(t)) == [1] + Encode(v, t)
  {
    hide EncodeVarint;
  }

  lemma LittleEndianDigits(n: u32)
    ensures var b := LittleEndian32(n);
            n == b[0] as int + 0x100 * b[1] as int + 0x1_0000 * b[2] as int + 0x100_0000 * b[3] as int
  {
    var n1 := n / 0x100;
    var n2 := n / 0x1_0000;
    assert n1 / 0x100 == n2 && n2 / 0x100 == n / 0x100_0000;
    assert n == n % 0x100 + 0x100 * n1;
    assert n1 == n1 % 0x100 + 0x100 * n2;
    assert n2 == n2 % 0x100 + 0x100 * (n2 / 0x100);
  }

  // ---- frames ---------------------------------------------------------------------------

  /** The number four bytes spell, most significant first. */
  function FourBytes(b: Bytes, i: nat): nat
    requires i + 4 <= |b|
  {
    0x100_0000 * b[i] as int + 0x1_0000 * b[i + 1] as int + 0x100 * b[i + 2] as int + b[i + 3] as int
  }

  /** A frame: four bytes that count everything after them, four for the kind, and the
      payload; and what does not fit 64 MiB is not written. */
  lemma FrameHeader(m: Value)
    requires W.IsMessage(m)
    ensures m.Pick? && m.index < 16
    ensures F.EncodeFrame(m).Ok? <==> |F.EncodeMessage(m)| + 4 <= 67_108_864
    ensures F.EncodeFrame(m).Ok? ==>
              var f := F.EncodeFrame(m).value;
              && |f| >= 8 && FourBytes(f, 0) == |f| - 4
              && FourBytes(f, 4) == [1, 2, 3, 10, 11, 90, 91, 92, 20, 100, 101, 200, 300, 301, 400, 410][m.index]
              && f[8..] == F.EncodeMessage(m)
  {
    hide W.IsMessage, W.KindOf, W.KindCode, F.EncodeMessage, F.BigEndian32;
    W.VariantCodes(m);
    if F.EncodeFrame(m).Ok? {
      var payload := F.EncodeMessage(m);
      F.FrameLayout(W.KindOf(m), payload, []);
      var f := F.EncodeFrame(m).value;
      assert f + [] == f;
      BigEndianDigits(|payload| + 4, f, 0);
      BigEndianDigits(W.KindCode(W.KindOf(m)), f, 4);
    }
  }

  lemma BigEndianDigits(n: u32, f: Bytes, i: nat)
    requires i + 4 <= |f| && f[i..i + 4] == F.BigEndian32(n)
    ensures FourBytes(f, i) == n
  {
    hide F.BigEndian32;
    F.BigEndianRoundTrip(n);
    var b := f[i..i + 4];
    assert b[0] == f[i] && b[1] == f[i + 1] && b[2] == f[i + 2] && b[3] == f[i + 3];
  }

  /** The prelude: the letters VBOX and the version, 15. */
  lemma PreludeOnTheWire()
    ensures F.PreludeBytes(F.PROTOCOL_VERSION) == ['V' as u8, 'B' as u8, 'O' as u8, 'X' as u8, 0, 15]
  {
  }

  // ---- datagrams --------------------------------------------------------------------------

  lemma JoinedFirst(part: Bytes, parts: seq<Bytes>)
    ensures F.Joined([part] + parts) == part + F.Joined(parts)
  {
    assert ([part] + parts)[1..] == parts;
  }

  lemma FieldFirst(v: Value, vs: Values, t: Schema, ts: Schemas, parts: seq<Bytes>)
    requires HasType(v, t) && HaveTypes(vs, ts) && EncodeFields(vs, ts) == F.Joined(parts)
    ensures HaveTypes(More(v, vs), Then(t, ts))
    ensures EncodeFields(More(v, vs), Then(t, ts)) == F.Joined([Encode(v, t)] + parts)
  {
    hide Encode, HasType;
    JoinedFirst(Encode(v, t), parts);
  }

  lemma ThreeFirst(a: u32, b: u32, c: u32, vs: Values, ts: Schemas, parts: seq<Bytes>)
    requires HaveTypes(vs, ts) && EncodeFields(vs, ts) == F.Joined(parts)
    ensures var all := More(Num(a), More(Num(b), More(Num(c), vs)));
            var types := Then(U32, Then(U32, Then(U32, ts)));
            && HaveTypes(all, types)
            && EncodeFields(all, types) == F.Joined([EncodeVarint(a), EncodeVarint(b), EncodeVarint(c)] + parts)
  {
    hide EncodeFields, EncodeVarint, HaveTypes, F.Joined;
    FieldFirst(Num(c), vs, U32, ts, parts);
    FieldFirst(Num(b), More(Num(c), vs), U32, Then(U32, ts), [EncodeVarint(c)] + parts);
    FieldFirst(Num(a), More(Num(b), More(Num(c), vs)), U32, Then(U32, Then(U32, ts)),
               [EncodeVarint(b)] + ([EncodeVarint(c)] + parts));
    assert [EncodeVarint(a)] + ([EncodeVarint(b)] + ([EncodeVarint(c)] + parts))
        == [EncodeVarint(a), EncodeVarint(b), EncodeVarint(c)] + parts;
  }

  lemma NumberForm(n: u64)
    ensures HasType(Num(n), U64) && Encode(Num(n), U64) == EncodeVarint(n)
    ensures n < TWO_32 ==> HasType(Num(n), U32) && Encode(Num(n), U32) == EncodeVarint(n)
  {
  }

  function HeaderParts(h: T.FrameTileHeader): seq<Bytes> {
    [EncodeVarint(h.id), EncodeVarint(h.x), EncodeVarint(h.y), EncodeVarint(h.w), EncodeVarint(h.h),
     EncodeVarint(h.stride), [if h.encoding == T.RawRgba then 0 else 1]]
  }

  lemma EncodingLayout(e: T.PixelEncoding)
    ensures Encode(T.EncodingValue(e), T.EncodingSchema()) == [if e == T.RawRgba then 0 else 1]
  {
    assert EncodeVarint(0) == [0] && EncodeVarint(1) == [1];
    assert Encode(Record(Last), Tuple(End)) == [];
  }

  lemma HeaderLayout(h: T.FrameTileHeader)
    ensures Encode(T.HeaderValue(h), Tuple(T.HeaderFields())) == F.Joined(HeaderParts(h))
  {
    hide EncodeVarint, F.Joined, T.EncodingValue, T.EncodingSchema;
    var e := T.EncodingValue(h.encoding);
    var last := [Encode(e, T.EncodingSchema())];
    NumberForm(h.id);
    NumberForm(h.x);
    NumberForm(h.y);
    EncodingLayout(h.encoding);
    NothingJoined();
    FieldFirst(e, Last, T.EncodingSchema(), End, []);
    assert last + [] == last;
    hide EncodeFields, HaveTypes, Encode;
    var v1 := More(e, Last);
    var t1 := Then(T.EncodingSchema(), End);
    ThreeFirst(h.w, h.h, h.stride, v1, t1, last);
    var v4 := More(Num(h.w), More(Num(h.h), More(Num(h.stride), v1)));
    var t4 := Then(U32, Then(U32, Then(U32, t1)));
    var p4 := [EncodeVarint(h.w), EncodeVarint(h.h), EncodeVarint(h.stride)] + last;
    FieldFirst(Num(h.y), v4, U32, t4, p4);
    FieldFirst(Num(h.x), More(Num(h.y), v4), U32, Then(U32, t4), [EncodeVarint(h.y)] + p4);
    FieldFirst(Num(h.id), More(Num(h.x), More(Num(h.y), v4)), U64, Then(U32, Then(U32, t4)),
               [EncodeVarint(h.x)] + ([EncodeVarint(h.y)] + p4));
    assert [EncodeVarint(h.id)] + ([EncodeVarint(h.x)] + ([EncodeVarint(h.y)] + p4)) == HeaderParts(h);
  }

  function ChunkParts(c: T.FrameTileChunk): seq<Bytes>
    requires |c.bytes| < TWO_64
  {
    [EncodeVarint(c.channelId), EncodeVarint(c.frameSeq), EncodeVarint(c.chunkIndex), EncodeVarint(c.chunkCount),
     EncodeVarint(c.totalLen), F.Joined(HeaderParts(c.header)), EncodeVarint(|c.bytes|) + c.bytes]
  }

  lemma ChunkLayout(c: T.FrameTileChunk)
    requires |c.bytes| < TWO_64
    ensures Encode(T.DatagramValue(c).payload, Tuple(T.ChunkFields())) == F.Joined(ChunkParts(c))
  {
    hide EncodeVarint, F.Joined, T.HeaderValue, T.HeaderFields;
    var last := [EncodeVarint(|c.bytes|) + c.bytes];
    NumberForm(c.channelId);
    NumberForm(c.frameSeq);
    HeaderLayout(c.header);
    NothingJoined();
    FieldFirst(Raw(c.bytes), Last, Blob, End, []);
    assert last + [] == last;
    hide HeaderParts, EncodeFields, HaveTypes, HasType;
    var v1 := More(Raw(c.bytes), Last);
    var t1 := Then(Blob, End);
    FieldFirst(T.HeaderValue(c.header), v1, Tuple(T.HeaderFields()), t1, last);
    var v2 := More(T.HeaderValue(c.header), v1);
    var t2 := Then(Tuple(T.HeaderFields()), t1);
    var p2 := [F.Joined(HeaderParts(c.header))] + last;
    ThreeFirst(c.chunkIndex, c.chunkCount, c.totalLen, v2, t2, p2);
    var v5 := More(Num(c.chunkIndex), More(Num(c.chunkCount), More(Num(c.totalLen), v2)));
    var t5 := Then(U32, Then(U32, Then(U32, t2)));
    var p5 := [EncodeVarint(c.chunkIndex), EncodeVarint(c.chunkCount), EncodeVarint(c.totalLen)] + p2;
    FieldFirst(Num(c.frameSeq), v5, U64, t5, p5);
    FieldFirst(Num(c.channelId), More(Num(c.frameSeq), v5), U64, Then(U64, t5), [EncodeVarint(c.frameSeq)] + p5);
    assert [EncodeVarint(c.channelId)] + ([EncodeVarint(c.frameSeq)] + p5) == ChunkParts(c);
  }

  /** A datagram, field by field: a zero, the chunk's numbers, the tile's header, and the
      bytes after their length. */
  lemma DatagramLayout(c: T.FrameTileChunk)
    requires |c.bytes| < TWO_64
    ensures T.EncodeDatagram(c) == [0] + F.Joined(ChunkParts(c))
  {
    hide T.ChunkFields, ChunkParts, F.Joined, T.HeaderValue;
    ChunkLayout(c);
    assert EncodeVarint(0) == [0];
  }

  // ---- the state file ------------------------------------------------------------------------

  /** One entry of the state file: the name after its length, the port, the server's pid
      and the applications' pids after their number. */
  function EntryParts(e: R.InstanceSnapshot): seq<Bytes> {
    [EncodeVarint(|e.name|) + e.name, EncodeVarint(e.port), EncodeVarint(e.serverPid),
     EncodeVarint(|e.appPids|) + PidBytes(e.appPids)]
  }

  function PidBytes(pids: seq<u32>): Bytes {
    if pids == [] then [] else EncodeVarint(pids[0]) + PidBytes(pids[1..])
  }

  function EntriesBytes(s: R.Snapshot): Bytes {
    if s == [] then [] else F.Joined(EntryParts(s[0])) + EntriesBytes(s[1..])
  }

  lemma {:induction false} PidsLayout(pids: seq<u32>)
    ensures var vs := D.PidValues(pids);
            (forall i | 0 <= i < |vs| :: HasType(vs[i], U32)) && EncodeItems(vs, U32) == PidBytes(pids)
    decreases |pids|
  {
    if pids != [] {
      PidsLayout(pids[1..]);
      assert D.PidValues(pids)[1..] == D.PidValues(pids[1..]);
      NumberForm(pids[0]);
    }
  }

  lemma EntryLayout(e: R.InstanceSnapshot)
    requires D.StorableEntry(e)
    ensures HasType(D.EntryValue(e), D.EntrySchema())
    ensures Encode(D.EntryValue(e), D.EntrySchema()) == F.Joined(EntryParts(e))
  {
    D.EntryTyped(e);
    PidsLayout(e.appPids);
    hide EncodeVarint, PidBytes, EncodeItems, ValidUtf8, F.Joined;
    var apps := Items(D.PidValues(e.appPids));
    assert HasType(apps, List(U32)) && Encode(apps, List(U32)) == EncodeVarint(|e.appPids|) + PidBytes(e.appPids);
    NumberForm(e.serverPid);
    assert HasType(Num(e.port), U16) && Encode(Num(e.port), U16) == EncodeVarint(e.port);
    assert HasType(Raw(e.name), Text) && Encode(Raw(e.name), Text) == EncodeVarint(|e.name|) + e.name;
    NothingJoined();
    FieldFirst(apps, Last, List(U32), End, []);
    var p1 := [EncodeVarint(|e.appPids|) + PidBytes(e.appPids)];
    assert p1 + [] == p1;
    FieldFirst(Num(e.serverPid), More(apps, Last), U32, Then(List(U32), End), p1);
    var v2 := More(Num(e.serverPid), More(apps, Last));
    var t2 := Then(U32, Then(List(U32), End));
    FieldFirst(Num(e.port), v2, U16, t2, [EncodeVarint(e.serverPid)] + p1);
    FieldFirst(Raw(e.name), More(Num(e.port), v2), Text, Then(U16, t2),
               [EncodeVarint(e.port)] + ([EncodeVarint(e.serverPid)] + p1));
    assert [EncodeVarint(|e.name|) + e.name] + ([EncodeVarint(e.port)] + ([EncodeVarint(e.serverPid)] + p1))
        == EntryParts(e);
  }

  lemma {:induction false} EntriesLayout(s: R.Snapshot)
    requires forall i | 0 <= i < |s| :: D.StorableEntry(s[i])
    ensures var vs := D.EntryValues(s);
            && (forall i | 0 <= i < |vs| :: HasType(vs[i], D.EntrySchema()))
            && EncodeItems(vs, D.EntrySchema()) == EntriesBytes(s)
    decreases |s|
  {
    hide D.EntrySchema, D.EntryValue, D.StorableEntry, EntryParts, Encode, HasType;
    if s != [] {
      EntryLayout(s[0]);
      EntriesLayout(s[1..]);
      assert D.EntryValues(s)[1..] == D.EntryValues(s[1..]);
    }
  }

  /** The state file: the entries, in the order the snapshot lists them, after their number. */
  lemma SnapshotLayout(s: R.Snapshot)
    requires D.Storable(s)
    ensures D.SnapshotBytes(s) == EncodeVarint(|s|) + EntriesBytes(s)
  {
    hide D.EntrySchema, EntriesBytes, EncodeVarint, EncodeItems;
    EntriesLayout(s);
    D.SnapshotTyped(s);
    var list := Items(D.EntryValues(s));
    assert HasType(list, List(D.EntrySchema()));
    assert Encode(list, List(D.EntrySchema())) == EncodeVarint(|s|) + EntriesBytes(s);
    NothingJoined();
    FieldFirst(list, Last, List(D.EntrySchema()), End, []);
    JoinedFirst(Encode(list, List(D.EntrySchema())), []);
  }

  lemma NothingJoined()
    ensures EncodeFields(Last, End) == F.Joined([])
  {
  }
}
