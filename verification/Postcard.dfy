/** The postcard wire format, driven by a description of the type being coded.

    Every message, datagram and snapshot of the program is a plain serde type,
    so one description language (`Schema`) and one universe of values (`Value`)
    cover all of them, and one round-trip theorem serves them all. Integers
    wider than a byte use the "varint encoded integers" section of the Postcard
    wire format specification; signed ones are zigzagged first. */
module Postcard {
  import opened MachineInts
  import opened Wrappers
  import opened Arith

  // ---- varints -----------------------------------------------------------

  /** Little-endian base-128 digits, all but the last with the top bit set. */
  function EncodeVarint(n: nat): (bytes: Bytes)
    decreases n
  {
    if n < 128 then [n] else [n % 128 + 128] + EncodeVarint(n / 128)
  }

  /** Reads one varint of at most `limit` bytes whose last possible byte may not
      exceed `top`; yields the number and the bytes that follow it. */
  function DecodeVarint(bytes: Bytes, limit: nat, top: nat): Option<(nat, Bytes)>
  {
    if limit == 0 || bytes == [] then None
    else if bytes[0] < 128 then
      if limit == 1 && bytes[0] > top then None else Some((bytes[0], bytes[1..]))
    else
      match DecodeVarint(bytes[1..], limit - 1, top)
      case None => None
      case Some((high, rest)) => Some((bytes[0] - 128 + 128 * high, rest))
  }

  /** How many numbers fit `limit` varint bytes when the last one is at most `top`. */
  function Capacity(limit: nat, top: nat): nat
    requires limit > 0
  {
    if limit == 1 then top + 1 else 128 * Capacity(limit - 1, top)
  }

  lemma {:induction false} VarintRoundTrip(n: nat, limit: nat, top: nat, rest: Bytes)
    requires limit > 0 && top < 128 && n < Capacity(limit, top)
    ensures DecodeVarint(EncodeVarint(n) + rest, limit, top) == Some((n, rest))
    ensures 1 <= |EncodeVarint(n)| <= limit
    decreases limit
  {
    var bytes := EncodeVarint(n) + rest;
    if n < 128 {
      assert bytes[1..] == rest;
    } else {
      VarintRoundTrip(n / 128, limit - 1, top, rest);
      assert bytes[1..] == EncodeVarint(n / 128) + rest;
    }
  }

  /** What the reader accepts stays inside the width, and consumes a prefix. */
  lemma {:induction false} VarintInRange(bytes: Bytes, limit: nat, top: nat)
    requires limit > 0 && top < 128
    requires DecodeVarint(bytes, limit, top).Some?
    ensures DecodeVarint(bytes, limit, top).value.0 < Capacity(limit, top)
    ensures var rest := DecodeVarint(bytes, limit, top).value.1;
            |rest| < |bytes| && rest == bytes[|bytes| - |rest|..]
    decreases limit
  {
    if bytes[0] < 128 {
      if limit > 1 {
        CapacityAtLeastByte(limit, top);
      }
    } else {
      VarintInRange(bytes[1..], limit - 1, top);
    }
  }

  lemma {:induction false} CapacityAtLeastByte(limit: nat, top: nat)
    requires limit > 1
    ensures Capacity(limit, top) >= 128
    decreases limit
  {
    if limit > 2 {
      CapacityAtLeastByte(limit - 1, top);
    }
  }

  lemma WidthCapacities()
    ensures Capacity(3, 3) == TWO_16
    ensures Capacity(5, 15) == TWO_32
    ensures Capacity(10, 1) == TWO_64
  {
    assert Capacity(2, 3) == 128 * 4;
    assert Capacity(2, 15) == 128 * 16 && Capacity(3, 15) == 128 * 128 * 16;
    assert Capacity(2, 1) == 256 && Capacity(3, 1) == 256 * 128;
    assert Capacity(4, 1) == 256 * 128 * 128 && Capacity(5, 1) == 0x2000_0000;
    assert Capacity(6, 1) == 0x10_0000_0000 && Capacity(7, 1) == 0x800_0000_0000;
    assert Capacity(8, 1) == 0x4_0000_0000_0000 && Capacity(9, 1) == 0x200_0000_0000_0000;
  }

  // ---- types and values ---------------------------------------------------

  datatype Schema =
    | U8 | Flag | U16 | U32 | U64 | I32 | F32
    | Blob
    | Text
    | Optional(some: Schema)
    | List(item: Schema)
    | Tuple(fields: Schemas)
    | Choice(cases: Schemas)

  datatype Schemas = End | Then(head: Schema, tail: Schemas)

  datatype Value =
    | Num(n: int)
    | Bool(b: bool)
    | Raw(bytes: Bytes)
    | Absent
    | Present(inner: Value)
    | Items(items: seq<Value>)
    | Record(record: Values)
    | Pick(index: nat, payload: Value)

  datatype Values = Last | More(head: Value, tail: Values)

  function CaseCount(cases: Schemas): nat {
    match cases
    case End => 0
    case Then(_, tail) => 1 + CaseCount(tail)
  }

  function CaseAt(cases: Schemas, i: nat): (s: Schema)
    requires i < CaseCount(cases)
    ensures s < cases
    decreases i
  {
    if i == 0 then cases.head else CaseAt(cases.tail, i - 1)
  }

  /** UTF-8 well-formedness, Table 3-7 of the Unicode Standard. */
  predicate ValidUtf8(bytes: Bytes) {
    if bytes == [] then true
    else if bytes[0] < 0x80 then ValidUtf8(bytes[1..])
    else if 0xC2 <= bytes[0] < 0xE0 then
      |bytes| >= 2 && Continuation(bytes[1]) && ValidUtf8(bytes[2..])
    else if 0xE0 <= bytes[0] < 0xF0 then
      && |bytes| >= 3 && Continuation(bytes[1]) && Continuation(bytes[2])
      && (bytes[0] == 0xE0 ==> bytes[1] >= 0xA0)
      && (bytes[0] == 0xED ==> bytes[1] < 0xA0)
      && ValidUtf8(bytes[3..])
    else if 0xF0 <= bytes[0] < 0xF5 then
      && |bytes| >= 4 && Continuation(bytes[1]) && Continuation(bytes[2]) && Continuation(bytes[3])
      && (bytes[0] == 0xF0 ==> bytes[1] >= 0x90)
      && (bytes[0] == 0xF4 ==> bytes[1] < 0x90)
      && ValidUtf8(bytes[4..])
    else false
  }

  predicate Continuation(b: u8) { 0x80 <= b < 0xC0 }

  predicate HasType(v: Value, s: Schema)
    decreases s
  {
    match s
    case U8 => v.Num? && 0 <= v.n < TWO_8
    case U16 => v.Num? && 0 <= v.n < TWO_16
    case U32 => v.Num? && 0 <= v.n < TWO_32
    case F32 => v.Num? && 0 <= v.n < TWO_32
    case U64 => v.Num? && 0 <= v.n < TWO_64
    case I32 => v.Num? && -TWO_31 <= v.n < TWO_31
    case Flag => v.Bool?
    case Blob => v.Raw? && |v.bytes| < TWO_64
    case Text => v.Raw? && |v.bytes| < TWO_64 && ValidUtf8(v.bytes)
    case Optional(t) => v.Absent? || (v.Present? && HasType(v.inner, t))
    case List(t) => v.Items? && |v.items| < TWO_64 && forall i | 0 <= i < |v.items| :: HasType(v.items[i], t)
    case Tuple(ts) => v.Record? && HaveTypes(v.record, ts)
    case Choice(ts) =>
      v.Pick? && v.index < CaseCount(ts) && v.index < TWO_32 && HasType(v.payload, CaseAt(ts, v.index))
  }

  predicate HaveTypes(vs: Values, ts: Schemas)
    decreases ts
  {
    match (vs, ts)
    case (Last, End) => true
    case (More(v, vs'), Then(t, ts')) => HasType(v, t) && HaveTypes(vs', ts')
    case _ => false
  }

  /** The k-th field of a record. */
  function Field(vs: Values, ts: Schemas, k: nat): (v: Value)
    requires HaveTypes(vs, ts) && k < CaseCount(ts)
    ensures HasType(v, CaseAt(ts, k))
    decreases k
  {
    if k == 0 then vs.head else Field(vs.tail, ts.tail, k - 1)
  }

  // ---- encoding -----------------------------------------------------------

  function Zigzag(n: int): (z: nat)
    ensures -TWO_31 <= n < TWO_31 ==> z < TWO_32
  {
    if n >= 0 then 2 * n else -2 * n - 1
  }

  function Unzigzag(z: nat): int {
    if z % 2 == 0 then z / 2 else -(z / 2) - 1
  }

  function LittleEndian32(n: u32): (bytes: Bytes)
    ensures |bytes| == 4
  {
    [n % 0x100, n / 0x100 % 0x100, n / 0x1_0000 % 0x100, n / 0x100_0000]
  }

  function FromLittleEndian32(bytes: Bytes): nat
    requires |bytes| == 4
  {
    bytes[0] as int + 0x100 * bytes[1] as int + 0x1_0000 * bytes[2] as int + 0x100_0000 * bytes[3] as int
  }

  function Encode(v: Value, s: Schema): Bytes
    requires HasType(v, s)
    decreases v, 0
  {
    match s
    case U8 => [v.n]
    case Flag => [if v.b then 1 else 0]
    case U16 => EncodeVarint(v.n)
    case U32 => EncodeVarint(v.n)
    case U64 => EncodeVarint(v.n)
    case I32 => EncodeVarint(Zigzag(v.n))
    case F32 => LittleEndian32(v.n)
    case Blob => EncodeVarint(|v.bytes|) + v.bytes
    case Text => EncodeVarint(|v.bytes|) + v.bytes
    case Optional(t) => if v.Absent? then [0] else [1] + Encode(v.inner, t)
    case List(t) => EncodeVarint(|v.items|) + EncodeItems(v.items, t)
    case Tuple(ts) => EncodeFields(v.record, ts)
    case Choice(ts) => EncodeVarint(v.index) + Encode(v.payload, CaseAt(ts, v.index))
  }

  function EncodeItems(vs: seq<Value>, t: Schema): Bytes
    requires forall i | 0 <= i < |vs| :: HasType(vs[i], t)
    decreases vs, 1
  {
    if vs == [] then [] else Encode(vs[0], t) + EncodeItems(vs[1..], t)
  }

  function EncodeFields(vs: Values, ts: Schemas): Bytes
    requires HaveTypes(vs, ts)
    decreases vs, 0
  {
    match vs
    case Last => []
    case More(v, vs') => Encode(v, ts.head) + EncodeFields(vs', ts.tail)
  }

  // ---- decoding -----------------------------------------------------------

  /** A value and the bytes after it, or nothing when the input is malformed. */
  type Decoded<T> = Option<(T, Bytes)>

  function DecodeNat(bytes: Bytes, limit: nat, top: nat): Decoded<Value> {
    match DecodeVarint(bytes, limit, top)
    case None => None
    case Some((n, rest)) => Some((Num(n), rest))
  }

  function DecodeRaw(bytes: Bytes): Decoded<Value> {
    match DecodeVarint(bytes, 10, 1)
    case None => None
    case Some((n, rest)) => if |rest| < n then None else Some((Raw(rest[..n]), rest[n..]))
  }

  function Decode(s: Schema, bytes: Bytes): Decoded<Value>
    decreases s, 0, 0
  {
    match s
    case U8 => if bytes == [] then None else Some((Num(bytes[0]), bytes[1..]))
    case Flag =>
      if bytes == [] || bytes[0] > 1 then None else Some((Bool(bytes[0] == 1), bytes[1..]))
    case U16 => DecodeNat(bytes, 3, 3)
    case U32 => DecodeNat(bytes, 5, 15)
    case U64 => DecodeNat(bytes, 10, 1)
    case I32 =>
      (match DecodeVarint(bytes, 5, 15)
       case None => None
       case Some((z, rest)) => Some((Num(Unzigzag(z)), rest)))
    case F32 =>
      if |bytes| < 4 then None else Some((Num(FromLittleEndian32(bytes[..4])), bytes[4..]))
    case Blob => DecodeRaw(bytes)
    case Text =>
      (match DecodeRaw(bytes)
       case None => None
       case Some((v, rest)) => if v.Raw? && ValidUtf8(v.bytes) then Some((v, rest)) else None)
    case Optional(t) =>
      if bytes == [] || bytes[0] > 1 then None
      else if bytes[0] == 0 then Some((Absent, bytes[1..]))
      else (match Decode(t, bytes[1..])
            case None => None
            case Some((v, rest)) => Some((Present(v), rest)))
    case List(t) =>
      (match DecodeVarint(bytes, 10, 1)
       case None => None
       case Some((n, rest)) =>
         match DecodeItems(t, n, rest)
         case None => None
         case Some((vs, rest')) => Some((Items(vs), rest')))
    case Tuple(ts) =>
      (match DecodeFields(ts, bytes)
       case None => None
       case Some((vs, rest)) => Some((Record(vs), rest)))
    case Choice(ts) =>
      (match DecodeVarint(bytes, 5, 15)
       case None => None
       case Some((i, rest)) =>
         if i >= CaseCount(ts) then None
         else
           match Decode(CaseAt(ts, i), rest)
           case None => None
           case Some((v, rest')) => Some((Pick(i, v), rest')))
  }

  function DecodeItems(t: Schema, n: nat, bytes: Bytes): Decoded<seq<Value>>
    decreases t, 1, n
  {
    if n == 0 then Some(([], bytes))
    else
      match Decode(t, bytes)
      case None => None
      case Some((v, rest)) =>
        match DecodeItems(t, n - 1, rest)
        case None => None
        case Some((vs, rest')) => Some(([v] + vs, rest'))
  }

  function DecodeFields(ts: Schemas, bytes: Bytes): Decoded<Values>
    decreases ts, 0, 0
  {
    match ts
    case End => Some((Last, bytes))
    case Then(t, ts') =>
      match Decode(t, bytes)
      case None => None
      case Some((v, rest)) =>
        match DecodeFields(ts', rest)
        case None => None
        case Some((vs, rest')) => Some((More(v, vs), rest'))
  }

  /** `postcard::from_bytes`: bytes after the value are ignored. */
  function FromBytes(s: Schema, bytes: Bytes): Option<Value> {
    match Decode(s, bytes)
    case None => None
    case Some((v, _)) => Some(v)
  }

  // ---- the round trip -----------------------------------------------------

  lemma NumberRoundTrip(n: nat, limit: nat, top: nat, rest: Bytes)
    requires || (limit == 3 && top == 3 && n < TWO_16)
             || (limit == 5 && top == 15 && n < TWO_32)
             || (limit == 10 && top == 1 && n < TWO_64)
    ensures DecodeVarint(EncodeVarint(n) + rest, limit, top) == Some((n, rest))
    ensures 1 <= |EncodeVarint(n)| <= limit
  {
    WidthCapacities();
    VarintRoundTrip(n, limit, top, rest);
  }

  lemma CutAgain(bytes: Bytes, rest: Bytes)
    ensures (bytes + rest)[..|bytes|] == bytes && (bytes + rest)[|bytes|..] == rest
  {
  }

  lemma DecodeRawCuts(all: Bytes, n: nat, after: Bytes)
    requires DecodeVarint(all, 10, 1) == Some((n, after)) && n <= |after|
    ensures DecodeRaw(all) == Some((Raw(after[..n]), after[n..]))
  {
    hide DecodeVarint;
  }

  lemma RawRoundTrip(bytes: Bytes, rest: Bytes)
    requires |bytes| < TWO_64
    ensures DecodeRaw(EncodeVarint(|bytes|) + bytes + rest) == Some((Raw(bytes), rest))
  {
    hide EncodeVarint, DecodeVarint, DecodeRaw;
    var body := bytes + rest;
    NumberRoundTrip(|bytes|, 10, 1, body);
    assert EncodeVarint(|bytes|) + bytes + rest == EncodeVarint(|bytes|) + body;
    DecodeRawCuts(EncodeVarint(|bytes|) + body, |bytes|, body);
    CutAgain(bytes, rest);
  }

  lemma LittleEndianRoundTrip(n: u32)
    ensures FromLittleEndian32(LittleEndian32(n)) == n
  {
    var n1 := n / 0x100;
    var n2 := n / 0x1_0000;
    assert n1 / 0x100 == n2 && n2 / 0x100 == n / 0x100_0000;
    assert n == n % 0x100 + 0x100 * n1;
    assert n1 == n1 % 0x100 + 0x100 * n2;
    assert n2 == n2 % 0x100 + 0x100 * (n2 / 0x100);
  }

  predicate IsScalar(s: Schema) {
    !s.Optional? && !s.List? && !s.Tuple? && !s.Choice?
  }

  lemma ScalarRoundTrip(v: Value, s: Schema, rest: Bytes)
    requires HasType(v, s) && IsScalar(s)
    ensures Decode(s, Encode(v, s) + rest) == Some((v, rest))
  {
    hide EncodeVarint, DecodeVarint, ValidUtf8, DecodeRaw, LittleEndian32, FromLittleEndian32;
    var bytes := Encode(v, s) + rest;
    match s
    case U8 => assert bytes[1..] == rest;
    case Flag => assert bytes[1..] == rest;
    case U16 => NumberRoundTrip(v.n, 3, 3, rest);
    case U32 => NumberRoundTrip(v.n, 5, 15, rest);
    case U64 => NumberRoundTrip(v.n, 10, 1, rest);
    case I32 => NumberRoundTrip(Zigzag(v.n), 5, 15, rest);
    case F32 =>
      LittleEndianRoundTrip(v.n);
      assert bytes[..4] == LittleEndian32(v.n) && bytes[4..] == rest;
    case Blob => RawRoundTrip(v.bytes, rest);
    case Text => RawRoundTrip(v.bytes, rest);
  }

  lemma OptionalRoundTrip(v: Value, t: Schema, rest: Bytes)
    requires HasType(v, Optional(t))
    requires v.Present? ==> Decode(t, Encode(v.inner, t) + rest) == Some((v.inner, rest))
    ensures Decode(Optional(t), Encode(v, Optional(t)) + rest) == Some((v, rest))
  {
    var bytes := Encode(v, Optional(t)) + rest;
    if v.Absent? {
      assert bytes[1..] == rest;
    } else {
      assert bytes[1..] == Encode(v.inner, t) + rest;
    }
  }

  lemma ListRoundTrip(vs: seq<Value>, t: Schema, rest: Bytes)
    requires HasType(Items(vs), List(t))
    requires DecodeItems(t, |vs|, EncodeItems(vs, t) + rest) == Some((vs, rest))
    ensures Decode(List(t), Encode(Items(vs), List(t)) + rest) == Some((Items(vs), rest))
  {
    hide EncodeItems, DecodeItems, EncodeVarint, DecodeVarint;
    var body := EncodeItems(vs, t) + rest;
    NumberRoundTrip(|vs|, 10, 1, body);
    assert Encode(Items(vs), List(t)) + rest == EncodeVarint(|vs|) + body;
  }

  lemma DecodeChoice(ts: Schemas, bytes: Bytes, i: nat, middle: Bytes, v: Value, rest: Bytes)
    requires DecodeVarint(bytes, 5, 15) == Some((i, middle)) && i < CaseCount(ts)
    requires Decode(CaseAt(ts, i), middle) == Some((v, rest))
    ensures Decode(Choice(ts), bytes) == Some((Pick(i, v), rest))
  {
    hide DecodeVarint, CaseAt, CaseCount;
  }

  lemma ChoiceParts(i: nat, p: Value, ts: Schemas)
    requires i < CaseCount(ts) && i < TWO_32 && HasType(p, CaseAt(ts, i))
    ensures HasType(Pick(i, p), Choice(ts))
    ensures Encode(Pick(i, p), Choice(ts)) == EncodeVarint(i) + Encode(p, CaseAt(ts, i))
  {
    hide EncodeVarint, CaseAt, CaseCount;
  }

  lemma ChoiceRoundTrip(i: nat, p: Value, ts: Schemas, rest: Bytes)
    requires i < CaseCount(ts) && i < TWO_32 && HasType(p, CaseAt(ts, i))
    requires Decode(CaseAt(ts, i), Encode(p, CaseAt(ts, i)) + rest) == Some((p, rest))
    ensures HasType(Pick(i, p), Choice(ts))
    ensures Decode(Choice(ts), Encode(Pick(i, p), Choice(ts)) + rest) == Some((Pick(i, p), rest))
  {
    hide Encode, Decode, HasType, EncodeVarint, DecodeVarint, CaseAt, CaseCount;
    ChoiceParts(i, p, ts);
    var body := Encode(p, CaseAt(ts, i)) + rest;
    NumberRoundTrip(i, 5, 15, body);
    assert Encode(Pick(i, p), Choice(ts)) + rest == EncodeVarint(i) + body;
    DecodeChoice(ts, EncodeVarint(i) + body, i, body, p, rest);
  }

  /** Decoding what was encoded gives the value back and leaves every byte that
      follows it untouched, for every type and every value of it. */
  lemma {:induction false} RoundTrip(v: Value, s: Schema, rest: Bytes)
    requires HasType(v, s)
    ensures Decode(s, Encode(v, s) + rest) == Some((v, rest))
    decreases v, 0
  {
    match s
    case Optional(t) =>
      if v.Present? {
        RoundTrip(v.inner, t, rest);
      }
      OptionalRoundTrip(v, t, rest);
    case List(t) =>
      ItemsRoundTrip(v.items, t, rest);
      ListRoundTrip(v.items, t, rest);
    case Tuple(ts) =>
      FieldsRoundTrip(v.record, ts, rest);
    case Choice(ts) =>
      RoundTrip(v.payload, CaseAt(ts, v.index), rest);
      ChoiceRoundTrip(v.index, v.payload, ts, rest);
    case _ =>
      ScalarRoundTrip(v, s, rest);
  }

  lemma DecodeItemsPush(t: Schema, n: nat, bytes: Bytes, v: Value, middle: Bytes, vs: seq<Value>, rest: Bytes)
    requires Decode(t, bytes) == Some((v, middle)) && DecodeItems(t, n, middle) == Some((vs, rest))
    ensures DecodeItems(t, n + 1, bytes) == Some(([v] + vs, rest))
  {
    hide Decode;
  }

  lemma EncodeItemsPush(v: Value, vs: seq<Value>, t: Schema)
    requires HasType(v, t) && forall i | 0 <= i < |vs| :: HasType(vs[i], t)
    ensures forall i | 0 <= i < |[v] + vs| :: HasType(([v] + vs)[i], t)
    ensures EncodeItems([v] + vs, t) == Encode(v, t) + EncodeItems(vs, t)
  {
    hide Encode, HasType;
    assert ([v] + vs)[1..] == vs && ([v] + vs)[0] == v;
  }

  lemma ItemsRoundTripStep(v: Value, vs: seq<Value>, t: Schema, rest: Bytes)
    requires HasType(v, t) && forall i | 0 <= i < |vs| :: HasType(vs[i], t)
    requires var tail := EncodeItems(vs, t) + rest;
             && Decode(t, Encode(v, t) + tail) == Some((v, tail))
             && DecodeItems(t, |vs|, tail) == Some((vs, rest))
    ensures DecodeItems(t, |vs| + 1, EncodeItems([v] + vs, t) + rest) == Some(([v] + vs, rest))
  {
    hide Encode, Decode, HasType, EncodeItems, DecodeItems;
    EncodeItemsPush(v, vs, t);
    var tail := EncodeItems(vs, t) + rest;
    assert Encode(v, t) + EncodeItems(vs, t) + rest == Encode(v, t) + tail;
    DecodeItemsPush(t, |vs|, Encode(v, t) + tail, v, tail, vs, rest);
  }

  lemma {:induction false} ItemsRoundTrip(vs: seq<Value>, t: Schema, rest: Bytes)
    requires forall i | 0 <= i < |vs| :: HasType(vs[i], t)
    ensures DecodeItems(t, |vs|, EncodeItems(vs, t) + rest) == Some((vs, rest))
    decreases vs, 1
  {
    hide Encode, Decode, HasType, EncodeItems, DecodeItems;
    if vs == [] {
      NoItems(t, rest);
    } else {
      var (first, others) := (vs[0], vs[1..]);
      RoundTrip(first, t, EncodeItems(others, t) + rest);
      ItemsRoundTrip(others, t, rest);
      ItemsRoundTripStep(first, others, t, rest);
      assert vs == [first] + others;
    }
  }

  lemma NoItems(t: Schema, rest: Bytes)
    ensures DecodeItems(t, 0, EncodeItems([], t) + rest) == Some(([], rest))
  {
    assert [] + rest == rest;
  }

  lemma {:induction false} FieldsRoundTrip(vs: Values, ts: Schemas, rest: Bytes)
    requires HaveTypes(vs, ts)
    ensures DecodeFields(ts, EncodeFields(vs, ts) + rest) == Some((vs, rest))
    decreases vs, 0
  {
    match vs
    case Last => assert EncodeFields(vs, ts) + rest == rest;
    case More(v, vs') =>
      var tail := EncodeFields(vs', ts.tail) + rest;
      assert EncodeFields(vs, ts) + rest == Encode(v, ts.head) + tail;
      RoundTrip(v, ts.head, tail);
      FieldsRoundTrip(vs', ts.tail, rest);
  }

  lemma ScalarTyped(s: Schema, bytes: Bytes)
    requires Decode(s, bytes).Some? && IsScalar(s)
    requires |bytes| < TWO_64
    ensures HasType(Decode(s, bytes).value.0, s)
    ensures IsSuffix(Decode(s, bytes).value.1, bytes)
  {
    WidthCapacities();
    hide DecodeVarint, ValidUtf8, Capacity;
    match s
    case U8 =>
    case Flag =>
    case U16 => VarintInRange(bytes, 3, 3);
    case U32 => VarintInRange(bytes, 5, 15);
    case U64 => VarintInRange(bytes, 10, 1);
    case I32 => VarintInRange(bytes, 5, 15);
    case F32 =>
    case Blob => VarintInRange(bytes, 10, 1);
    case Text => VarintInRange(bytes, 10, 1);
  }

  /** Whatever the decoder accepts is a value of the type asked for, and what it
      leaves is a suffix of its input. */
  lemma {:induction false} DecodeTyped(s: Schema, bytes: Bytes)
    requires Decode(s, bytes).Some?
    requires |bytes| < TWO_64
    ensures HasType(Decode(s, bytes).value.0, s)
    ensures IsSuffix(Decode(s, bytes).value.1, bytes)
    decreases s, 0, 0
  {
    WidthCapacities();
    match s
    case Optional(t) =>
      if bytes[0] == 1 {
        DecodeTyped(t, bytes[1..]);
      }
    case List(t) =>
      VarintInRange(bytes, 10, 1);
      var (n, rest) := DecodeVarint(bytes, 10, 1).value;
      ItemsTyped(t, n, rest);
    case Tuple(ts) => FieldsTyped(ts, bytes);
    case Choice(ts) =>
      VarintInRange(bytes, 5, 15);
      var (i, rest) := DecodeVarint(bytes, 5, 15).value;
      DecodeTyped(CaseAt(ts, i), rest);
    case _ => ScalarTyped(s, bytes);
  }

  predicate IsSuffix(rest: Bytes, bytes: Bytes) {
    |rest| <= |bytes| && rest == bytes[|bytes| - |rest|..]
  }

  lemma {:induction false} ItemsTyped(t: Schema, n: nat, bytes: Bytes)
    requires DecodeItems(t, n, bytes).Some?
    requires |bytes| < TWO_64
    ensures var (vs, rest) := DecodeItems(t, n, bytes).value;
            |vs| == n && (forall i | 0 <= i < n :: HasType(vs[i], t)) && IsSuffix(rest, bytes)
    decreases t, 1, n
  {
    if n > 0 {
      DecodeTyped(t, bytes);
      ItemsTyped(t, n - 1, Decode(t, bytes).value.1);
    }
  }

  lemma {:induction false} FieldsTyped(ts: Schemas, bytes: Bytes)
    requires DecodeFields(ts, bytes).Some?
    requires |bytes| < TWO_64
    ensures HaveTypes(DecodeFields(ts, bytes).value.0, ts)
    ensures IsSuffix(DecodeFields(ts, bytes).value.1, bytes)
    decreases ts, 0, 0
  {
    match ts
    case End =>
    case Then(t, ts') =>
      DecodeTyped(t, bytes);
      FieldsTyped(ts', Decode(t, bytes).value.1);
  }

  // ---- the encoder's form is the shortest ------------------------------------

  /** An encoding and the rest never take more bytes than they were read from, and take
      as many only when they are those bytes. */
  predicate Canonically(bytes: Bytes, encoded: Bytes, rest: Bytes) {
    && |encoded| + |rest| <= |bytes|
    && (|encoded| + |rest| == |bytes| ==> bytes == encoded + rest)
  }

  lemma VarintPush(low: nat, high: nat)
    requires low < 128 && high > 0
    ensures EncodeVarint(low + 128 * high) == [low + 128] + EncodeVarint(high)
  {
  }

  lemma {:induction false} ShortestVarint(bytes: Bytes, limit: nat, top: nat)
    requires DecodeVarint(bytes, limit, top).Some?
    ensures var (n, rest) := DecodeVarint(bytes, limit, top).value;
            Canonically(bytes, EncodeVarint(n), rest)
    decreases limit
  {
    assert bytes == [bytes[0]] + bytes[1..];
    if bytes[0] >= 128 {
      ShortestVarint(bytes[1..], limit - 1, top);
      var (high, rest) := DecodeVarint(bytes[1..], limit - 1, top).value;
      hide DecodeVarint;
      if high > 0 {
        VarintPush(bytes[0] - 128, high);
        assert [bytes[0]] + EncodeVarint(high) + rest == [bytes[0]] + (EncodeVarint(high) + rest);
      }
    }
  }

  lemma ZigzagInverse(z: nat)
    ensures Zigzag(Unzigzag(z)) == z
  {
  }

  lemma LittleEndianBack(bytes: Bytes)
    requires |bytes| == 4
    ensures 0 <= FromLittleEndian32(bytes) < TWO_32 && LittleEndian32(FromLittleEndian32(bytes)) == bytes
  {
    var (a, b, c, d) := (bytes[0] as int, bytes[1] as int, bytes[2] as int, bytes[3] as int);
    ByteDigits(a, b, c, d);
    assert bytes == [a, b, c, d];
  }

  /** Two canonical parts, one after the other, are canonical together. */
  lemma CanonicalParts(bytes: Bytes, first: Bytes, middle: Bytes, second: Bytes, rest: Bytes)
    requires Canonically(bytes, first, middle) && Canonically(middle, second, rest)
    ensures Canonically(bytes, first + second, rest)
  {
    assert first + (second + rest) == first + second + rest;
  }

  lemma ShortestRaw(bytes: Bytes)
    requires DecodeRaw(bytes).Some?
    ensures var (v, rest) := DecodeRaw(bytes).value;
            v.Raw? && Canonically(bytes, EncodeVarint(|v.bytes|) + v.bytes, rest)
  {
    ShortestVarint(bytes, 10, 1);
    var (n, after) := DecodeVarint(bytes, 10, 1).value;
    hide EncodeVarint, DecodeVarint;
    assert after == after[..n] + after[n..];
    CanonicalParts(bytes, EncodeVarint(n), after, after[..n], after[n..]);
  }

  lemma ShortestScalar(s: Schema, bytes: Bytes)
    requires |bytes| < TWO_64 && Decode(s, bytes).Some? && IsScalar(s)
    requires HasType(Decode(s, bytes).value.0, s)
    ensures var (v, rest) := Decode(s, bytes).value;
            Canonically(bytes, Encode(v, s), rest)
  {
    hide EncodeVarint, DecodeVarint, ValidUtf8, DecodeRaw;
    match s
    case U8 =>
    case Flag => assert bytes == [bytes[0]] + bytes[1..];
    case U16 => ShortestVarint(bytes, 3, 3);
    case U32 => ShortestVarint(bytes, 5, 15);
    case U64 => ShortestVarint(bytes, 10, 1);
    case I32 =>
      ShortestVarint(bytes, 5, 15);
      ZigzagInverse(DecodeVarint(bytes, 5, 15).value.0);
    case F32 =>
      LittleEndianBack(bytes[..4]);
      assert bytes == bytes[..4] + bytes[4..];
    case Blob => ShortestRaw(bytes);
    case Text => ShortestRaw(bytes);
  }

  /** Encoding a decoded value again never takes more bytes than it was read from, and
      only the encoder's own bytes are that short. */
  lemma {:induction false} ShortestEncoding(s: Schema, bytes: Bytes)
    requires |bytes| < TWO_64 && Decode(s, bytes).Some?
    requires HasType(Decode(s, bytes).value.0, s)
    ensures var (v, rest) := Decode(s, bytes).value;
            Canonically(bytes, Encode(v, s), rest)
    decreases s, 0, 0
  {
    hide EncodeVarint, DecodeVarint, EncodeItems, EncodeFields, DecodeItems, DecodeFields, Canonically;
    match s
    case Optional(t) =>
      ShortestOptional(t, bytes);
    case List(t) =>
      ShortestVarint(bytes, 10, 1);
      VarintInRange(bytes, 10, 1);
      var (n, rest) := DecodeVarint(bytes, 10, 1).value;
      ItemsTyped(t, n, rest);
      ShortestItems(t, n, rest);
      var (vs, rest') := DecodeItems(t, n, rest).value;
      CanonicalParts(bytes, EncodeVarint(n), rest, EncodeItems(vs, t), rest');
    case Tuple(ts) =>
      ShortestFields(ts, bytes);
    case Choice(ts) =>
      ShortestVarint(bytes, 5, 15);
      VarintInRange(bytes, 5, 15);
      var (i, rest) := DecodeVarint(bytes, 5, 15).value;
      ShortestEncoding(CaseAt(ts, i), rest);
      var (v, rest') := Decode(CaseAt(ts, i), rest).value;
      CanonicalParts(bytes, EncodeVarint(i), rest, Encode(v, CaseAt(ts, i)), rest');
    case _ => ShortestScalar(s, bytes);
  }

  lemma {:induction false} ShortestOptional(t: Schema, bytes: Bytes)
    requires |bytes| < TWO_64 && Decode(Optional(t), bytes).Some?
    requires HasType(Decode(Optional(t), bytes).value.0, Optional(t))
    ensures var (v, rest) := Decode(Optional(t), bytes).value;
            Canonically(bytes, Encode(v, Optional(t)), rest)
    decreases t, 2, 0
  {
    assert bytes == [bytes[0]] + bytes[1..];
    if bytes[0] == 1 {
      ShortestEncoding(t, bytes[1..]);
      var (v, rest) := Decode(t, bytes[1..]).value;
      CanonicalParts(bytes, [1], bytes[1..], Encode(v, t), rest);
    }
  }

  lemma {:induction false} ShortestItems(t: Schema, n: nat, bytes: Bytes)
    requires |bytes| < TWO_64 && DecodeItems(t, n, bytes).Some?
    requires var vs := DecodeItems(t, n, bytes).value.0;
             forall i | 0 <= i < |vs| :: HasType(vs[i], t)
    ensures var (vs, rest) := DecodeItems(t, n, bytes).value;
            Canonically(bytes, EncodeItems(vs, t), rest)
    decreases t, 1, n
  {
    hide Decode, Encode, HasType;
    if n > 0 {
      hide Canonically;
      var (v, rest) := Decode(t, bytes).value;
      DecodeTyped(t, bytes);
      ShortestEncoding(t, bytes);
      ItemsTyped(t, n - 1, rest);
      ShortestItems(t, n - 1, rest);
      var (vs, rest') := DecodeItems(t, n - 1, rest).value;
      assert ([v] + vs)[1..] == vs;
      CanonicalParts(bytes, Encode(v, t), rest, EncodeItems(vs, t), rest');
    }
  }

  lemma {:induction false} ShortestFields(ts: Schemas, bytes: Bytes)
    requires |bytes| < TWO_64 && DecodeFields(ts, bytes).Some?
    requires HaveTypes(DecodeFields(ts, bytes).value.0, ts)
    ensures var (vs, rest) := DecodeFields(ts, bytes).value;
            Canonically(bytes, EncodeFields(vs, ts), rest)
    decreases ts, 0, 0
  {
    hide Decode, Encode, HasType;
    match ts
    case End =>
    case Then(t, ts') =>
      hide Canonically;
      DecodeTyped(t, bytes);
      ShortestEncoding(t, bytes);
      var (v, rest) := Decode(t, bytes).value;
      ShortestFields(ts', rest);
      var (vs, rest') := DecodeFields(ts', rest).value;
      CanonicalParts(bytes, Encode(v, t), rest, EncodeFields(vs, ts'), rest');
  }

  /** Nothing else so short has the same outcome. */
  ghost predicate IsShortest(s: Schema, bytes: Bytes) {
    forall other: Bytes | |other| < TWO_64 && Decode(s, other) == Decode(s, bytes) :: |bytes| <= |other|
  }

  /** Where decoding is injective: of all inputs with one outcome the encoder's bytes,
      followed by what is left over, are the only shortest one. */
  lemma CanonicalIff(s: Schema, bytes: Bytes)
    requires |bytes| < TWO_64 && Decode(s, bytes).Some?
    ensures var (v, rest) := Decode(s, bytes).value;
            && HasType(v, s)
            && (bytes == Encode(v, s) + rest <==> |bytes| == |Encode(v, s)| + |rest|)
            && (bytes == Encode(v, s) + rest <==> IsShortest(s, bytes))
  {
    hide Decode, Encode, HasType;
    var (v, rest) := Decode(s, bytes).value;
    DecodeTyped(s, bytes);
    ShortestEncoding(s, bytes);
    RoundTrip(v, s, rest);
    forall other: Bytes | |other| < TWO_64 && Decode(s, other) == Decode(s, bytes)
      ensures |Encode(v, s) + rest| <= |other|
    {
      ShortestEncoding(s, other);
    }
    var canonical := Encode(v, s) + rest;
    assert IsShortest(s, bytes) ==> |bytes| <= |canonical|;
  }

  /** For `from_bytes`, which ignores what is left over: the shortest input that decodes
      to a value is its encoding, and there is no other. */
  lemma FromBytesCanonicalIff(s: Schema, bytes: Bytes)
    requires |bytes| < TWO_64 && Decode(s, bytes).Some?
    ensures var v := Decode(s, bytes).value.0;
            && HasType(v, s)
            && (bytes == Encode(v, s)
                <==> forall other: Bytes | |other| < TWO_64 && FromBytes(s, other) == FromBytes(s, bytes) ::
                       |bytes| <= |other|)
  {
    hide Decode, Encode, HasType;
    var (v, rest) := Decode(s, bytes).value;
    CanonicalIff(s, bytes);
    RoundTrip(v, s, []);
    var canonical := Encode(v, s);
    assert canonical + [] == canonical;
    forall other: Bytes | |other| < TWO_64 && FromBytes(s, other) == FromBytes(s, bytes)
      ensures |canonical| <= |other|
    {
      DecodeTyped(s, other);
      ShortestEncoding(s, other);
    }
    ShortestEncoding(s, bytes);
    assert |canonical| <= |bytes| && FromBytes(s, canonical) == FromBytes(s, bytes);
    if |bytes| <= |canonical| {
      assert rest == [];
    }
  }

  /** Two canonical inputs with the same outcome are the same input. */
  lemma CanonicalInjective(s: Schema, a: Bytes, b: Bytes)
    requires |a| < TWO_64 && |b| < TWO_64 && Decode(s, a).Some? && Decode(s, a) == Decode(s, b)
    requires IsShortest(s, a)
    ensures IsShortest(s, b) <==> a == b
  {
    hide Decode, Encode, HasType, IsShortest;
    CanonicalIff(s, a);
    CanonicalIff(s, b);
  }

  /** Elsewhere it is not injective: a padded varint and trailing bytes decode to the
      same value as the canonical bytes. */
  lemma DecodingNotInjective()
    ensures FromBytes(U32, [0]) == FromBytes(U32, [0x80, 0]) == FromBytes(U32, [0, 7]) == Some(Num(0))
  {
    assert DecodeVarint([0x80, 0][1..], 4, 15) == Some((0, []));
  }

  // ---- sizes ----------------------------------------------------------------

  /** An upper bound on the encoding apart from the blobs themselves; lists and
      texts have no bound of this kind. */
  function FixedSize(s: Schema): Option<nat> {
    match s
    case U8 => Some(1)
    case Flag => Some(1)
    case U16 => Some(3)
    case U32 => Some(5)
    case U64 => Some(10)
    case I32 => Some(5)
    case F32 => Some(4)
    case Blob => Some(10)
    case Tuple(ts) => FixedSizes(ts)
    case Choice(ts) => (match LargestCase(ts) case None => None case Some(n) => Some(5 + n))
    case _ => None
  }

  function LargestCase(ts: Schemas): Option<nat> {
    match ts
    case End => Some(0)
    case Then(t, ts') =>
      match (FixedSize(t), LargestCase(ts'))
      case (Some(a), Some(b)) => Some(Max(a, b))
      case _ => None
  }

  lemma {:induction false} CaseFixed(ts: Schemas, i: nat)
    requires i < CaseCount(ts) && LargestCase(ts).Some?
    ensures FixedSize(CaseAt(ts, i)).Some?
    ensures FixedSize(CaseAt(ts, i)).value <= LargestCase(ts).value
    decreases i
  {
    if i > 0 {
      CaseFixed(ts.tail, i - 1);
    }
  }

  function FixedSizes(ts: Schemas): Option<nat> {
    match ts
    case End => Some(0)
    case Then(t, ts') =>
      match (FixedSize(t), FixedSizes(ts'))
      case (Some(a), Some(b)) => Some(a + b)
      case _ => None
  }

  /** The bytes a value carries in its blobs. */
  function BlobBytes(v: Value, s: Schema): nat
    requires HasType(v, s)
    decreases s
  {
    match s
    case Blob => |v.bytes|
    case Tuple(ts) => BlobBytesOf(v.record, ts)
    case Choice(ts) => BlobBytes(v.payload, CaseAt(ts, v.index))
    case _ => 0
  }

  function BlobBytesOf(vs: Values, ts: Schemas): nat
    requires HaveTypes(vs, ts)
    decreases ts
  {
    match ts
    case End => 0
    case Then(t, ts') => BlobBytes(vs.head, t) + BlobBytesOf(vs.tail, ts')
  }

  lemma {:induction false} SizeBound(v: Value, s: Schema)
    requires HasType(v, s) && FixedSize(s).Some?
    ensures |Encode(v, s)| <= FixedSize(s).value + BlobBytes(v, s)
    decreases v
  {
    match s
    case U8 =>
    case Flag =>
    case U16 => NumberRoundTrip(v.n, 3, 3, []);
    case U32 => NumberRoundTrip(v.n, 5, 15, []);
    case U64 => NumberRoundTrip(v.n, 10, 1, []);
    case I32 => NumberRoundTrip(Zigzag(v.n), 5, 15, []);
    case F32 =>
    case Blob => NumberRoundTrip(|v.bytes|, 10, 1, []);
    case Tuple(ts) => SizeBounds(v.record, ts);
    case Choice(ts) =>
      NumberRoundTrip(v.index, 5, 15, []);
      CaseFixed(ts, v.index);
      SizeBound(v.payload, CaseAt(ts, v.index));
  }

  lemma {:induction false} SizeBounds(vs: Values, ts: Schemas)
    requires HaveTypes(vs, ts) && FixedSizes(ts).Some?
    ensures |EncodeFields(vs, ts)| <= FixedSizes(ts).value + BlobBytesOf(vs, ts)
    decreases vs
  {
    match vs
    case Last =>
    case More(v, vs') =>
      SizeBound(v, ts.head);
      SizeBounds(vs', ts.tail);
  }
}
