/** No blob or text comes out of a decoder or a frame reader that was not, byte for byte,
    in the bytes that went in. */
module Occurrences {
  import opened MachineInts
  import opened Wrappers
  import opened Postcard
  import opened MessageWire
  import opened Framing

  predicate OccursAt(raw: Bytes, bytes: Bytes, i: nat) {
    i + |raw| <= |bytes| && bytes[i..i + |raw|] == raw
  }

  /** `raw` is a contiguous part of `bytes`. */
  ghost predicate Occurs(raw: Bytes, bytes: Bytes) { exists i: nat :: OccursAt(raw, bytes, i) }

  lemma EmptyOccurs(bytes: Bytes)
    ensures Occurs([], bytes)
  {
    assert OccursAt([], bytes, 0);
  }

  lemma OccursInLonger(raw: Bytes, bytes: Bytes, before: Bytes, after: Bytes)
    requires Occurs(raw, bytes)
    ensures Occurs(raw, before + bytes + after)
  {
    var i: nat :| OccursAt(raw, bytes, i);
    var longer := before + bytes + after;
    var j := |before| + i;
    assert longer[j..j + |raw|] == bytes[i..i + |raw|];
    assert OccursAt(raw, longer, j);
  }

  lemma OccursInSuffix(raw: Bytes, bytes: Bytes, rest: Bytes)
    requires Occurs(raw, rest) && IsSuffix(rest, bytes)
    ensures Occurs(raw, bytes)
  {
    OccursInLonger(raw, rest, bytes[..|bytes| - |rest|], []);
    assert bytes[..|bytes| - |rest|] + rest + [] == bytes;
  }

  /** The value carries `raw` as a blob or a text. */
  predicate Mentions(v: Value, raw: Bytes) {
    match v
    case Raw(bytes) => bytes == raw
    case Present(inner) => Mentions(inner, raw)
    case Items(items) => exists i | 0 <= i < |items| :: Mentions(items[i], raw)
    case Record(record) => FieldsMention(record, raw)
    case Pick(_, payload) => Mentions(payload, raw)
    case _ => false
  }

  predicate FieldsMention(vs: Values, raw: Bytes) {
    match vs
    case Last => false
    case More(v, vs') => Mentions(v, raw) || FieldsMention(vs', raw)
  }

  lemma RawOccurs(bytes: Bytes, raw: Bytes)
    requires |bytes| < TWO_64 && DecodeRaw(bytes).Some? && DecodeRaw(bytes).value.0 == Raw(raw)
    ensures Occurs(raw, bytes)
  {
    VarintInRange(bytes, 10, 1);
    var (n, rest) := DecodeVarint(bytes, 10, 1).value;
    assert OccursAt(raw, rest, 0);
    OccursInSuffix(raw, bytes, rest);
  }

  /** Whatever a decoded value carries was in its input. */
  lemma {:induction false} MentionedOccurs(s: Schema, bytes: Bytes, raw: Bytes)
    requires |bytes| < TWO_64 && Decode(s, bytes).Some? && Mentions(Decode(s, bytes).value.0, raw)
    ensures Occurs(raw, bytes)
    decreases s, 0, 0
  {
    hide Occurs, DecodeVarint;
    match s
    case Blob => RawOccurs(bytes, raw);
    case Text => RawOccurs(bytes, raw);
    case Optional(t) =>
      MentionedOccurs(t, bytes[1..], raw);
      OccursInSuffix(raw, bytes, bytes[1..]);
    case List(t) =>
      VarintInRange(bytes, 10, 1);
      var (n, rest) := DecodeVarint(bytes, 10, 1).value;
      var vs := DecodeItems(t, n, rest).value.0;
      var i :| 0 <= i < |vs| && Mentions(vs[i], raw);
      ItemOccurs(t, n, rest, i, raw);
      OccursInSuffix(raw, bytes, rest);
    case Tuple(ts) => FieldsOccur(ts, bytes, raw);
    case Choice(ts) =>
      VarintInRange(bytes, 5, 15);
      var (i, rest) := DecodeVarint(bytes, 5, 15).value;
      MentionedOccurs(CaseAt(ts, i), rest, raw);
      OccursInSuffix(raw, bytes, rest);
    case _ =>
  }

  lemma {:induction false} ItemOccurs(t: Schema, n: nat, bytes: Bytes, i: nat, raw: Bytes)
    requires |bytes| < TWO_64 && DecodeItems(t, n, bytes).Some?
    requires i < |DecodeItems(t, n, bytes).value.0| && Mentions(DecodeItems(t, n, bytes).value.0[i], raw)
    ensures Occurs(raw, bytes)
    decreases t, 1, n
  {
    hide Occurs, Decode, Mentions;
    var (v, rest) := Decode(t, bytes).value;
    DecodeTyped(t, bytes);
    if i == 0 {
      MentionedOccurs(t, bytes, raw);
    } else {
      ItemOccurs(t, n - 1, rest, i - 1, raw);
      OccursInSuffix(raw, bytes, rest);
    }
  }

  lemma {:induction false} FieldsOccur(ts: Schemas, bytes: Bytes, raw: Bytes)
    requires |bytes| < TWO_64 && DecodeFields(ts, bytes).Some? && FieldsMention(DecodeFields(ts, bytes).value.0, raw)
    ensures Occurs(raw, bytes)
    decreases ts, 0, 0
  {
    hide Occurs, Decode, Mentions;
    var (v, rest) := Decode(ts.head, bytes).value;
    DecodeTyped(ts.head, bytes);
    if Mentions(v, raw) {
      MentionedOccurs(ts.head, bytes, raw);
    } else {
      FieldsOccur(ts.tail, rest, raw);
      OccursInSuffix(raw, bytes, rest);
    }
  }

  lemma FrameMentions(bytes: Bytes, raw: Bytes)
    requires ParseFrame(bytes).Ok? && Mentions(ParseFrame(bytes).value.0, raw)
    ensures Occurs(raw, bytes)
  {
    hide FromBigEndian32, KindFromCode, Mentions, Occurs, KindOf, DecodeMessage, IsMessage;
    var size := FromBigEndian32(bytes[..4]);
    var payload := bytes[8..size + 4];
    PayloadMentions(payload, raw);
    OccursInLonger(raw, payload, bytes[..8], bytes[size + 4..]);
    assert bytes[..8] + payload + bytes[size + 4..] == bytes;
  }

  lemma PayloadMentions(payload: Bytes, raw: Bytes)
    requires |payload| < TWO_64 && DecodeMessage(payload).Some? && Mentions(DecodeMessage(payload).value, raw)
    ensures Occurs(raw, payload)
  {
    hide MessageSchema, Decode, Mentions, Occurs;
    MentionedOccurs(MessageSchema(), payload, raw);
  }

  /** Whatever a message read from a stream carries was in the stream. */
  lemma {:induction false} StreamMentions(bytes: Bytes, k: nat, raw: Bytes)
    requires k < |ReadStream(bytes).0| && Mentions(ReadStream(bytes).0[k], raw)
    ensures Occurs(raw, bytes)
    decreases |bytes|
  {
    hide ParseFrame, Mentions, Occurs;
    var (m, rest) := ParseFrame(bytes).value;
    ParseConsumes(bytes);
    if k == 0 {
      FrameMentions(bytes, raw);
    } else {
      StreamMentions(rest, k - 1, raw);
      AcceptedIsFrame(bytes, m, rest);
      OccursInSuffix(raw, bytes, rest);
    }
  }
}
