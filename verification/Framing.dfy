/** Frames on a byte stream: a length, a kind tag and a postcard payload, after a
    six-byte prelude. Written and read by both ends of every TCP connection and,
    through a second reader, of every QUIC stream. */
module Framing {
  import opened MachineInts
  import opened Wrappers
  import opened Postcard
  import opened Arith
  import opened MessageWire

  const MAGIC: Bytes := [0x56, 0x42, 0x4F, 0x58]
  const PROTOCOL_VERSION: u16 := 15
  const MAX_FRAME_BYTES: u32 := 64 * 1024 * 1024

  // ---- big-endian integers -------------------------------------------------------

  function BigEndian32(n: u32): (bytes: Bytes)
    ensures |bytes| == 4
  {
    [n / 0x100_0000, n / 0x1_0000 % 0x100, n / 0x100 % 0x100, n % 0x100]
  }

  function FromBigEndian32(bytes: Bytes): u32
    requires |bytes| == 4
  {
    0x100_0000 * bytes[0] as int + 0x1_0000 * bytes[1] as int + 0x100 * bytes[2] as int + bytes[3] as int
  }

  lemma BigEndianRoundTrip(n: u32)
    ensures FromBigEndian32(BigEndian32(n)) == n
  {
    var n1 := n / 0x100;
    var n2 := n / 0x1_0000;
    assert n1 / 0x100 == n2 && n2 / 0x100 == n / 0x100_0000;
    assert n == n % 0x100 + 0x100 * n1;
    assert n1 == n1 % 0x100 + 0x100 * n2;
    assert n2 == n2 % 0x100 + 0x100 * (n2 / 0x100);
  }

  lemma BigEndianBack(bytes: Bytes)
    requires |bytes| == 4
    ensures BigEndian32(FromBigEndian32(bytes)) == bytes
  {
    var (a, b, c, d) := (bytes[0] as int, bytes[1] as int, bytes[2] as int, bytes[3] as int);
    ByteDigits(d, c, b, a);
    assert bytes == [a, b, c, d];
  }

  // ---- the payload ------------------------------------------------------------------

  function EncodeMessage(m: Value): Bytes
    requires IsMessage(m)
  {
    Encode(m, MessageSchema())
  }

  function DecodeMessage(payload: Bytes): (m: Option<Value>)
    requires |payload| < TWO_64
    ensures m.Some? ==> IsMessage(m.value)
  {
    hide MessageSchema, HasType, Decode;
    var decoded := Decode(MessageSchema(), payload);
    if decoded.Some? then
      DecodeTyped(MessageSchema(), payload);
      Some(decoded.value.0)
    else None
  }

  lemma MessageRoundTrip(m: Value)
    requires IsMessage(m) && |EncodeMessage(m)| < TWO_64
    ensures DecodeMessage(EncodeMessage(m)) == Some(m)
  {
    hide MessageSchema, HasType, Encode, Decode;
    RoundTrip(m, MessageSchema(), []);
    assert EncodeMessage(m) + [] == EncodeMessage(m);
  }

  lemma MessageShortest(payload: Bytes)
    requires |payload| < TWO_64 && DecodeMessage(payload).Some?
    ensures |EncodeMessage(DecodeMessage(payload).value)| <= |payload|
  {
    hide MessageSchema, HasType, Encode, Decode;
    DecodeTyped(MessageSchema(), payload);
    ShortestEncoding(MessageSchema(), payload);
  }

  // ---- one frame -------------------------------------------------------------------

  datatype FrameError =
    | Eof
    | TooSmall(size: nat)
    | TooBig(size: nat)
    | UnknownKind(code: u32)
    | Malformed
    | KindMismatch(header: Kind, payload: Kind)

  function FrameBytes(kind: Kind, payload: Bytes): Bytes
    requires |payload| + 4 <= MAX_FRAME_BYTES
  {
    BigEndian32(|payload| + 4) + BigEndian32(KindCode(kind)) + payload
  }

  function EncodeFrame(m: Value): Result<Bytes, FrameError>
    requires IsMessage(m)
  {
    var payload := EncodeMessage(m);
    var size := |payload| + 4;
    if size > MAX_FRAME_BYTES then Err(TooBig(size)) else Ok(FrameBytes(KindOf(m), payload))
  }

  function DecodeFramePayload(kind: Kind, payload: Bytes): Result<Value, FrameError>
    requires |payload| < TWO_64
  {
    match DecodeMessage(payload)
    case None => Err(Malformed)
    case Some(m) => if KindOf(m) != kind then Err(KindMismatch(kind, KindOf(m))) else Ok(m)
  }

  /** What a reader makes of the bytes waiting for it: the first message and the
      bytes after its frame, or the reason it stops. */
  function ParseFrame(bytes: Bytes): Result<(Value, Bytes), FrameError> {
    if |bytes| < 4 then Err(Eof)
    else
      var size := FromBigEndian32(bytes[..4]);
      if size < 4 then Err(TooSmall(size))
      else if size > MAX_FRAME_BYTES then Err(TooBig(size))
      else if |bytes| < 8 then Err(Eof)
      else
        var code := FromBigEndian32(bytes[4..8]);
        match KindFromCode(code)
        case None => Err(UnknownKind(code))
        case Some(kind) =>
          if |bytes| < size + 4 then Err(Eof)
          else
            match DecodeFramePayload(kind, bytes[8..size + 4])
            case Err(e) => Err(e)
            case Ok(m) => Ok((m, bytes[size + 4..]))
  }

  /** What one read leaves unread, whether it succeeds or not: a frame with a payload
      that is refused is consumed whole, one with a bad length or tag only so far. */
  function Leftover(bytes: Bytes): Bytes {
    if |bytes| < 4 then []
    else
      var size := FromBigEndian32(bytes[..4]);
      if size < 4 || size > MAX_FRAME_BYTES then bytes[4..]
      else if |bytes| < 8 then []
      else if KindFromCode(FromBigEndian32(bytes[4..8])).None? then bytes[8..]
      else if |bytes| < size + 4 then []
      else bytes[size + 4..]
  }

  /** The reference meaning of a frame: its parts in order, a payload that decodes
      to the message, the tag of that message, and the size limit. */
  ghost predicate IsFrame(frame: Bytes, m: Value) {
    exists payload: Bytes :: IsFrameWith(frame, m, payload)
  }

  ghost predicate IsFrameWith(frame: Bytes, m: Value, payload: Bytes) {
    && |payload| + 4 <= MAX_FRAME_BYTES
    && DecodeMessage(payload) == Some(m)
    && frame == FrameBytes(KindOf(m), payload)
  }

  lemma FrameLayout(kind: Kind, payload: Bytes, rest: Bytes)
    requires |payload| + 4 <= MAX_FRAME_BYTES
    ensures var bytes := FrameBytes(kind, payload) + rest; var size := |payload| + 4;
            && |bytes| >= size + 4
            && bytes[..4] == BigEndian32(size) && bytes[4..8] == BigEndian32(KindCode(kind))
            && bytes[8..size + 4] == payload && bytes[size + 4..] == rest
  {
    hide BigEndian32, KindCode;
  }

  /** A reader accepts exactly the frames of a message, and leaves exactly the
      bytes that follow the frame. */
  lemma FrameAcceptance(bytes: Bytes, m: Value, rest: Bytes)
    ensures ParseFrame(bytes) == Ok((m, rest)) <==> exists frame :: IsFrame(frame, m) && bytes == frame + rest
  {
    hide ParseFrame, IsFrame;
    if ParseFrame(bytes) == Ok((m, rest)) {
      AcceptedIsFrame(bytes, m, rest);
      assert IsFrame(bytes[..|bytes| - |rest|], m) && bytes == bytes[..|bytes| - |rest|] + rest;
    }
    forall frame | IsFrame(frame, m) && bytes == frame + rest
      ensures ParseFrame(bytes) == Ok((m, rest))
    {
      FrameIsAccepted(frame, m, rest);
    }
  }

  lemma AcceptedIsFrame(bytes: Bytes, m: Value, rest: Bytes)
    requires ParseFrame(bytes) == Ok((m, rest))
    ensures |rest| + 8 <= |bytes|
    ensures IsFrame(bytes[..|bytes| - |rest|], m) && bytes[|bytes| - |rest|..] == rest
  {
    hide BigEndian32, FromBigEndian32, DecodeMessage, KindCode, KindFromCode, KindOf;
    var size := FromBigEndian32(bytes[..4]);
    var kind := KindFromCode(FromBigEndian32(bytes[4..8])).value;
    var payload := bytes[8..size + 4];
    BigEndianBack(bytes[..4]);
    BigEndianBack(bytes[4..8]);
    KindCodes(FromBigEndian32(bytes[4..8]), kind);
    ThreeParts(bytes, size + 4);
    assert KindOf(m) == kind;
    assert |bytes| - |rest| == size + 4;
    assert IsFrameWith(bytes[..size + 4], m, payload);
  }

  lemma ThreeParts(bytes: Bytes, n: nat)
    requires 8 <= n <= |bytes|
    ensures bytes[..n] == bytes[..4] + bytes[4..8] + bytes[8..n]
    ensures bytes[|bytes| - (|bytes| - n)..] == bytes[n..]
  {
  }

  lemma ReadInParts(bytes: Bytes, n: nat)
    requires 8 <= n <= |bytes|
    ensures bytes[4..][..4] == bytes[4..8] && bytes[4..][4..] == bytes[8..]
    ensures bytes[8..][..n - 8] == bytes[8..n] && bytes[8..][n - 8..] == bytes[n..]
  {
  }

  lemma FrameIsAccepted(frame: Bytes, m: Value, rest: Bytes)
    requires IsFrame(frame, m)
    ensures ParseFrame(frame + rest) == Ok((m, rest))
  {
    hide FrameBytes, BigEndian32, FromBigEndian32, DecodeMessage, KindCode, KindFromCode, KindOf;
    var payload :| IsFrameWith(frame, m, payload);
    FrameLayout(KindOf(m), payload, rest);
    BigEndianRoundTrip(|payload| + 4);
    BigEndianRoundTrip(KindCode(KindOf(m)));
    KindCodes(KindCode(KindOf(m)), KindOf(m));
  }

  lemma LengthOutcome(bytes: Bytes)
    ensures |bytes| < 4 ==> ParseFrame(bytes) == Err(Eof) && Leftover(bytes) == []
    ensures |bytes| >= 4 ==>
              var size := FromBigEndian32(bytes[..4]);
              && (size < 4 ==> ParseFrame(bytes) == Err(TooSmall(size)) && Leftover(bytes) == bytes[4..])
              && (size > MAX_FRAME_BYTES ==> ParseFrame(bytes) == Err(TooBig(size)) && Leftover(bytes) == bytes[4..])
              && (4 <= size <= MAX_FRAME_BYTES && |bytes| < 8 ==>
                   ParseFrame(bytes) == Err(Eof) && Leftover(bytes) == [])
  {
    hide FromBigEndian32, DecodeFramePayload, KindFromCode;
  }

  lemma TagOutcome(bytes: Bytes, size: nat, code: u32)
    requires |bytes| >= 8 && 4 <= size <= MAX_FRAME_BYTES
    requires FromBigEndian32(bytes[..4]) == size && FromBigEndian32(bytes[4..8]) == code
    ensures KindFromCode(code) == None ==> ParseFrame(bytes) == Err(UnknownKind(code)) && Leftover(bytes) == bytes[8..]
    ensures KindFromCode(code).Some? && |bytes| < size + 4 ==> ParseFrame(bytes) == Err(Eof) && Leftover(bytes) == []
  {
    hide FromBigEndian32, DecodeFramePayload, KindFromCode;
  }

  lemma PayloadOutcome(bytes: Bytes, size: nat, kind: Kind)
    requires |bytes| >= size + 4 && 4 <= size <= MAX_FRAME_BYTES
    requires FromBigEndian32(bytes[..4]) == size
    requires KindFromCode(FromBigEndian32(bytes[4..8])) == Some(kind)
    ensures match DecodeFramePayload(kind, bytes[8..size + 4])
            case Err(e) => ParseFrame(bytes) == Err(e)
            case Ok(m) => ParseFrame(bytes) == Ok((m, bytes[size + 4..]))
    ensures Leftover(bytes) == bytes[size + 4..]
  {
    hide FromBigEndian32, DecodeFramePayload, KindFromCode;
  }

  lemma CutReadsEof(frame: Bytes, size: nat, code: u32, k: nat)
    requires 4 <= size <= MAX_FRAME_BYTES && |frame| == size + 4 && k < |frame|
    requires frame[..4] == BigEndian32(size) && frame[4..8] == BigEndian32(code)
    requires KindFromCode(code).Some?
    ensures ParseFrame(frame[..k]) == Err(Eof)
  {
    hide BigEndian32, FromBigEndian32, ParseFrame, KindFromCode;
    BigEndianRoundTrip(size);
    BigEndianRoundTrip(code);
    LengthOutcome(frame[..k]);
    if k >= 4 {
      assert frame[..k][..4] == frame[..4];
    }
    if k >= 8 {
      assert frame[..k][4..8] == frame[4..8];
      TagOutcome(frame[..k], size, code);
    }
  }

  /** A frame cut short anywhere reads as the end of the stream, never as a message
      and never as another error. */
  lemma TruncatedFrame(frame: Bytes, m: Value, k: nat)
    requires IsFrame(frame, m) && k < |frame|
    ensures ParseFrame(frame[..k]) == Err(Eof)
  {
    hide FrameBytes, BigEndian32, DecodeMessage, ParseFrame, KindCode, KindFromCode, KindOf;
    var payload :| IsFrameWith(frame, m, payload);
    FrameLayout(KindOf(m), payload, []);
    assert frame + [] == frame;
    KindCodes(KindCode(KindOf(m)), KindOf(m));
    CutReadsEof(frame, |payload| + 4, KindCode(KindOf(m)), k);
  }

  lemma EncodedIsFrame(m: Value)
    requires IsMessage(m) && EncodeFrame(m).Ok?
    ensures IsFrame(EncodeFrame(m).value, m)
  {
    hide FrameBytes, EncodeMessage, DecodeMessage, KindOf, IsMessage;
    MessageRoundTrip(m);
    assert IsFrameWith(EncodeFrame(m).value, m, EncodeMessage(m));
  }

  /** Reading what was written gives the message back and touches nothing after it. */
  lemma FrameRoundTrip(m: Value, rest: Bytes)
    requires IsMessage(m) && EncodeFrame(m).Ok?
    ensures ParseFrame(EncodeFrame(m).value + rest) == Ok((m, rest))
  {
    EncodedIsFrame(m);
    FrameIsAccepted(EncodeFrame(m).value, m, rest);
  }

  /** The two ends agree on what is too big: a message can be read from some bytes
      if and only if it can be written. So a message that arrived can always be
      passed on, as the QUIC-to-TCP relay does. */
  lemma LimitsAgree(m: Value)
    requires IsMessage(m)
    ensures EncodeFrame(m).Ok? <==> exists bytes, rest :: ParseFrame(bytes) == Ok((m, rest))
  {
    if EncodeFrame(m).Ok? {
      FrameRoundTrip(m, []);
    }
    forall bytes, rest | ParseFrame(bytes) == Ok((m, rest))
      ensures EncodeFrame(m).Ok?
    {
      AcceptedIsFrame(bytes, m, rest);
      AcceptedFits(bytes[..|bytes| - |rest|], m);
    }
  }

  lemma AcceptedFits(frame: Bytes, m: Value)
    requires IsMessage(m) && IsFrame(frame, m)
    ensures EncodeFrame(m).Ok?
  {
    hide FrameBytes, EncodeMessage, DecodeMessage, KindOf, IsMessage;
    var payload :| IsFrameWith(frame, m, payload);
    MessageShortest(payload);
  }

  /** The reserved input-method kind is recognised by the tag table, yet no frame
      that carries it ever yields a message. */
  lemma ImeFrameRejected(bytes: Bytes)
    requires |bytes| >= 8 && bytes[4..8] == BigEndian32(201)
    ensures KindFromCode(201).Some? && ParseFrame(bytes).Err?
  {
    hide BigEndian32, FromBigEndian32, DecodeMessage, KindOf, KindCode, IsMessage;
    BigEndianRoundTrip(201);
    if ParseFrame(bytes).Ok? {
      NoMessageIsIme(ParseFrame(bytes).value.0);
    }
  }

  // ---- streams of frames -----------------------------------------------------------

  predicate AllWritable(ms: seq<Value>) {
    forall i | 0 <= i < |ms| :: IsMessage(ms[i]) && EncodeFrame(ms[i]).Ok?
  }

  /** The bytes of a run of `write_frame` calls. */
  function WriteStream(ms: seq<Value>): Bytes
    requires AllWritable(ms)
  {
    if ms == [] then [] else EncodeFrame(ms[0]).value + WriteStream(ms[1..])
  }

  /** What a loop that reads frames until one fails hands out, and why it stops. */
  function ReadStream(bytes: Bytes): (seq<Value>, FrameError)
    decreases |bytes|
  {
    match ParseFrame(bytes)
    case Err(e) => ([], e)
    case Ok((m, rest)) =>
      ParseConsumes(bytes);
      var (ms, e) := ReadStream(rest);
      ([m] + ms, e)
  }

  lemma ParseConsumes(bytes: Bytes)
    requires ParseFrame(bytes).Ok?
    ensures |ParseFrame(bytes).value.1| < |bytes|
  {
  }

  /** Any messages written one after the other, followed by anything, are read back
      in order, and the reader then sees exactly what followed. */
  lemma {:induction false} StreamRoundTrip(ms: seq<Value>, tail: Bytes)
    requires AllWritable(ms)
    ensures ReadStream(WriteStream(ms) + tail) == (ms + ReadStream(tail).0, ReadStream(tail).1)
    decreases |ms|
  {
    hide ParseFrame, EncodeFrame, IsMessage;
    if ms == [] {
      assert WriteStream(ms) + tail == tail;
      assert ms + ReadStream(tail).0 == ReadStream(tail).0;
    } else {
      var first := EncodeFrame(ms[0]).value;
      var others := WriteStream(ms[1..]) + tail;
      assert WriteStream(ms) + tail == first + others;
      FrameRoundTrip(ms[0], others);
      StreamRoundTrip(ms[1..], tail);
      assert [ms[0]] + (ms[1..] + ReadStream(tail).0) == ms + ReadStream(tail).0;
    }
  }

  /** A stream cut inside the frame of message `j` yields exactly the messages before
      it and then the end of the stream: no message is lost, invented or reordered. */
  lemma StreamCut(ms: seq<Value>, j: nat, k: nat)
    requires AllWritable(ms) && j < |ms| && k < |EncodeFrame(ms[j]).value|
    ensures var sent := WriteStream(ms[..j]) + EncodeFrame(ms[j]).value[..k];
            && sent <= WriteStream(ms)
            && ReadStream(sent) == (ms[..j], Eof)
  {
    hide ParseFrame, EncodeFrame, IsMessage;
    var cut := EncodeFrame(ms[j]).value[..k];
    StreamRoundTrip(ms[..j], cut);
    EncodedIsFrame(ms[j]);
    TruncatedFrame(EncodeFrame(ms[j]).value, ms[j], k);
    assert ms[..j] + [] == ms[..j];
    WriteStreamSplit(ms, j);
    var whole := WriteStream(ms);
    assert whole[..|WriteStream(ms[..j]) + cut|] == WriteStream(ms[..j]) + cut;
  }

  lemma {:induction false} WriteStreamSplit(ms: seq<Value>, j: nat)
    requires AllWritable(ms) && j < |ms|
    ensures WriteStream(ms) == WriteStream(ms[..j]) + (EncodeFrame(ms[j]).value + WriteStream(ms[j + 1..]))
  {
    hide EncodeFrame, IsMessage;
    if j > 0 {
      WriteStreamSplit(ms[1..], j - 1);
      assert ms[1..][..j - 1] == ms[..j][1..];
      assert ms[1..][j..] == ms[j + 1..];
    }
  }

  /** Whatever bytes a peer sends, the messages handed out are the contents of
      consecutive frames at the front of the stream, and nothing behind them parses. */
  lemma {:induction false} ReadStreamSound(bytes: Bytes)
    ensures exists frames: seq<Bytes>, rest: Bytes :: IsFraming(bytes, ReadStream(bytes).0, frames, rest)
    decreases |bytes|
  {
    hide IsFrame, ParseFrame;
    if ParseFrame(bytes).Err? {
      assert Joined([]) + bytes == bytes;
      assert ReadStream(bytes).0 == [];
      assert IsFraming(bytes, ReadStream(bytes).0, [], bytes);
    } else {
      var (m, after) := ParseFrame(bytes).value;
      AcceptedIsFrame(bytes, m, after);
      ReadStreamSound(after);
      var frames, rest :| IsFraming(after, ReadStream(after).0, frames, rest);
      FramingStep(bytes, m, after, ReadStream(after).0, frames, rest);
      assert ReadStream(bytes).0 == [m] + ReadStream(after).0;
    }
  }

  lemma FramingStep(bytes: Bytes, m: Value, after: Bytes, ms: seq<Value>, frames: seq<Bytes>, rest: Bytes)
    requires |after| <= |bytes| && bytes[|bytes| - |after|..] == after
    requires IsFrame(bytes[..|bytes| - |after|], m)
    requires IsFraming(after, ms, frames, rest)
    ensures IsFraming(bytes, [m] + ms, [bytes[..|bytes| - |after|]] + frames, rest)
  {
    hide IsFrame, ParseFrame;
    var frame := bytes[..|bytes| - |after|];
    assert bytes == frame + after;
    assert ([frame] + frames)[1..] == frames;
    assert frame + Joined(frames) + rest == frame + (Joined(frames) + rest);
  }

  function Joined(parts: seq<Bytes>): Bytes {
    if parts == [] then [] else parts[0] + Joined(parts[1..])
  }

  ghost predicate IsFraming(bytes: Bytes, ms: seq<Value>, frames: seq<Bytes>, rest: Bytes) {
    && |frames| == |ms|
    && (forall i | 0 <= i < |ms| :: IsFrame(frames[i], ms[i]))
    && bytes == Joined(frames) + rest
    && ParseFrame(rest).Err?
  }

  // ---- the readers and the writer -----------------------------------------------------

  /** One end of a connection: bytes received and not yet read, and bytes written. */
  class ByteStream {
    var incoming: Bytes
    var outgoing: Bytes

    constructor (received: Bytes)
      ensures incoming == received && outgoing == []
    {
      incoming, outgoing := received, [];
    }

    /** Takes `n` bytes; when fewer are left before the end, takes them and fails. */
    method ReadExact(n: nat) returns (r: Option<Bytes>)
      modifies this`incoming
      ensures n <= |old(incoming)| ==> r == Some(old(incoming)[..n]) && incoming == old(incoming)[n..]
      ensures n > |old(incoming)| ==> r == None && incoming == []
    {
      if n <= |incoming| {
        r, incoming := Some(incoming[..n]), incoming[n..];
      } else {
        r, incoming := None, [];
      }
    }

    method WriteAll(bytes: Bytes)
      modifies this`outgoing
      ensures outgoing == old(outgoing) + bytes
    {
      outgoing := outgoing + bytes;
    }
  }

  /** How a reader's outcome follows from the bytes it started with. */
  predicate ReadsAs(before: Bytes, r: Result<Value, FrameError>, after: Bytes) {
    && after == Leftover(before)
    && match ParseFrame(before)
       case Ok((m, rest)) => r == Ok(m) && after == rest
       case Err(e) => r == Err(e)
  }

  /** The blocking reader. */
  method ReadFrame(stream: ByteStream) returns (r: Result<Value, FrameError>)
    modifies stream`incoming
    ensures ReadsAs(old(stream.incoming), r, stream.incoming)
  {
    hide ParseFrame, Leftover, DecodeFramePayload, FromBigEndian32, KindFromCode;
    ghost var was := stream.incoming;
    LengthOutcome(was);
    var header := stream.ReadExact(4);
    if header.None? { return Err(Eof); }
    var size := FromBigEndian32(header.value);
    if size < 4 { return Err(TooSmall(size)); }
    if size > MAX_FRAME_BYTES { return Err(TooBig(size)); }
    var tag := stream.ReadExact(4);
    if tag.None? { return Err(Eof); }
    ReadInParts(was, Min(|was|, size + 4));
    var code := FromBigEndian32(tag.value);
    TagOutcome(was, size, code);
    var kind := KindFromCode(code);
    if kind.None? { return Err(UnknownKind(code)); }
    var payload := stream.ReadExact(size - 4);
    if payload.None? { return Err(Eof); }
    PayloadOutcome(was, size, kind.value);
    r := DecodeFramePayload(kind.value, payload.value);
  }

  /** The reader of QUIC streams, which fills caller-owned buffers while it waits. By
      its contract it accepts the same inputs, with the same outcome, as `ReadFrame`. */
  method ReadFrameAsync(recv: ByteStream) returns (r: Result<Value, FrameError>)
    modifies recv`incoming
    ensures ReadsAs(old(recv.incoming), r, recv.incoming)
  {
    hide ParseFrame, Leftover, DecodeFramePayload, FromBigEndian32, KindFromCode;
    ghost var was := recv.incoming;
    LengthOutcome(was);
    var len := recv.ReadExact(4);
    if len.None? { return Err(Eof); }
    var frameLen := FromBigEndian32(len.value);
    if frameLen < 4 { return Err(TooSmall(frameLen)); }
    if frameLen > MAX_FRAME_BYTES { return Err(TooBig(frameLen)); }
    var kindRaw := recv.ReadExact(4);
    if kindRaw.None? { return Err(Eof); }
    ReadInParts(was, Min(|was|, frameLen + 4));
    TagOutcome(was, frameLen, FromBigEndian32(kindRaw.value));
    match KindFromCode(FromBigEndian32(kindRaw.value)) {
      case None => return Err(UnknownKind(FromBigEndian32(kindRaw.value)));
      case Some(kind) =>
        var payload := recv.ReadExact(frameLen - 4);
        if payload.None? { return Err(Eof); }
        PayloadOutcome(was, frameLen, kind);
        r := DecodeFramePayload(kind, payload.value);
    }
  }

  /** Writes the whole frame, or writes nothing and fails when it is too big. */
  method WriteFrame(stream: ByteStream, m: Value) returns (r: Option<FrameError>)
    requires IsMessage(m)
    modifies stream`outgoing
    ensures match EncodeFrame(m)
            case Ok(frame) => r == None && stream.outgoing == old(stream.outgoing) + frame
            case Err(e) => r == Some(e) && stream.outgoing == old(stream.outgoing)
  {
    hide EncodeFrame, IsMessage;
    match EncodeFrame(m) {
      case Ok(frame) =>
        stream.WriteAll(frame);
        return None;
      case Err(e) => return Some(e);
    }
  }

  // ---- the prelude --------------------------------------------------------------------

  datatype PreludeError = PreludeEof | BadMagic(magic: Bytes) | VersionMismatch(version: u16)

  function PreludeBytes(version: u16): Bytes { MAGIC + [version / 0x100, version % 0x100] }

  method WritePrelude(stream: ByteStream)
    modifies stream`outgoing
    ensures stream.outgoing == old(stream.outgoing) + PreludeBytes(PROTOCOL_VERSION)
  {
    stream.WriteAll(MAGIC);
    stream.WriteAll([PROTOCOL_VERSION / 0x100, PROTOCOL_VERSION % 0x100]);
  }

  /** Succeeds exactly on a stream that starts with this end's own prelude, and
      names what was wrong otherwise. */
  method ReadPrelude(stream: ByteStream) returns (r: Result<u16, PreludeError>)
    modifies stream`incoming
    ensures r.Ok? <==> PreludeBytes(PROTOCOL_VERSION) <= old(stream.incoming)
    ensures r.Ok? ==> r.value == PROTOCOL_VERSION
                      && old(stream.incoming) == PreludeBytes(PROTOCOL_VERSION) + stream.incoming
    ensures r == Err(PreludeEof) <==>
            (|old(stream.incoming)| < 4 || (MAGIC <= old(stream.incoming) && |old(stream.incoming)| < 6))
    ensures |old(stream.incoming)| >= 4 && !(MAGIC <= old(stream.incoming)) ==>
              r == Err(BadMagic(old(stream.incoming)[..4]))
    ensures forall version: u16 | PreludeBytes(version) <= old(stream.incoming) && version != PROTOCOL_VERSION ::
              r == Err(VersionMismatch(version))
  {
    ghost var was := stream.incoming;
    var magic := stream.ReadExact(4);
    if magic.None? { return Err(PreludeEof); }
    assert MAGIC <= was <==> was[..4] == MAGIC;
    if magic.value != MAGIC { return Err(BadMagic(magic.value)); }
    var bytes := stream.ReadExact(2);
    if bytes.None? { return Err(PreludeEof); }
    var version: u16 := 0x100 * bytes.value[0] as int + bytes.value[1] as int;
    PreludeStarts(was, version);
    if version != PROTOCOL_VERSION { return Err(VersionMismatch(version)); }
    assert was == PreludeBytes(PROTOCOL_VERSION) + was[4..][2..];
    r := Ok(version);
  }

  lemma PreludeStarts(bytes: Bytes, version: u16)
    requires |bytes| >= 6 && MAGIC <= bytes
    requires version == 0x100 * bytes[4] as int + bytes[5] as int
    ensures forall v: u16 :: PreludeBytes(v) <= bytes <==> v == version
  {
    forall v: u16
      ensures PreludeBytes(v) <= bytes <==> v == version
    {
      assert PreludeBytes(v) <= bytes <==> bytes[4] == v / 0x100 && bytes[5] == v % 0x100;
    }
  }
}
