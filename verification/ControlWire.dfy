/** The control session over bytes: what the daemon makes of whatever a client sends. */
module ControlWire {
  import opened MachineInts
  import opened Wrappers
  import opened Postcard
  import opened Occurrences
  import W = MessageWire
  import F = Framing
  import S = ControlSession

  // ---- typed values ------------------------------------------------------------------

  /** A text is kept as the characters of its UTF-8 bytes. */
  function TextOf(v: Value): string {
    if v.Raw? then seq(|v.bytes|, i requires 0 <= i < |v.bytes| => v.bytes[i] as char) else ""
  }

  function NumOf(v: Value): int { if v.Num? then v.n else 0 }

  function Word(v: Value): u64 { if 0 <= NumOf(v) < TWO_64 then NumOf(v) else 0 }

  function Short(v: Value): u16 { if 0 <= NumOf(v) < TWO_16 then NumOf(v) else 0 }

  function FlagOf(v: Value): bool { v.Bool? && v.b }

  function Maybe<T>(v: Value, of: Value -> T): Option<T> { if v.Present? then Some(of(v.inner)) else None }

  function TextsOf(v: Value): seq<string> {
    if v.Items? then seq(|v.items|, i requires 0 <= i < |v.items| => TextOf(v.items[i])) else []
  }

  function Same(v: Value): Value { v }

  /** The i-th field of a record, whatever its shape. */
  function At(vs: Values, i: nat): Value {
    if vs.Last? then Absent else if i == 0 then vs.head else At(vs.tail, i - 1)
  }

  function FieldsOf(v: Value): Values { if v.Record? then v.record else Last }

  /** A request's method, by the order of the variants on the wire. */
  function AsMethod(v: Value): S.Method
    requires v.Pick?
  {
    var fs := FieldsOf(v.payload);
    match v.index
    case 0 => S.Authenticate(if At(fs, 0).Raw? then At(fs, 0).bytes else [])
    case 1 => S.Status
    case 2 =>
      S.StartInstance(TextOf(At(fs, 0)), Short(At(fs, 1)), FlagOf(At(fs, 2)),
                      Maybe(At(fs, 3), Same), Maybe(At(fs, 4), Short), Maybe(At(fs, 5), TextOf))
    case 3 => S.StopInstance(TextOf(At(fs, 0)))
    case 4 => S.LaunchApp(TextOf(At(fs, 0)), TextOf(At(fs, 1)), TextsOf(At(fs, 2)), Word(At(fs, 3)))
    case 5 => S.WaitSocket(TextOf(At(fs, 0)), Word(At(fs, 1)))
    case _ => S.PrepareDataPlane(Maybe(At(fs, 0), TextOf), At(fs, 1), Maybe(At(fs, 2), Same), TextOf(At(fs, 3)))
  }

  /** A message read from the wire, as the session looks at it. */
  function AsMessage(v: Value): S.Message
    requires W.IsMessage(v)
  {
    hide W.IsMessage;
    W.MessageHasIndex(v);
    var fs := FieldsOf(v.payload);
    match v.index
    case 0 => S.Hello(Short(At(fs, 0)), TextOf(At(fs, 1)))
    case 2 => S.Goodbye(TextOf(At(fs, 0)))
    case 3 => S.Ping(Word(At(fs, 0)), Word(At(fs, 1)))
    case 4 => S.Pong(Word(At(fs, 0)), Word(At(fs, 1)))
    case 12 => if At(fs, 1).Pick? then S.Request(Word(At(fs, 0)), AsMethod(At(fs, 1))) else S.Other(W.RpcRequest)
    case _ => S.Other(W.KindOf(v))
  }

  /** The session sees every message under the kind its frame carries. */
  lemma KindIsKept(v: Value)
    requires W.IsMessage(v)
    ensures S.KindOf(AsMessage(v)) == W.KindOf(v)
  {
    hide W.IsMessage;
    W.MessageHasIndex(v);
  }

  // ---- a request on the wire ----------------------------------------------------------------

  lemma CaseAtFour(ts: Schemas, i: nat)
    requires CaseCount(ts) > i + 4
    ensures ts.Then? && ts.tail.Then? && ts.tail.tail.Then? && ts.tail.tail.tail.Then?
    ensures var rest := ts.tail.tail.tail.tail; CaseCount(rest) > i && CaseAt(ts, i + 4) == CaseAt(rest, i)
  {
    var two := ts.tail.tail;
    assert CaseAt(ts, i + 4) == CaseAt(two, i + 2);
  }

  lemma RequestCase()
    ensures CaseCount(W.MessageCases()) > 12
    ensures CaseAt(W.MessageCases(), 12) == W.Struct2(U64, W.RpcMethod())
  {
    hide W.Struct1, W.Struct2, W.Struct3, W.Struct4, W.Copies, W.Either, W.WindowEvent, W.FrameTileType, W.InputEvent,
      W.RpcMethod, W.RpcOk;
    W.SixteenMessages();
    var ts := W.MessageCases();
    var rest4 := ts.tail.tail.tail.tail;
    var rest8 := rest4.tail.tail.tail.tail;
    var rest12 := rest8.tail.tail.tail.tail;
    CaseAtFour(rest8, 0);
    CaseAtFour(rest4, 4);
    CaseAtFour(ts, 8);
  }

  lemma RequestFields(payload: Value)
    requires HasType(payload, W.Struct2(U64, W.RpcMethod()))
    ensures At(FieldsOf(payload), 1).Pick?
  {
    hide W.Struct1, W.Struct3, W.Struct4, W.IpAddr, W.SocketAddr;
  }

  lemma PayloadTyped(v: Value)
    requires W.IsMessage(v)
    ensures v.Pick? && v.index < CaseCount(W.MessageCases()) && HasType(v.payload, CaseAt(W.MessageCases(), v.index))
  {
    hide W.MessageCases;
  }

  /** A frame of the request kind is always seen as a request, and nothing else is. */
  lemma RequestsAreRequests(v: Value)
    requires W.IsMessage(v)
    ensures AsMessage(v).Request? <==> W.KindOf(v) == W.RpcRequest
  {
    hide W.IsMessage, W.MessageCases, W.Struct2, W.RpcMethod, HasType;
    W.MessageHasIndex(v);
    PayloadTyped(v);
    RequestCase();
    if v.index == 12 {
      RequestFields(v.payload);
    }
  }

  // ---- the token is in the stream -----------------------------------------------------------------

  lemma {:induction false} FieldMentioned(vs: Values, i: nat, raw: Bytes)
    requires Mentions(At(vs, i), raw)
    ensures FieldsMention(vs, raw)
    decreases i
  {
    if vs.More? && i > 0 {
      FieldMentioned(vs.tail, i - 1, raw);
    }
  }

  /** A message that presents a token carries the token's bytes. */
  lemma PresentedIsMentioned(v: Value, token: Bytes)
    requires W.IsMessage(v) && token != [] && S.Presents(AsMessage(v), token)
    ensures Mentions(v, token)
  {
    hide W.IsMessage;
    W.MessageHasIndex(v);
    var fs := FieldsOf(v.payload);
    var call := At(fs, 1);
    FieldMentioned(FieldsOf(call.payload), 0, token);
    FieldMentioned(fs, 1, token);
  }

  lemma {:induction false} StreamTyped(bytes: Bytes, k: nat)
    requires k < |F.ReadStream(bytes).0|
    ensures W.IsMessage(F.ReadStream(bytes).0[k])
    decreases |bytes|
  {
    hide F.ParseFrame, W.IsMessage;
    var (m, rest) := F.ParseFrame(bytes).value;
    F.ParseConsumes(bytes);
    if k == 0 {
      AcceptedIsTyped(bytes);
    } else {
      StreamTyped(rest, k - 1);
    }
  }

  lemma AcceptedIsTyped(bytes: Bytes)
    requires F.ParseFrame(bytes).Ok?
    ensures W.IsMessage(F.ParseFrame(bytes).value.0)
  {
    hide F.DecodeMessage, W.IsMessage, F.FromBigEndian32, W.KindFromCode, W.KindOf;
  }

  // ---- a client, as bytes ---------------------------------------------------------------------------

  /** The messages the daemon reads off a stream of frames before it ends or stops
      parsing. */
  function Received(bytes: Bytes): (ms: seq<S.Message>)
    ensures |ms| == |F.ReadStream(bytes).0|
    ensures forall i | 0 <= i < |ms| ::
              W.IsMessage(F.ReadStream(bytes).0[i]) && ms[i] == AsMessage(F.ReadStream(bytes).0[i])
  {
    hide W.IsMessage, AsMessage, F.ReadStream;
    var vs := F.ReadStream(bytes).0;
    AllTyped(bytes);
    seq(|vs|, i requires 0 <= i < |vs| => AsMessage(vs[i]))
  }

  lemma AllTyped(bytes: Bytes)
    ensures forall i | 0 <= i < |F.ReadStream(bytes).0| :: W.IsMessage(F.ReadStream(bytes).0[i])
  {
    hide W.IsMessage, F.ReadStream;
    forall i | 0 <= i < |F.ReadStream(bytes).0|
      ensures W.IsMessage(F.ReadStream(bytes).0[i])
    {
      StreamTyped(bytes, i);
    }
  }

  /** A peer whose bytes do not contain the token is never trusted. */
  lemma TokenlessIsUntrusted(bytes: Bytes, token: Bytes, k: nat)
    requires !Occurs(token, bytes) && k <= |Received(bytes)|
    ensures !S.Trusted(false, token, Received(bytes), k)
  {
    hide W.IsMessage, AsMessage, F.ReadStream, Mentions, S.Presents;
    hide Occurs;
    EmptyOccurs(bytes);
    var ms := Received(bytes);
    forall j | 0 <= j < k
      ensures !S.Presents(ms[j], token)
    {
      if S.Presents(ms[j], token) {
        PresentedIsMentioned(F.ReadStream(bytes).0[j], token);
        StreamMentions(bytes, j, token);
      }
    }
  }

  /** Every byte stream in which the token does not occur, whatever else it holds, leaves
      the daemon state as it was and is answered in a way that does not depend on it. */
  lemma TokenlessStreamIsBlind<T>(run: S.Handler<T>, s: T, t: T, bytes: Bytes, token: Bytes, k: nat)
    requires !Occurs(token, bytes) && k <= |Received(bytes)|
    ensures S.StateBefore(run, s, false, token, Received(bytes), k) == s
    ensures k < |Received(bytes)| ==>
              S.ReplyTo(run, s, false, token, Received(bytes), k)
              == S.ReplyTo(run, t, false, token, Received(bytes), k)
  {
    hide Occurs, Received, S.Trusted, S.StateBefore, S.ReplyTo;
    TokenlessIsUntrusted(bytes, token, k);
    S.UntrustedPeerIsBlind(run, s, t, token, Received(bytes), k);
  }

  // ---- the whole connection ---------------------------------------------------------------------------

  function Frames(ms: seq<S.Message>): seq<S.Item> { seq(|ms|, i requires 0 <= i < |ms| => S.Frame(ms[i])) }

  /** What a session reads from a client's bytes: the prelude, if it is the right one, and
      then the messages. */
  function ClientItems(bytes: Bytes): seq<S.Item> {
    if F.PreludeBytes(F.PROTOCOL_VERSION) <= bytes then [S.Prelude] + Frames(Received(bytes[6..])) else []
  }

  lemma {:induction false} MessagesOfFrames(ms: seq<S.Message>)
    ensures S.Messages(Frames(ms)) == ms
    decreases |ms|
  {
    if ms != [] {
      assert Frames(ms)[1..] == Frames(ms[1..]);
      MessagesOfFrames(ms[1..]);
    }
  }

  lemma UntrustedTail(ms: seq<S.Message>, token: S.Token, k: nat)
    requires ms != [] && k <= |ms| - 1 && !S.Trusted(false, token, ms, |ms|)
    ensures !S.Trusted(false, token, ms[1..], k)
  {
    hide S.Presents;
    forall j | 0 <= j < k
      ensures !S.Presents(ms[1..][j], token)
    {
      assert ms[1..][j] == ms[j + 1];
    }
  }

  lemma TokenlessTail<T>(run: S.Handler<T>, s: T, bytes: Bytes, token: Bytes, k: nat)
    requires !Occurs(token, bytes) && F.PreludeBytes(F.PROTOCOL_VERSION) <= bytes
    requires Received(bytes[6..]) != [] && k < |Received(bytes[6..])|
    ensures S.StateBefore(run, s, false, token, Received(bytes[6..])[1..], k) == s
  {
    hide Occurs, Received, S.Trusted, S.StateBefore;
    var ms := Received(bytes[6..]);
    if Occurs(token, bytes[6..]) {
      OccursInSuffix(token, bytes, bytes[6..]);
    }
    TokenlessIsUntrusted(bytes[6..], token, |ms|);
    UntrustedTail(ms, token, k);
    S.UntrustedPeerIsBlind(run, s, s, token, ms[1..], k);
  }

  /** A greeting comes only after the right prelude and a first message. */
  lemma GreetingItems(bytes: Bytes)
    requires S.Greets(ClientItems(bytes))
    ensures |bytes| >= 6 && F.PreludeBytes(F.PROTOCOL_VERSION) <= bytes && Received(bytes[6..]) != []
    ensures |ClientItems(bytes)| >= 2 && ClientItems(bytes)[2..] == Frames(Received(bytes[6..])[1..])
  {
    PreludeLength();
    hide Received, F.PreludeBytes, Frames;
    FramesTail(Received(bytes[6..]));
  }

  lemma PreludeLength()
    ensures |F.PreludeBytes(F.PROTOCOL_VERSION)| == 6
  {
  }

  lemma FramesTail(ms: seq<S.Message>)
    ensures |Frames(ms)| == |ms|
    ensures ms != [] ==> ([S.Prelude] + Frames(ms))[2..] == Frames(ms[1..])
  {
  }

  lemma TokenlessSession<T>(
    ok: bool, said: seq<S.Item>, after: T, run: S.Handler<T>, s: T, bytes: Bytes, token: Bytes, sessionId: u64,
    room: nat)
    requires S.Conducted(ok, said, after, run, s, false, token, sessionId, ClientItems(bytes), room)
    requires !Occurs(token, bytes)
    ensures after == s
  {
    hide Occurs, Received, S.StateBefore, S.Messages, S.Paired, S.AnswersFirst, F.PreludeBytes, Frames, ClientItems,
      S.Greets;
    if S.Greets(ClientItems(bytes)) && room >= 2 {
      GreetingItems(bytes);
      var ms := Received(bytes[6..])[1..];
      MessagesOfFrames(ms);
      TokenlessTail(run, s, bytes, token, Min(S.Answered(ms), room - 1));
    }
  }

  /** Serves one plain connection from the client's bytes. Whatever they are and however
      long the client listens, the session is conducted on exactly the messages they carry;
      and if the daemon's token does not occur among them the daemon state is untouched. */
  method ServeClient<T>(bytes: Bytes, room: nat, daemon: S.Daemon<T>, token: Bytes, sessionId: u64)
    returns (ok: bool, said: seq<S.Item>)
    modifies daemon`state
    ensures S.Conducted(ok, said, daemon.state, daemon.run, old(daemon.state), false, token, sessionId,
                        ClientItems(bytes), room)
    ensures !Occurs(token, bytes) ==> daemon.state == old(daemon.state)
  {
    hide Occurs, S.Conducted, ClientItems;
    var conn := new S.Connection(ClientItems(bytes), room);
    ok := S.HandleSession(conn, daemon, false, token, sessionId);
    said := conn.outgoing;
    if !Occurs(token, bytes) {
      TokenlessSession(ok, said, daemon.state, daemon.run, old(daemon.state), bytes, token, sessionId, room);
    }
  }
}
