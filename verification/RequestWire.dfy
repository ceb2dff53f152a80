/** A client's messages as values on the wire, and what the daemon makes of them:
    every field of every method arrives as it was sent. */
module RequestWire {
  import opened MachineInts
  import opened Wrappers
  import opened Postcard
  import W = MessageWire
  import F = Framing
  import S = ControlSession
  import C = ControlWire

  // ---- fields ---------------------------------------------------------------------------

  predicate Bytewise(s: string) { forall i | 0 <= i < |s| :: s[i] as int < 0x100 }

  function BytesOf(s: string): Bytes
    requires Bytewise(s)
  {
    seq(|s|, i requires 0 <= i < |s| => s[i] as int)
  }

  /** A text whose characters are the bytes of well-formed UTF-8. */
  predicate IsText(s: string) { |s| < TWO_64 && Bytewise(s) && ValidUtf8(BytesOf(s)) }

  function TextValue(s: string): Value
    requires IsText(s)
  {
    Raw(BytesOf(s))
  }

  predicate AreTexts(ss: seq<string>) { |ss| < TWO_64 && forall i | 0 <= i < |ss| :: IsText(ss[i]) }

  function TextsValue(ss: seq<string>): Value
    requires AreTexts(ss)
  {
    Items(seq(|ss|, i requires 0 <= i < |ss| => TextValue(ss[i])))
  }

  predicate MayBeText(s: Option<string>) { s.Some? ==> IsText(s.value) }

  function MaybeText(s: Option<string>): Value
    requires MayBeText(s)
  {
    match s
    case None => Absent
    case Some(t) => Present(TextValue(t))
  }

  function MaybeNum(n: Option<u16>): Value {
    match n
    case None => Absent
    case Some(k) => Present(Num(k))
  }

  function MaybeAddress(a: Option<S.Address>): Value {
    match a
    case None => Absent
    case Some(v) => Present(v)
  }

  // ---- methods ----------------------------------------------------------------------------

  /** The method can be written: its texts are UTF-8 and its addresses are addresses. */
  predicate Writable(call: S.Method) {
    match call
    case Authenticate(token) => |token| < TWO_64 && ValidUtf8(token)
    case Status => true
    case StartInstance(name, _, _, bind, _, token) =>
      IsText(name) && (bind.Some? ==> HasType(bind.value, W.IpAddr())) && MayBeText(token)
    case StopInstance(name) => IsText(name)
    case LaunchApp(name, socket, argv, _) => IsText(name) && IsText(socket) && AreTexts(argv)
    case WaitSocket(socket, _) => IsText(socket)
    case PrepareDataPlane(owner, tcp, quic, token) =>
      && MayBeText(owner) && HasType(tcp, W.SocketAddr())
      && (quic.Some? ==> HasType(quic.value, W.SocketAddr())) && IsText(token)
  }

  /** Each method on the wire: its number among the methods and its fields in order. */
  function MethodValue(call: S.Method): Value
    requires Writable(call)
  {
    match call
    case Authenticate(token) => Pick(0, Record(More(Raw(token), Last)))
    case Status => Pick(1, Record(Last))
    case StartInstance(name, port, debug, bind, quicPort, token) =>
      Pick(2, Record(More(TextValue(name), More(Num(port), More(Bool(debug),
                     More(MaybeAddress(bind), More(MaybeNum(quicPort), More(MaybeText(token), Last))))))))
    case StopInstance(name) => Pick(3, Record(More(TextValue(name), Last)))
    case LaunchApp(name, socket, argv, wait) =>
      Pick(4, Record(More(TextValue(name), More(TextValue(socket), More(TextsValue(argv), More(Num(wait), Last))))))
    case WaitSocket(socket, timeout) => Pick(5, Record(More(TextValue(socket), More(Num(timeout), Last))))
    case PrepareDataPlane(owner, tcp, quic, token) =>
      Pick(6, Record(More(MaybeText(owner), More(tcp, More(MaybeAddress(quic), More(TextValue(token), Last))))))
  }

  /** The messages a client has reason to send. */
  predicate Sendable(m: S.Message) {
    match m
    case Hello(_, name) => IsText(name)
    case Goodbye(reason) => IsText(reason)
    case Ping(_, _) => true
    case Pong(_, _) => true
    case Request(_, call) => Writable(call)
    case _ => false
  }

  function MessageValue(m: S.Message): Value
    requires Sendable(m)
  {
    match m
    case Hello(version, name) => Pick(0, Record(More(Num(version), More(TextValue(name), Last))))
    case Goodbye(reason) => Pick(2, Record(More(TextValue(reason), Last)))
    case Ping(seqNo, stamp) => Pick(3, Record(More(Num(seqNo), More(Num(stamp), Last))))
    case Pong(seqNo, stamp) => Pick(4, Record(More(Num(seqNo), More(Num(stamp), Last))))
    case Request(id, call) => Pick(12, Record(More(Num(id), More(MethodValue(call), Last))))
  }

  // ---- typing ------------------------------------------------------------------------------

  lemma TextTyped(s: string)
    requires IsText(s)
    ensures HasType(TextValue(s), Text)
    ensures C.TextOf(TextValue(s)) == s
  {
    hide ValidUtf8;
  }

  lemma TextsTyped(ss: seq<string>)
    requires AreTexts(ss)
    ensures HasType(TextsValue(ss), List(Text))
    ensures C.TextsOf(TextsValue(ss)) == ss
  {
    hide IsText, TextValue, C.TextOf;
    var v := TextsValue(ss);
    forall i | 0 <= i < |ss|
      ensures HasType(v.items[i], Text) && C.TextOf(v.items[i]) == ss[i]
    {
      TextTyped(ss[i]);
    }
  }

  lemma MaybeTextTyped(s: Option<string>)
    requires MayBeText(s)
    ensures HasType(MaybeText(s), Optional(Text))
    ensures C.Maybe(MaybeText(s), C.TextOf) == s
  {
    hide IsText, TextValue, C.TextOf;
    if s.Some? {
      TextTyped(s.value);
    }
  }

  lemma OneField(a: Value, s: Schema)
    requires HasType(a, s)
    ensures HasType(Record(More(a, Last)), W.Struct1(s))
  {
  }

  lemma TwoFields(a: Value, s: Schema, b: Value, t: Schema)
    requires HasType(a, s) && HasType(b, t)
    ensures HasType(Record(More(a, More(b, Last))), W.Struct2(s, t))
  {
    assert HaveTypes(More(b, Last), Then(t, End));
  }

  lemma FourFields(a: Value, s: Schema, b: Value, t: Schema, c: Value, u: Schema, d: Value, w: Schema)
    requires HasType(a, s) && HasType(b, t) && HasType(c, u) && HasType(d, w)
    ensures HasType(Record(More(a, More(b, More(c, More(d, Last))))), W.Struct4(s, t, u, w))
  {
    var two := More(c, More(d, Last));
    assert HaveTypes(More(d, Last), Then(w, End));
    assert HaveTypes(two, Then(u, Then(w, End)));
    assert HaveTypes(More(b, two), Then(t, Then(u, Then(w, End))));
  }

  function StartFields(): Schemas {
    Then(Text, Then(U16, Then(Flag, Then(Optional(W.IpAddr()), Then(Optional(U16), Then(Optional(Text), End))))))
  }

  /** The fields of each method, by its number. */
  lemma MethodCases()
    ensures var ts := W.RpcMethod().cases;
            && W.RpcMethod() == Choice(ts) && CaseCount(ts) == 7
            && CaseAt(ts, 0) == W.Struct1(Text) && CaseAt(ts, 1) == Tuple(End)
            && CaseAt(ts, 2) == Tuple(StartFields()) && CaseAt(ts, 3) == W.Struct1(Text)
            && CaseAt(ts, 4) == W.Struct4(Text, Text, List(Text), U64)
            && CaseAt(ts, 5) == W.Struct2(Text, U64)
            && CaseAt(ts, 6) == W.Struct4(Optional(Text), W.SocketAddr(), Optional(W.SocketAddr()), Text)
  {
    hide W.Struct1, W.Struct2, W.Struct4, W.IpAddr, W.SocketAddr, StartFields;
    var ts := W.RpcMethod().cases;
    assert CaseAt(ts, 2) == Tuple(StartFields()) by { StartCase(); }
    var rest := ts.tail.tail.tail.tail;
    assert CaseCount(rest) == 3;
    assert CaseCount(ts) == 7;
    C.CaseAtFour(ts, 0);
    C.CaseAtFour(ts, 1);
    C.CaseAtFour(ts, 2);
  }

  lemma StartCase()
    ensures CaseCount(W.RpcMethod().cases) > 2 && CaseAt(W.RpcMethod().cases, 2) == Tuple(StartFields())
  {
    hide W.Struct1, W.Struct2, W.Struct4, W.IpAddr, W.SocketAddr;
  }

  lemma StartTyped(name: string, port: u16, debug: bool, bind: Option<S.Address>, quicPort: Option<u16>,
                   token: Option<string>)
    requires IsText(name) && (bind.Some? ==> HasType(bind.value, W.IpAddr())) && MayBeText(token)
    ensures HasType(MethodValue(S.StartInstance(name, port, debug, bind, quicPort, token)).payload,
                    Tuple(StartFields()))
  {
    hide W.IpAddr, IsText, TextValue, MaybeText;
    TextTyped(name);
    MaybeTextTyped(token);
    var three := More(MaybeAddress(bind), More(MaybeNum(quicPort), More(MaybeText(token), Last)));
    var threeTypes := Then(Optional(W.IpAddr()), Then(Optional(U16), Then(Optional(Text), End)));
    assert HaveTypes(More(MaybeText(token), Last), Then(Optional(Text), End));
    assert HaveTypes(three, threeTypes);
    assert HaveTypes(More(Bool(debug), three), Then(Flag, threeTypes));
    assert HaveTypes(More(Num(port), More(Bool(debug), three)), Then(U16, Then(Flag, threeTypes)));
  }

  lemma MethodPayload(call: S.Method)
    requires Writable(call)
    ensures var v := MethodValue(call);
            && v.Pick? && v.index < 7
            && HasType(v.payload, CaseAt(W.RpcMethod().cases, v.index))
  {
    hide W.Struct1, W.Struct2, W.Struct4, W.IpAddr, W.SocketAddr, W.RpcMethod, StartFields, TextValue, TextsValue,
      MaybeText, IsText, CaseAt, C.TextOf, C.TextsOf, C.Maybe, AreTexts, MayBeText;
    MethodCases();
    match call
    case Authenticate(token) => OneField(Raw(token), Text);
    case Status =>
    case StartInstance(name, port, debug, bind, quicPort, token) =>
      StartTyped(name, port, debug, bind, quicPort, token);
    case StopInstance(name) =>
      TextTyped(name);
      OneField(TextValue(name), Text);
    case LaunchApp(name, socket, argv, wait) =>
      TextTyped(name);
      TextTyped(socket);
      TextsTyped(argv);
      FourFields(TextValue(name), Text, TextValue(socket), Text, TextsValue(argv), List(Text), Num(wait), U64);
    case WaitSocket(socket, timeout) =>
      TextTyped(socket);
      TwoFields(TextValue(socket), Text, Num(timeout), U64);
    case PrepareDataPlane(owner, tcp, quic, token) =>
      MaybeTextTyped(owner);
      TextTyped(token);
      FourFields(MaybeText(owner), Optional(Text), tcp, W.SocketAddr(), MaybeAddress(quic), Optional(W.SocketAddr()),
                 TextValue(token), Text);
  }

  lemma MethodTyped(call: S.Method)
    requires Writable(call)
    ensures HasType(MethodValue(call), W.RpcMethod())
  {
    hide W.RpcMethod, MethodValue, CaseAt, Writable;
    MethodCases();
    MethodPayload(call);
  }

  // ---- the way back --------------------------------------------------------------------------

  lemma AtTwo(a: Value, b: Value, vs: Values)
    ensures C.At(More(a, More(b, vs)), 0) == a && C.At(More(a, More(b, vs)), 1) == b
  {
  }

  lemma AtLater(a: Value, b: Value, vs: Values, k: nat)
    ensures C.At(More(a, More(b, vs)), k + 2) == C.At(vs, k)
  {
    assert C.At(More(b, vs), k + 1) == C.At(vs, k);
  }

  lemma AtFour(a: Value, b: Value, c: Value, d: Value, vs: Values)
    ensures var fs := More(a, More(b, More(c, More(d, vs))));
            C.At(fs, 0) == a && C.At(fs, 1) == b && C.At(fs, 2) == c && C.At(fs, 3) == d
  {
    hide C.At;
    AtTwo(a, b, More(c, More(d, vs)));
    AtTwo(c, d, vs);
    AtLater(a, b, More(c, More(d, vs)), 0);
    AtLater(a, b, More(c, More(d, vs)), 1);
  }

  lemma AtSix(a: Value, b: Value, c: Value, d: Value, e: Value, f: Value)
    ensures var fs := More(a, More(b, More(c, More(d, More(e, More(f, Last))))));
            && C.At(fs, 0) == a && C.At(fs, 1) == b && C.At(fs, 2) == c && C.At(fs, 3) == d
            && C.At(fs, 4) == e && C.At(fs, 5) == f
  {
    hide C.At;
    var last := More(c, More(d, More(e, More(f, Last))));
    AtTwo(a, b, last);
    AtFour(c, d, e, f, Last);
    AtLater(a, b, last, 0);
    AtLater(a, b, last, 1);
    AtLater(a, b, last, 2);
    AtLater(a, b, last, 3);
  }

  /** The daemon reads back the method that was written, every field of it. */
  lemma MethodArrives(call: S.Method)
    requires Writable(call)
    ensures C.AsMethod(MethodValue(call)) == call
  {
    match call
    case Authenticate(token) =>
    case Status =>
    case StartInstance(name, port, debug, bind, quicPort, token) =>
      StartArrives(name, port, debug, bind, quicPort, token);
    case StopInstance(name) => TextTyped(name);
    case LaunchApp(name, socket, argv, wait) => LaunchArrives(name, socket, argv, wait);
    case WaitSocket(socket, timeout) => WaitArrives(socket, timeout);
    case PrepareDataPlane(owner, tcp, quic, token) => PrepareArrives(owner, tcp, quic, token);
  }

  lemma StartArrives(name: string, port: u16, debug: bool, bind: Option<S.Address>, quicPort: Option<u16>,
                     token: Option<string>)
    requires Writable(S.StartInstance(name, port, debug, bind, quicPort, token))
    ensures C.AsMethod(MethodValue(S.StartInstance(name, port, debug, bind, quicPort, token)))
         == S.StartInstance(name, port, debug, bind, quicPort, token)
  {
    hide TextValue, IsText, C.TextOf, C.At, MaybeText, MayBeText;
    TextTyped(name);
    MaybeTextTyped(token);
    AtSix(TextValue(name), Num(port), Bool(debug), MaybeAddress(bind), MaybeNum(quicPort), MaybeText(token));
    assert C.Maybe(MaybeNum(quicPort), C.Short) == quicPort;
    assert C.Maybe(MaybeAddress(bind), C.Same) == bind;
  }

  lemma LaunchArrives(name: string, socket: string, argv: seq<string>, wait: u64)
    requires Writable(S.LaunchApp(name, socket, argv, wait))
    ensures C.AsMethod(MethodValue(S.LaunchApp(name, socket, argv, wait))) == S.LaunchApp(name, socket, argv, wait)
  {
    hide TextValue, TextsValue, IsText, AreTexts, C.TextOf, C.TextsOf, C.At;
    TextTyped(name);
    TextTyped(socket);
    TextsTyped(argv);
    AtFour(TextValue(name), TextValue(socket), TextsValue(argv), Num(wait), Last);
  }

  lemma WaitArrives(socket: string, timeout: u64)
    requires IsText(socket)
    ensures C.AsMethod(MethodValue(S.WaitSocket(socket, timeout))) == S.WaitSocket(socket, timeout)
  {
    hide TextValue, IsText, C.TextOf, C.At;
    TextTyped(socket);
    AtTwo(TextValue(socket), Num(timeout), Last);
  }

  lemma PrepareArrives(owner: Option<string>, tcp: S.Address, quic: Option<S.Address>, token: string)
    requires Writable(S.PrepareDataPlane(owner, tcp, quic, token))
    ensures C.AsMethod(MethodValue(S.PrepareDataPlane(owner, tcp, quic, token)))
         == S.PrepareDataPlane(owner, tcp, quic, token)
  {
    hide TextValue, IsText, C.TextOf, C.At, MaybeText, MayBeText;
    TextTyped(token);
    MaybeTextTyped(owner);
    AtFour(MaybeText(owner), tcp, MaybeAddress(quic), TextValue(token), Last);
    assert C.Maybe(MaybeAddress(quic), C.Same) == quic;
  }

  // ---- messages ------------------------------------------------------------------------------

  lemma ClientCases()
    ensures var ts := W.MessageCases();
            && CaseCount(ts) == 16
            && CaseAt(ts, 0) == W.Struct2(U16, Text) && CaseAt(ts, 2) == W.Struct1(Text)
            && CaseAt(ts, 3) == W.Struct2(U64, U64) && CaseAt(ts, 4) == W.Struct2(U64, U64)
            && CaseAt(ts, 12) == W.Struct2(U64, W.RpcMethod())
  {
    hide W.Struct1, W.Struct2, W.Struct3, W.Struct4, W.Copies, W.Either, W.WindowEvent, W.FrameTileType, W.InputEvent,
      W.RpcMethod, W.RpcOk;
    W.SixteenMessages();
    C.RequestCase();
    C.CaseAtFour(W.MessageCases(), 0);
  }

  lemma MessagePayload(m: S.Message)
    requires Sendable(m)
    ensures var v := MessageValue(m);
            && v.Pick? && v.index < 16
            && HasType(v.payload, CaseAt(W.MessageCases(), v.index))
  {
    hide W.Struct1, W.Struct2, W.MessageCases, W.RpcMethod, CaseAt, TextValue, IsText, MethodValue, Writable;
    ClientCases();
    match m
    case Hello(version, name) =>
      TextTyped(name);
      TwoFields(Num(version), U16, TextValue(name), Text);
    case Goodbye(reason) =>
      TextTyped(reason);
      OneField(TextValue(reason), Text);
    case Ping(seqNo, stamp) => TwoFields(Num(seqNo), U64, Num(stamp), U64);
    case Pong(seqNo, stamp) => TwoFields(Num(seqNo), U64, Num(stamp), U64);
    case Request(id, call) =>
      MethodTyped(call);
      TwoFields(Num(id), U64, MethodValue(call), W.RpcMethod());
  }

  lemma MessageTyped(m: S.Message)
    requires Sendable(m)
    ensures W.IsMessage(MessageValue(m))
  {
    hide W.MessageCases, MessageValue, CaseAt, Sendable;
    ClientCases();
    MessagePayload(m);
  }

  /** The daemon reads back the message that was written. */
  lemma MessageArrives(m: S.Message)
    requires Sendable(m)
    ensures W.IsMessage(MessageValue(m)) && C.AsMessage(MessageValue(m)) == m
  {
    hide W.IsMessage, TextValue, IsText, C.TextOf, C.AsMethod, MethodValue, Writable;
    MessageTyped(m);
    match m
    case Hello(version, name) =>
      TextTyped(name);
      AtTwo(Num(version), TextValue(name), Last);
      assert C.Short(Num(version)) == version;
    case Goodbye(reason) => TextTyped(reason);
    case Ping(seqNo, stamp) => TwoWords(seqNo, stamp);
    case Pong(seqNo, stamp) => TwoWords(seqNo, stamp);
    case Request(id, call) =>
      MethodArrives(call);
      AtTwo(Num(id), MethodValue(call), Last);
      MethodIsPick(call);
  }

  lemma TwoWords(a: u64, b: u64)
    ensures var fs := More(Num(a), More(Num(b), Last)); C.Word(C.At(fs, 0)) == a && C.Word(C.At(fs, 1)) == b
  {
    AtTwo(Num(a), Num(b), Last);
  }

  lemma MethodIsPick(call: S.Method)
    requires Writable(call)
    ensures MethodValue(call).Pick?
  {
  }

  // ---- streams --------------------------------------------------------------------------------

  /** Every message can be written and its frame is not too big. */
  predicate AllSendable(ms: seq<S.Message>) {
    forall i | 0 <= i < |ms| :: SendableFrame(ms[i])
  }

  predicate SendableFrame(m: S.Message) {
    && Sendable(m)
    && (MessageTyped(m); F.EncodeFrame(MessageValue(m)).Ok?)
  }

  function WireValues(ms: seq<S.Message>): (vs: seq<Value>)
    requires AllSendable(ms)
    ensures |vs| == |ms| && F.AllWritable(vs)
    ensures forall i | 0 <= i < |ms| :: vs[i] == MessageValue(ms[i])
  {
    hide W.IsMessage, Sendable, MessageValue, F.EncodeFrame;
    assert forall i | 0 <= i < |ms| :: SendableFrame(ms[i]);
    var vs := seq(|ms|, i requires 0 <= i < |ms| => MessageValue(ms[i]));
    assert F.AllWritable(vs) by {
      forall i | 0 <= i < |vs|
        ensures W.IsMessage(vs[i]) && F.EncodeFrame(vs[i]).Ok?
      {
        MessageTyped(ms[i]);
      }
    }
    vs
  }

  /** The frames of any messages, followed by anything, are received as exactly those
      messages, every field as it was, and then as whatever follows is. */
  lemma MessagesArrive(ms: seq<S.Message>, tail: Bytes)
    requires AllSendable(ms)
    ensures C.Received(F.WriteStream(WireValues(ms)) + tail) == ms + C.Received(tail)
  {
    hide W.IsMessage, C.AsMessage, Sendable, MessageValue, F.EncodeFrame, F.ReadStream, F.WriteStream;
    var bytes := F.WriteStream(WireValues(ms)) + tail;
    F.StreamRoundTrip(WireValues(ms), tail);
    var got := C.Received(bytes);
    forall i | 0 <= i < |got|
      ensures got[i] == (ms + C.Received(tail))[i]
    {
      if i < |ms| {
        assert SendableFrame(ms[i]);
        MessageArrives(ms[i]);
      }
    }
  }

  // ---- a whole connection ------------------------------------------------------------------------

  /** What a client writes: the prelude and its messages, frame by frame. */
  function ClientBytes(ms: seq<S.Message>): Bytes
    requires AllSendable(ms)
  {
    F.PreludeBytes(15) + F.WriteStream(WireValues(ms))
  }

  /** The bytes of the prelude and of any messages are what a session reads as the
      prelude and those messages. */
  lemma ClientArrives(ms: seq<S.Message>)
    requires AllSendable(ms)
    ensures C.ClientItems(ClientBytes(ms)) == [S.Prelude] + C.Frames(ms)
  {
    hide F.PreludeBytes, C.Received, F.WriteStream, C.Frames, AllSendable, F.ReadStream, F.EncodeFrame, MessageValue,
      W.IsMessage, C.AsMessage, F.AllWritable;
    C.PreludeLength();
    var stream := F.WriteStream(WireValues(ms));
    AfterPrelude(F.PreludeBytes(15), stream);
    MessagesArrive(ms, []);
    NothingReceived();
    assert C.Received(stream) == ms;
  }

  lemma AfterPrelude(prelude: Bytes, stream: Bytes)
    requires |prelude| == 6
    ensures prelude <= prelude + stream && (prelude + stream)[6..] == stream && stream + [] == stream
  {
  }

  lemma NothingReceived()
    ensures C.Received([]) == []
  {
  }

  predicate AreCalls(calls: seq<S.Message>) {
    forall i | 0 <= i < |calls| :: calls[i].Request? && !calls[i].call.Authenticate?
  }

  /** After the prelude, the Welcome and the answer to the token, each call is answered in
      turn with its id and what it came to. */
  ghost predicate AllAnsweredBy<T>(said: seq<S.Item>, run: S.Handler<T>, before: T, calls: seq<S.Message>)
    requires AreCalls(calls)
  {
    && |said| == 3 + |calls|
    && forall i | 0 <= i < |calls| ::
         said[3 + i] == S.Frame(S.Response(calls[i].id, run(RunAll(run, before, calls[..i]), calls[i].call).1))
  }

  /** A session whose items are the prelude and these messages has greeted, and answers
      all of them but the Hello. */
  lemma OpenedItems(name: string, callId: u64, token: Bytes, calls: seq<S.Message>)
    requires AreCalls(calls)
    ensures var items := [S.Prelude] + C.Frames(Opened(name, callId, token, calls));
            && S.Greets(items) && S.Messages(items[2..]) == Asking(callId, token, calls)
            && S.Answered(Asking(callId, token, calls)) == 1 + |calls|
  {
    hide C.Frames, S.Messages, S.Answered;
    var ms := Opened(name, callId, token, calls);
    C.FramesTail(ms);
    FrameAt(ms, 0);
    assert ms[1..] == Asking(callId, token, calls);
    C.MessagesOfFrames(ms[1..]);
    AllAnswered(Asking(callId, token, calls));
  }

  /** A client that greets, presents the token and makes calls has exactly those calls
      run, in order, with the fields it wrote: the daemon ends in the state they lead to
      and answers each with its id and what it came to, provided the client is there to
      hear the answers. */
  lemma CallsAreRun<T>(
    name: string, callId: u64, calls: seq<S.Message>, run: S.Handler<T>, before: T, token: Bytes, sessionId: u64,
    room: nat, ok: bool, said: seq<S.Item>, after: T)
    requires AreCalls(calls) && AllSendable(Opened(name, callId, token, calls)) && room >= 3 + |calls|
    requires S.Conducted(ok, said, after, run, before, false, token, sessionId,
                         C.ClientItems(ClientBytes(Opened(name, callId, token, calls))), room)
    ensures ok && after == RunAll(run, before, calls) && AllAnsweredBy(said, run, before, calls)
  {
    hide C.ClientItems, ClientBytes, C.Frames, AllSendable, S.Conducted, RunAll, Opened, AreCalls, AllAnsweredBy;
    ClientArrives(Opened(name, callId, token, calls));
    OpenedItems(name, callId, token, calls);
    CallsAreAnswered(callId, calls, run, before, token, sessionId,
      [S.Prelude] + C.Frames(Opened(name, callId, token, calls)), room, ok, said, after);
  }

  lemma CallsAreAnswered<T>(
    callId: u64, calls: seq<S.Message>, run: S.Handler<T>, before: T, token: Bytes, sessionId: u64,
    items: seq<S.Item>, room: nat, ok: bool, said: seq<S.Item>, after: T)
    requires AreCalls(calls) && room >= 3 + |calls|
    requires S.Greets(items) && S.Messages(items[2..]) == Asking(callId, token, calls)
    requires S.Answered(Asking(callId, token, calls)) == 1 + |calls|
    requires S.Conducted(ok, said, after, run, before, false, token, sessionId, items, room)
    ensures ok && after == RunAll(run, before, calls) && AllAnsweredBy(said, run, before, calls)
  {
    hide S.Greets, S.Messages, S.Answered, S.Paired, S.StateBefore, S.ReplyTo, RunAll, Asking;
    StateAfterCalls(run, before, token, callId, calls, |calls|);
    assert calls[..|calls|] == calls;
    assert |Asking(callId, token, calls)| == 1 + |calls| by { AskingLength(callId, token, calls); }
    forall i | 0 <= i < |calls|
      ensures said[3 + i] == S.Frame(S.Response(calls[i].id, run(RunAll(run, before, calls[..i]), calls[i].call).1))
    {
      StateAfterCalls(run, before, token, callId, calls, i);
      CallAnswered(run, before, token, callId, calls, i);
      assert said[2..][i + 1] == said[3 + i];
    }
  }

  lemma AskingLength(callId: u64, token: Bytes, calls: seq<S.Message>)
    ensures |Asking(callId, token, calls)| == 1 + |calls|
  {
  }

  function Asking(callId: u64, token: Bytes, calls: seq<S.Message>): seq<S.Message> {
    [S.Request(callId, S.Authenticate(token))] + calls
  }

  /** Hello, the token, and then the calls. */
  function Opened(name: string, callId: u64, token: Bytes, calls: seq<S.Message>): seq<S.Message> {
    [S.Hello(15, name)] + Asking(callId, token, calls)
  }

  /** The state after the calls, one after the other. */
  function RunAll<T>(run: S.Handler<T>, before: T, calls: seq<S.Message>): T
    requires AreCalls(calls)
  {
    if calls == [] then before
    else run(RunAll(run, before, calls[..|calls| - 1]), calls[|calls| - 1].call).0
  }

  lemma FrameAt(ms: seq<S.Message>, i: nat)
    requires i < |ms|
    ensures |C.Frames(ms)| == |ms| && C.Frames(ms)[i] == S.Frame(ms[i])
  {
  }

  lemma AllAnswered(ms: seq<S.Message>)
    requires forall i | 0 <= i < |ms| :: !ms[i].Goodbye?
    ensures S.Answered(ms) == |ms|
  {
    if S.Answered(ms) < |ms| {
      assert ms[S.Answered(ms)].Goodbye?;
    }
  }

  lemma {:induction false} StateAfterCalls<T>(
    run: S.Handler<T>, before: T, token: Bytes, callId: u64, calls: seq<S.Message>, k: nat)
    requires AreCalls(calls)
    requires k <= |calls|
    ensures S.StateBefore(run, before, false, token, Asking(callId, token, calls), k + 1)
         == RunAll(run, before, calls[..k])
    decreases k
  {
    var ms := Asking(callId, token, calls);
    if k > 0 {
      StateAfterCalls(run, before, token, callId, calls, k - 1);
      assert calls[..k][..k - 1] == calls[..k - 1];
      assert ms[k] == calls[k - 1];
      TokenGiven(token, callId, calls, k);
    }
  }

  lemma TokenGiven(token: Bytes, callId: u64, calls: seq<S.Message>, k: nat)
    requires 0 < k <= |calls| + 1
    ensures S.Trusted(false, token, Asking(callId, token, calls), k)
  {
    var ms := Asking(callId, token, calls);
    assert S.Presents(ms[0], token);
  }

  lemma CallAnswered<T>(
    run: S.Handler<T>, before: T, token: Bytes, callId: u64, calls: seq<S.Message>, i: nat)
    requires AreCalls(calls)
    requires i < |calls|
    ensures var ms := Asking(callId, token, calls);
            S.ReplyTo(run, before, false, token, ms, i + 1)
            == S.Response(calls[i].id, run(S.StateBefore(run, before, false, token, ms, i + 1), calls[i].call).1)
  {
    hide S.StateBefore, S.Trusted;
    var ms := Asking(callId, token, calls);
    assert ms[i + 1] == calls[i];
    TokenGiven(token, callId, calls, i + 1);
  }
}
