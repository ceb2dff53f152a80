/** The control daemon's side of one connection, for any client: the handshake, the
    message loop, and the gate in front of every method. */
module ControlSession {
  import opened MachineInts
  import opened Wrappers
  import W = MessageWire
  import Framing
  import Postcard

  const PROTOCOL_VERSION: u16 := Framing.PROTOCOL_VERSION

  type Token = Bytes

  /** Addresses are passed on, never looked into. */
  type Address = Postcard.Value

  // ---- messages --------------------------------------------------------------------

  datatype Method =
    | Authenticate(token: Token)
    | Status
    | StartInstance(
        name: string, port: u16, debug: bool,
        quicBind: Option<Address>, quicPort: Option<u16>, quicToken: Option<string>)
    | StopInstance(name: string)
    | LaunchApp(name: string, socket: string, argv: seq<string>, waitReadyMs: u64)
    | WaitSocket(socket: string, timeoutMs: u64)
    | PrepareDataPlane(owner: Option<string>, tcpAddr: Address, quicAddr: Option<Address>, sessionToken: string)

  datatype Summary = Summary(name: string, port: u16, serverPid: u32, appPids: seq<u32>)

  datatype Reply =
    | Authenticated
    | StatusReport(daemonPid: u32, instances: seq<Summary>)
    | InstanceStarted(pid: u32)
    | InstanceStopped
    | AppLaunched(pid: u32)
    | SocketReady
    | DataPlanePrepared(tcpAddr: Address, quicAddr: Option<Address>, sessionToken: string, certSha256: Option<string>)

  type RpcResult = Result<Reply, string>

  datatype Complaint = VersionMismatch(client: u16) | UnexpectedKind(kind: W.Kind)

  datatype Message =
    | Hello(version: u16, clientName: string)
    | Welcome(version: u16, session: u64)
    | Goodbye(reason: string)
    | Ping(seqNo: u64, stamp: u64)
    | Pong(seqNo: u64, stamp: u64)
    | Error(code: u16, complaint: Complaint)
    | Request(id: u64, call: Method)
    | Response(id: u64, result: RpcResult)
    | Other(tag: W.Kind)

  /** What travels on a connection: the prelude, then frames. */
  datatype Item = Prelude | Frame(m: Message)

  function KindOf(m: Message): W.Kind {
    match m
    case Hello(_, _) => W.Hello
    case Welcome(_, _) => W.Welcome
    case Goodbye(_) => W.Goodbye
    case Ping(_, _) => W.Ping
    case Pong(_, _) => W.Pong
    case Error(_, _) => W.Error
    case Request(_, _) => W.RpcRequest
    case Response(_, _) => W.RpcResponse
    case Other(tag) => tag
  }

  // ---- the token --------------------------------------------------------------------

  /** Bit by bit, the lowest first: `x ^ y` and `x | y`. */
  function Xor(x: nat, y: nat): nat
    decreases x + y
  {
    if x == 0 && y == 0 then 0 else 2 * Xor(x / 2, y / 2) + (if x % 2 == y % 2 then 0 else 1)
  }

  function Or(x: nat, y: nat): nat
    decreases x + y
  {
    if x == 0 && y == 0 then 0 else 2 * Or(x / 2, y / 2) + (if x % 2 == 1 || y % 2 == 1 then 1 else 0)
  }

  lemma {:induction false} XorZero(x: nat, y: nat)
    ensures Xor(x, y) == 0 <==> x == y
    decreases x + y
  {
    if x != 0 || y != 0 {
      XorZero(x / 2, y / 2);
    }
  }

  lemma {:induction false} OrZero(x: nat, y: nat)
    ensures Or(x, y) == 0 <==> x == 0 && y == 0
    decreases x + y
  {
    if x != 0 || y != 0 {
      OrZero(x / 2, y / 2);
    }
  }

  /** Compares without stopping at the first difference, and still means equality. */
  method ConstantTimeEq(a: Token, b: Token) returns (same: bool)
    ensures same <==> a == b
  {
    if |a| != |b| { return false; }
    var diff: nat := 0;
    for i := 0 to |a|
      invariant diff == 0 <==> a[..i] == b[..i]
    {
      XorZero(a[i], b[i]);
      OrZero(diff, Xor(a[i], b[i]));
      assert a[..i + 1] == a[..i] + [a[i]] && b[..i + 1] == b[..i] + [b[i]];
      diff := Or(diff, Xor(a[i], b[i]));
    }
    assert a[..|a|] == a && b[..|b|] == b;
    return diff == 0;
  }

  // ---- the specification of a session --------------------------------------------------

  /** What the daemon's own state does with a method: the new state and the answer.
      Sessions are proved for every such behaviour. */
  type Handler<!S> = (S, Method) -> (S, RpcResult)

  predicate Presents(m: Message, token: Token) {
    m.Request? && m.call.Authenticate? && m.call.token == token
  }

  /** Whether the peer has proved itself before its k-th message: by its certificate,
      or by presenting the exact token in an earlier message. */
  ghost predicate Trusted(tls: bool, token: Token, ms: seq<Message>, k: nat)
    requires k <= |ms|
  {
    tls || exists j :: 0 <= j < k && Presents(ms[j], token)
  }

  ghost predicate Executes(tls: bool, token: Token, ms: seq<Message>, k: nat)
    requires k < |ms|
  {
    ms[k].Request? && !ms[k].call.Authenticate? && Trusted(tls, token, ms, k)
  }

  /** The daemon state before the k-th message: the trusted methods among the
      earlier ones applied in order, and nothing else. */
  ghost function StateBefore<S>(run: Handler<S>, s: S, tls: bool, token: Token, ms: seq<Message>, k: nat): S
    requires k <= |ms|
    decreases k
  {
    if k == 0 then s
    else
      var earlier := StateBefore(run, s, tls, token, ms, k - 1);
      if Executes(tls, token, ms, k - 1) then run(earlier, ms[k - 1].call).0 else earlier
  }

  /** The answer to one message from a peer that is trusted or not. */
  function Answer<S>(run: Handler<S>, state: S, trusted: bool, token: Token, m: Message): Message {
    match m
    case Ping(seqNo, stamp) => Pong(seqNo, stamp)
    case Request(id, Authenticate(supplied)) =>
      Response(id, if supplied == token then Ok(Authenticated) else Err("authentication failed"))
    case Request(id, wanted) => Response(id, if trusted then run(state, wanted).1 else Err("not authenticated"))
    case _ => Error(400, UnexpectedKind(KindOf(m)))
  }

  /** The answer to the k-th message. */
  ghost function ReplyTo<S>(run: Handler<S>, s: S, tls: bool, token: Token, ms: seq<Message>, k: nat): Message
    requires k < |ms|
  {
    Answer(run, StateBefore(run, s, tls, token, ms, k), Trusted(tls, token, ms, k), token, ms[k])
  }

  /** How many messages the loop answers: those before the first Goodbye. */
  function Answered(ms: seq<Message>): (n: nat)
    ensures n <= |ms|
    ensures forall k | 0 <= k < n :: !ms[k].Goodbye?
    ensures n < |ms| ==> ms[n].Goodbye?
  {
    if ms == [] || ms[0].Goodbye? then 0 else 1 + Answered(ms[1..])
  }

  // ---- properties of every session -----------------------------------------------------

  lemma TrustStep(tls: bool, token: Token, ms: seq<Message>, k: nat)
    requires k < |ms|
    ensures var next := k + 1; Trusted(tls, token, ms, next) <==> Trusted(tls, token, ms, k) || Presents(ms[k], token)
  {
    if Presents(ms[k], token) {
      assert Trusted(tls, token, ms, k + 1);
    }
  }

  /** A peer with neither a certificate nor the token changes nothing and learns
      nothing: the daemon state stays what it was, and every answer is the same
      whatever that state is. */
  lemma {:induction false} UntrustedPeerIsBlind<S>(run: Handler<S>, s: S, t: S, token: Token, ms: seq<Message>, k: nat)
    requires k <= |ms| && !Trusted(false, token, ms, k)
    ensures StateBefore(run, s, false, token, ms, k) == s
    ensures k < |ms| ==> ReplyTo(run, s, false, token, ms, k) == ReplyTo(run, t, false, token, ms, k)
    decreases k
  {
    if k > 0 {
      UntrustedPeerIsBlind(run, s, t, token, ms, k - 1);
    }
  }

  /** The first method that can change the daemon state is preceded by the exact
      token: a session that ends in another state than it began with was trusted. */
  lemma ChangeNeedsTrust<S>(run: Handler<S>, s: S, tls: bool, token: Token, ms: seq<Message>, k: nat)
    requires k <= |ms| && StateBefore(run, s, tls, token, ms, k) != s
    ensures Trusted(tls, token, ms, k)
    ensures exists j :: 0 <= j < k && Executes(tls, token, ms, j)
  {
    if !Trusted(tls, token, ms, k) {
      UntrustedPeerIsBlind(run, s, s, token, ms, k);
    }
    if forall j | 0 <= j < k :: !Executes(tls, token, ms, j) {
      NothingExecuted(run, s, tls, token, ms, k);
    }
  }

  lemma {:induction false} NothingExecuted<S>(run: Handler<S>, s: S, tls: bool, token: Token, ms: seq<Message>, k: nat)
    requires k <= |ms| && forall j | 0 <= j < k :: !Executes(tls, token, ms, j)
    ensures StateBefore(run, s, tls, token, ms, k) == s
    decreases k
  {
    if k > 0 {
      NothingExecuted(run, s, tls, token, ms, k - 1);
    }
  }

  // ---- the daemon loop ---------------------------------------------------------------------

  /** One end of a connection. After `room` more writes the peer is gone and every
      further write fails. */
  class Connection {
    var incoming: seq<Item>
    var outgoing: seq<Item>
    var room: nat

    constructor (received: seq<Item>, room: nat)
      ensures incoming == received && outgoing == [] && this.room == room
    {
      incoming, outgoing, this.room := received, [], room;
    }

    method ReadPrelude() returns (ok: bool)
      modifies this`incoming
      ensures ok <==> old(incoming) != [] && old(incoming)[0] == Prelude
      ensures ok ==> incoming == old(incoming)[1..]
    {
      ok := incoming != [] && incoming[0] == Prelude;
      if ok { incoming := incoming[1..]; }
    }

    /** The next message, or nothing once the stream ends or stops parsing. */
    method ReadMessage() returns (m: Option<Message>)
      modifies this`incoming
      ensures m.Some? <==> old(incoming) != [] && old(incoming)[0].Frame?
      ensures m.Some? ==> old(incoming)[0] == Frame(m.value) && incoming == old(incoming)[1..]
    {
      if incoming == [] || incoming[0].Prelude? { return None; }
      m, incoming := Some(incoming[0].m), incoming[1..];
    }

    method Write(item: Item) returns (ok: bool)
      modifies this`outgoing, this`room
      ensures ok <==> old(room) > 0
      ensures ok ==> outgoing == old(outgoing) + [item] && room == old(room) - 1
      ensures !ok ==> outgoing == old(outgoing) && room == 0
    {
      if room == 0 { return false; }
      outgoing, room := outgoing + [item], room - 1;
      ok := true;
    }
  }

  /** The daemon's shared state, seen only through the methods it runs. */
  class Daemon<S> {
    var state: S
    const run: Handler<S>

    constructor (run: Handler<S>, state: S)
      ensures this.run == run && this.state == state
    {
      this.run, this.state := run, state;
    }

    method Run(wanted: Method) returns (r: RpcResult)
      modifies this`state
      ensures state == run(old(state), wanted).0 && r == run(old(state), wanted).1
    {
      var outcome := run(state, wanted);
      state, r := outcome.0, outcome.1;
    }
  }

  /** Answers one request; tells whether the session is authenticated afterwards. */
  method Dispatch<S>(daemon: Daemon<S>, id: u64, wanted: Method, authenticated: bool, expected: Token)
    returns (response: Message, nowAuthenticated: bool)
    modifies daemon`state
    ensures wanted.Authenticate? ==>
              && daemon.state == old(daemon.state)
              && nowAuthenticated == (authenticated || wanted.token == expected)
              && response == Response(id, if wanted.token == expected then Ok(Authenticated)
                                          else Err("authentication failed"))
    ensures !wanted.Authenticate? ==> nowAuthenticated == authenticated
    ensures !wanted.Authenticate? && !authenticated ==>
              daemon.state == old(daemon.state) && response == Response(id, Err("not authenticated"))
    ensures !wanted.Authenticate? && authenticated ==>
              && daemon.state == daemon.run(old(daemon.state), wanted).0
              && response == Response(id, daemon.run(old(daemon.state), wanted).1)
  {
    nowAuthenticated := authenticated;
    var result: RpcResult;
    if wanted.Authenticate? {
      var same := ConstantTimeEq(wanted.token, expected);
      if same {
        nowAuthenticated := true;
        result := Ok(Authenticated);
      } else {
        result := Err("authentication failed");
      }
    } else if !authenticated {
      result := Err("not authenticated");
    } else {
      result := daemon.Run(wanted);
    }
    response := Response(id, result);
  }

  /** The messages at the front of a stream. */
  function Messages(items: seq<Item>): (ms: seq<Message>)
    ensures |ms| <= |items|
    ensures forall k | 0 <= k < |ms| :: items[k] == Frame(ms[k])
    ensures |ms| < |items| ==> items[|ms|].Prelude?
  {
    if items == [] || items[0].Prelude? then [] else [items[0].m] + Messages(items[1..])
  }

  /** Handles one message other than Goodbye. A method has run by the time the answer
      turns out not to be deliverable. */
  method AnswerMessage<S>(conn: Connection, daemon: Daemon<S>, m: Message, authenticated: bool, token: Token)
    returns (nowAuthenticated: bool, ok: bool)
    requires !m.Goodbye?
    modifies conn`outgoing, conn`room, daemon`state
    ensures ok <==> old(conn.room) > 0
    ensures ok ==> conn.room == old(conn.room) - 1
                   && conn.outgoing == old(conn.outgoing)
                                       + [Frame(Answer(daemon.run, old(daemon.state), authenticated, token, m))]
    ensures !ok ==> conn.outgoing == old(conn.outgoing)
    ensures nowAuthenticated == (authenticated || Presents(m, token))
    ensures daemon.state == if authenticated && m.Request? && !m.call.Authenticate?
                            then daemon.run(old(daemon.state), m.call).0 else old(daemon.state)
  {
    nowAuthenticated := authenticated;
    if m.Ping? {
      ok := conn.Write(Frame(Pong(m.seqNo, m.stamp)));
    } else if m.Request? {
      var response;
      response, nowAuthenticated := Dispatch(daemon, m.id, m.call, authenticated, token);
      ok := conn.Write(Frame(response));
    } else {
      ok := conn.Write(Frame(Error(400, UnexpectedKind(KindOf(m)))));
    }
  }

  /** `said` answers the first `k` messages, one by one. */
  ghost predicate AnswersFirst<S>(said: seq<Item>, run: Handler<S>, s: S, tls: bool, token: Token, ms: seq<Message>,
      k: nat)
    requires k <= |ms|
  {
    |said| == k && forall i | 0 <= i < k :: said[i] == Frame(ReplyTo(run, s, tls, token, ms, i))
  }

  /** A Ping is echoed and anything that is neither a Ping nor a request is an error. The
      answers pair up with the requests by position and carry their ids; a request is
      refused as long as its sender is not trusted; and once it is, every later one is run
      on the state its predecessors left. */
  ghost predicate Paired<S>(said: seq<Item>, run: Handler<S>, s: S, tls: bool, token: Token, ms: seq<Message>) {
    && |said| <= |ms|
    && (forall k | 0 <= k < |said| && ms[k].Ping? :: said[k] == Frame(Pong(ms[k].seqNo, ms[k].stamp)))
    && (forall k | 0 <= k < |said| && !ms[k].Ping? && !ms[k].Request? ::
          said[k] == Frame(Error(400, UnexpectedKind(KindOf(ms[k])))))
    && (forall k | 0 <= k < |said| && ms[k].Request? ::
          && said[k].Frame? && said[k].m.Response? && said[k].m.id == ms[k].id
          && (Presents(ms[k], token) ==> said[k].m.result == Ok(Authenticated))
          && (!Trusted(tls, token, ms, k) && !Presents(ms[k], token) ==> said[k].m.result.Err?))
    && (forall k, later | 0 <= k <= later < |said| && Trusted(tls, token, ms, k) && ms[later].Request?
                          && !ms[later].call.Authenticate? ::
          said[later].Frame?
          && said[later].m == Response(ms[later].id, run(StateBefore(run, s, tls, token, ms, later), ms[later].call).1))
  }

  lemma AnswersArePaired<S>(
    said: seq<Item>, run: Handler<S>, s: S, tls: bool, token: Token, ms: seq<Message>, n: nat)
    requires n <= |ms| && AnswersFirst(said, run, s, tls, token, ms, n)
    ensures Paired(said, run, s, tls, token, ms)
  {
    hide StateBefore;
  }

  /** The loop after the handshake. For every client it handles the messages before the
      first Goodbye one by one, answers each as `ReplyTo` says while the peer is there to
      hear it, and leaves the daemon state that the trusted methods among them produce;
      it ends with an error exactly when an answer could not be written. */
  method ServeMessages<S>(conn: Connection, daemon: Daemon<S>, tls: bool, token: Token)
    returns (ok: bool, ghost said: seq<Item>)
    modifies conn, daemon`state
    ensures conn.outgoing == old(conn.outgoing) + said
    ensures var ms := Messages(old(conn.incoming)); var n := Answered(ms);
            && (ok <==> n <= old(conn.room))
            && AnswersFirst(said, daemon.run, old(daemon.state), tls, token, ms, Min(n, old(conn.room)))
            && daemon.state == StateBefore(daemon.run, old(daemon.state), tls, token, ms, Min(n, old(conn.room) + 1))
    ensures Paired(said, daemon.run, old(daemon.state), tls, token, Messages(old(conn.incoming)))
  {
    hide Paired, ReplyTo, Answer, Trusted, Answered, Messages, StateBefore;
    ghost var ms := Messages(conn.incoming);
    ghost var n := Answered(ms);
    ghost var start := daemon.state;
    ghost var items := conn.incoming;
    ghost var k: nat := 0;
    var authenticated := tls;
    said := [];
    SessionStart(daemon.run, start, tls, token, ms);
    while true
      invariant k <= n && conn.incoming == items[k..] && conn.room == old(conn.room) - k
      invariant conn.outgoing == old(conn.outgoing) + said
      invariant AnswersFirst(said, daemon.run, start, tls, token, ms, k)
      invariant daemon.state == StateBefore(daemon.run, start, tls, token, ms, k)
      invariant authenticated == Trusted(tls, token, ms, k)
      decreases n - k
    {
      AnswersArePaired(said, daemon.run, start, tls, token, ms, k);
      var m := conn.ReadMessage();
      if m.None? || m.value.Goodbye? { return true, said; }
      TrustStep(tls, token, ms, k);
      StateStep(daemon.run, start, tls, token, ms, k);
      ReplyIsAnswer(daemon.run, start, tls, token, ms, k);
      authenticated, ok := AnswerMessage(conn, daemon, m.value, authenticated, token);
      if !ok { return false, said; }
      said := said + [Frame(ReplyTo(daemon.run, start, tls, token, ms, k))];
      k := k + 1;
    }
  }

  lemma SessionStart<S>(run: Handler<S>, s: S, tls: bool, token: Token, ms: seq<Message>)
    ensures Trusted(tls, token, ms, 0) == tls && StateBefore(run, s, tls, token, ms, 0) == s
  {
  }

  lemma StateStep<S>(run: Handler<S>, s: S, tls: bool, token: Token, ms: seq<Message>, k: nat)
    requires k < |ms|
    ensures var earlier := StateBefore(run, s, tls, token, ms, k);
            StateBefore(run, s, tls, token, ms, k + 1)
            == if Trusted(tls, token, ms, k) && ms[k].Request? && !ms[k].call.Authenticate?
               then run(earlier, ms[k].call).0 else earlier
  {
  }

  lemma ReplyIsAnswer<S>(run: Handler<S>, s: S, tls: bool, token: Token, ms: seq<Message>, k: nat)
    requires k < |ms|
    ensures ReplyTo(run, s, tls, token, ms, k)
         == Answer(run, StateBefore(run, s, tls, token, ms, k), Trusted(tls, token, ms, k), token, ms[k])
  {
  }

  /** The client opens with the prelude and a Hello of this protocol version. */
  predicate Greets(items: seq<Item>) {
    && |items| >= 2 && items[0] == Prelude
    && items[1].Frame? && items[1].m.Hello? && items[1].m.version == 15
  }

  /** What one whole connection comes to, for a peer that hears `room` items. A client
      that greets is welcomed, and the loop's answers follow; any other is sent the
      prelude, if it sent one, and told which version it has, if it said one; and
      unless the Welcome was heard the daemon state is what it was. */
  ghost predicate Conducted<S>(
    ok: bool, said: seq<Item>, after: S, run: Handler<S>, before: S, tls: bool, token: Token, sessionId: u64,
    items: seq<Item>, room: nat)
  {
    if Greets(items) && room >= 2 then
      var ms := Messages(items[2..]);
      var n := Answered(ms);
      && (ok <==> n <= room - 2)
      && |said| >= 2 && said[0] == Prelude && said[1] == Frame(Welcome(15, sessionId))
      && AnswersFirst(said[2..], run, before, tls, token, ms, Min(n, room - 2))
      && Paired(said[2..], run, before, tls, token, ms)
      && after == StateBefore(run, before, tls, token, ms, Min(n, room - 1))
    else
      && !ok && after == before
      && said == if items == [] || items[0] != Prelude || room == 0 then []
                 else if |items| < 2 || !items[1].Frame? || !items[1].m.Hello? || room == 1 then [Prelude]
                 else [Prelude, Frame(Error(426, VersionMismatch(items[1].m.version)))]
  }

  /** One whole connection. */
  method HandleSession<S>(conn: Connection, daemon: Daemon<S>, tls: bool, token: Token, sessionId: u64)
      returns (ok: bool)
    requires conn.outgoing == []
    modifies conn, daemon`state
    ensures Conducted(ok, conn.outgoing, daemon.state, daemon.run, old(daemon.state), tls, token, sessionId,
                      old(conn.incoming), old(conn.room))
  {
    hide AnswersFirst, Answered, Messages, Paired, StateBefore;
    ghost var was := conn.incoming;
    var greeted := conn.ReadPrelude();
    if !greeted { return false; }
    var sent := conn.Write(Prelude);
    if !sent { return false; }
    var hello := conn.ReadMessage();
    if hello.None? || !hello.value.Hello? { return false; }
    if hello.value.version != PROTOCOL_VERSION {
      sent := conn.Write(Frame(Error(426, VersionMismatch(hello.value.version))));
      return false;
    }
    sent := conn.Write(Frame(Welcome(PROTOCOL_VERSION, sessionId)));
    if !sent { return false; }
    assert conn.incoming == was[2..];
    ghost var said;
    ok, said := ServeMessages(conn, daemon, tls, token);
    assert conn.outgoing[2..] == said;
  }
}
