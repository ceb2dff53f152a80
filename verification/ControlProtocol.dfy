/** One remote call, end to end: the client's `call` and the daemon's session as two
    parties that share nothing but two first-in first-out channels. Either may run at
    any moment, other sessions may change the daemon state at any moment, and the
    client may give up (a timeout, a failed read of its token file) at any moment. */
module ControlProtocol {
  import opened MachineInts
  import opened Wrappers
  import opened ControlSession

  datatype Failure = BadPrelude | DaemonError(code: u16) | Unexpected(item: Item) | Rejected(error: string) | Lost

  datatype ClientPoint =
    | SendPrelude | AwaitPrelude
    | SendHello | AwaitWelcome
    | SendAuth | AwaitAuth
    | SendRequest | AwaitReply
    | SendGoodbye(ok: Reply)
    | Done(ok: Reply)
    | Failed(why: Failure)

  datatype DaemonPoint =
    | NeedPrelude | GivePrelude
    | NeedHello | GiveWelcome
    | Ready(trusted: bool)
    | Answering(trusted: bool, reply: Message)

  /** What a call is made with: whether both ends speak TLS, the daemon's token, the
      one the client read from its file, the method, and the daemon's behaviour. */
  datatype Setup<!S> =
    Setup(run: Handler<S>, tls: bool, token: Token, supplied: Token, wanted: Method, session: u64, name: string)

  /** The two control points, the channels, and a log of the methods the daemon ran
      for this connection. */
  datatype World<S> = World(
    client: ClientPoint,
    gaveUp: bool,
    daemon: DaemonPoint,
    closed: bool,
    toDaemon: seq<Item>,
    toClient: seq<Item>,
    state: S,
    log: seq<(Method, RpcResult)>)

  function Start<S>(state: S): World<S> {
    World(SendPrelude, false, NeedPrelude, false, [], [], state, [])
  }

  predicate Finished(c: ClientPoint) { c.Done? || c.Failed? }

  // ---- the client ------------------------------------------------------------------

  function Send<S>(w: World<S>, item: Item, next: ClientPoint): World<S> {
    w.(toDaemon := w.toDaemon + [item], client := next)
  }

  function HelloItem(name: string): Item { Frame(Hello(PROTOCOL_VERSION, name)) }

  /** Where an awaiting client goes when it reads `item`. The ids of responses are
      not looked at. */
  function OnRead<S>(c: Setup<S>, at: ClientPoint, item: Item): ClientPoint
    requires at.AwaitPrelude? || at.AwaitWelcome? || at.AwaitAuth? || at.AwaitReply?
  {
    if at.AwaitPrelude? then if item.Prelude? then SendHello else Failed(BadPrelude)
    else if item.Prelude? then Failed(Lost)
    else
      match item.m
      case Error(code, _) => Failed(DaemonError(code))
      case Welcome(_, _) =>
        if at.AwaitWelcome? then if c.tls then SendRequest else SendAuth else Failed(Unexpected(item))
      case Response(_, result) =>
        if at.AwaitWelcome? then Failed(Unexpected(item))
        else (match result
              case Err(e) => Failed(Rejected(e))
              case Ok(ok) => if at.AwaitAuth? then SendRequest else SendGoodbye(ok))
      case _ => Failed(Unexpected(item))
  }

  /** The client's next step, if it has one. */
  function ClientNext<S>(c: Setup<S>, w: World<S>): Option<World<S>> {
    if w.gaveUp then None
    else
      match w.client
      case SendPrelude => Some(Send(w, Prelude, AwaitPrelude))
      case SendHello => Some(Send(w, HelloItem(c.name), AwaitWelcome))
      case SendAuth => Some(Send(w, Frame(Request(1, Authenticate(c.supplied))), AwaitAuth))
      case SendRequest => Some(Send(w, Frame(Request(2, c.wanted)), AwaitReply))
      case SendGoodbye(ok) => Some(Send(w, Frame(Goodbye("ctl done")), Done(ok)))
      case Done(_) => None
      case Failed(_) => None
      case _ =>
        if w.toClient != [] then
          Some(w.(toClient := w.toClient[1..], client := OnRead(c, w.client, w.toClient[0])))
        else if w.closed then Some(w.(client := Failed(Lost)))
        else None
  }

  // ---- the daemon ------------------------------------------------------------------

  function Say<S>(w: World<S>, item: Item, next: DaemonPoint): World<S> {
    w.(toClient := w.toClient + [item], daemon := next)
  }

  /** The daemon between two reads: one message dispatched, its answer not yet sent. */
  function Handle<S>(c: Setup<S>, w: World<S>, m: Message): World<S>
    requires w.daemon.Ready?
  {
    var runs := w.daemon.trusted && m.Request? && !m.call.Authenticate?;
    w.(daemon := Answering(w.daemon.trusted || Presents(m, c.token),
                           Answer(c.run, w.state, w.daemon.trusted, c.token, m)),
       state := if runs then c.run(w.state, m.call).0 else w.state,
       log := if runs then w.log + [(m.call, c.run(w.state, m.call).1)] else w.log)
  }

  /** What the daemon does with the next thing it reads. */
  function OnReceive<S>(c: Setup<S>, w: World<S>, item: Item): World<S>
    requires w.daemon.NeedPrelude? || w.daemon.NeedHello? || w.daemon.Ready?
  {
    if w.daemon.NeedPrelude? then
      if item.Prelude? then w.(daemon := GivePrelude) else w.(closed := true)
    else if w.daemon.NeedHello? then
      if item.Frame? && item.m.Hello? && item.m.version == PROTOCOL_VERSION then w.(daemon := GiveWelcome)
      else if item.Frame? && item.m.Hello? then
        w.(toClient := w.toClient + [Frame(Error(426, VersionMismatch(item.m.version)))], closed := true)
      else w.(closed := true)
    else if item.Prelude? || item.m.Goodbye? then w.(closed := true)
    else Handle(c, w, item.m)
  }

  /** The daemon's next step, if it has one. A read fails once the client is gone and
      everything it sent has been consumed. */
  function DaemonNext<S>(c: Setup<S>, w: World<S>): Option<World<S>> {
    if w.closed then None
    else
      match w.daemon
      case GivePrelude => Some(Say(w, Prelude, NeedHello))
      case GiveWelcome => Some(Say(w, Frame(Welcome(PROTOCOL_VERSION, c.session)), Ready(c.tls)))
      case Answering(trusted, reply) => Some(Say(w, Frame(reply), Ready(trusted)))
      case _ =>
        if w.toDaemon != [] then Some(OnReceive(c, w.(toDaemon := w.toDaemon[1..]), w.toDaemon[0]))
        else if w.gaveUp || Finished(w.client) then Some(w.(closed := true))
        else None
  }

  // ---- runs ------------------------------------------------------------------------

  datatype Mover<S> = Client | Daemon | GiveUp | OtherSessions(state: S)

  ghost predicate Moves<S>(c: Setup<S>, w: World<S>, mover: Mover<S>, v: World<S>) {
    match mover
    case Client => ClientNext(c, w) == Some(v)
    case Daemon => DaemonNext(c, w) == Some(v)
    case GiveUp => !Finished(w.client) && v == w.(gaveUp := true)
    case OtherSessions(state) => v == w.(state := state)
  }

  ghost predicate IsRun<S>(c: Setup<S>, run: seq<World<S>>, moves: seq<Mover<S>>) {
    && |run| == |moves| + 1
    && run[0] == Start(run[0].state)
    && (forall i, next | 0 <= i < |moves| && next == i + 1 :: Moves(c, run[i], moves[i], run[next]))
  }

  // ---- the invariant ----------------------------------------------------------------

  /** Nothing is in transit and the daemon waits. */
  predicate Quiet<S>(w: World<S>, at: DaemonPoint) {
    w.toDaemon == [] && w.toClient == [] && w.daemon == at
  }

  /** One request is being served: unread, read, or answered and unread. */
  predicate Exchange<S>(w: World<S>, before: DaemonPoint, asked: Item, during: DaemonPoint, answer: Item,
      after: DaemonPoint) {
    || (w.toDaemon == [asked] && w.toClient == [] && w.daemon == before)
    || (w.toDaemon == [] && w.toClient == [] && w.daemon == during)
    || (w.toDaemon == [] && w.toClient == [answer] && w.daemon == after)
  }

  predicate MayCall<S>(c: Setup<S>) { c.tls || c.supplied == c.token }

  /** `result` is what the daemon made of the method, which it ran exactly once. */
  predicate IsOutcome<S>(c: Setup<S>, result: RpcResult, log: seq<(Method, RpcResult)>) {
    if c.wanted.Authenticate? then
      log == [] && result == if c.wanted.token == c.token then Ok(Authenticated) else Err("authentication failed")
    else log == [(c.wanted, result)]
  }

  function AuthOutcome<S>(c: Setup<S>): Message {
    Response(1, if c.supplied == c.token then Ok(Authenticated) else Err("authentication failed"))
  }

  predicate BeforeCall<S>(c: Setup<S>, w: World<S>) {
    && w.log == []
    && (match w.client
        case SendPrelude => Quiet(w, NeedPrelude)
        case AwaitPrelude => Exchange(w, NeedPrelude, Prelude, GivePrelude, Prelude, NeedHello)
        case SendHello => Quiet(w, NeedHello)
        case AwaitWelcome =>
          Exchange(w, NeedHello, HelloItem(c.name), GiveWelcome, Frame(Welcome(PROTOCOL_VERSION, c.session)),
              Ready(c.tls))
        case SendAuth => !c.tls && Quiet(w, Ready(false))
        case AwaitAuth =>
          !c.tls && Exchange(w, Ready(false), Frame(Request(1, Authenticate(c.supplied))),
                             Answering(c.supplied == c.token, AuthOutcome(c)), Frame(AuthOutcome(c)),
                             Ready(c.supplied == c.token))
        case SendRequest => MayCall(c) && Quiet(w, Ready(true))
        case Failed(why) =>
          !c.tls && c.supplied != c.token && why == Rejected("authentication failed") && Quiet(w, Ready(false))
        case _ => false)
  }

  predicate InCall<S>(c: Setup<S>, w: World<S>) {
    && w.client.AwaitReply? && MayCall(c)
    && (|| (w.toDaemon == [Frame(Request(2, c.wanted))] && w.toClient == [] && w.daemon == Ready(true) && w.log == [])
        || (&& w.toDaemon == [] && w.toClient == [] && w.daemon.Answering? && w.daemon.trusted
            && w.daemon.reply.Response? && w.daemon.reply.id == 2 && IsOutcome(c, w.daemon.reply.result, w.log))
        || (&& w.toDaemon == [] && |w.toClient| == 1 && w.daemon == Ready(true)
            && w.toClient[0].Frame? && w.toClient[0].m.Response? && w.toClient[0].m.id == 2
            && IsOutcome(c, w.toClient[0].m.result, w.log)))
  }

  predicate AfterCall<S>(c: Setup<S>, w: World<S>) {
    && MayCall(c)
    && w.daemon == Ready(true) && w.toClient == []
    && (match w.client
        case SendGoodbye(ok) => w.toDaemon == [] && IsOutcome(c, Ok(ok), w.log)
        case Done(ok) =>
          && (w.toDaemon == [Frame(Goodbye("ctl done"))] || (w.toDaemon == [] && w.closed))
          && IsOutcome(c, Ok(ok), w.log)
        case Failed(why) => w.toDaemon == [] && why.Rejected? && IsOutcome(c, Err(why.error), w.log)
        case _ => false)
  }

  predicate Inv<S>(c: Setup<S>, w: World<S>) {
    && CloseIsLate(w)
    && (BeforeCall(c, w) || InCall(c, w) || AfterCall(c, w))
  }

  lemma ClientKeepsInv<S>(c: Setup<S>, w: World<S>)
    requires Inv(c, w) && ClientNext(c, w).Some?
    ensures Inv(c, ClientNext(c, w).value)
  {
  }

  predicate CloseIsLate<S>(w: World<S>) { w.closed ==> w.gaveUp || Finished(w.client) }

  lemma DaemonBeforeCall<S>(c: Setup<S>, w: World<S>)
    requires CloseIsLate(w) && BeforeCall(c, w) && DaemonNext(c, w).Some?
    ensures CloseIsLate(DaemonNext(c, w).value) && BeforeCall(c, DaemonNext(c, w).value)
  {
    if w.client.AwaitAuth? {
      DaemonAnswersToken(c, w);
    } else {
      DaemonGreets(c, w);
    }
    hide BeforeCall, DaemonNext;
  }

  lemma DaemonAnswersToken<S>(c: Setup<S>, w: World<S>)
    requires CloseIsLate(w) && BeforeCall(c, w) && DaemonNext(c, w).Some? && w.client.AwaitAuth?
    ensures CloseIsLate(DaemonNext(c, w).value) && BeforeCall(c, DaemonNext(c, w).value)
  {
  }

  lemma DaemonGreets<S>(c: Setup<S>, w: World<S>)
    requires CloseIsLate(w) && BeforeCall(c, w) && DaemonNext(c, w).Some? && !w.client.AwaitAuth?
    ensures CloseIsLate(DaemonNext(c, w).value) && BeforeCall(c, DaemonNext(c, w).value)
  {
    hide Answer, Presents;
  }

  lemma DaemonInCall<S>(c: Setup<S>, w: World<S>)
    requires CloseIsLate(w) && InCall(c, w) && DaemonNext(c, w).Some?
    ensures CloseIsLate(DaemonNext(c, w).value) && InCall(c, DaemonNext(c, w).value)
  {
  }

  lemma DaemonAfterCall<S>(c: Setup<S>, w: World<S>)
    requires CloseIsLate(w) && AfterCall(c, w) && DaemonNext(c, w).Some?
    ensures CloseIsLate(DaemonNext(c, w).value) && AfterCall(c, DaemonNext(c, w).value)
  {
  }

  lemma DaemonKeepsInv<S>(c: Setup<S>, w: World<S>)
    requires Inv(c, w) && DaemonNext(c, w).Some?
    ensures Inv(c, DaemonNext(c, w).value)
  {
    hide BeforeCall, InCall, AfterCall, DaemonNext;
    if BeforeCall(c, w) {
      DaemonBeforeCall(c, w);
    } else if InCall(c, w) {
      DaemonInCall(c, w);
    } else {
      DaemonAfterCall(c, w);
    }
  }

  lemma {:induction false} ReachableInv<S>(c: Setup<S>, run: seq<World<S>>, moves: seq<Mover<S>>, k: nat)
    requires IsRun(c, run, moves) && k < |run|
    ensures Inv(c, run[k])
    decreases k
  {
    if k > 0 {
      hide Inv, ClientNext, DaemonNext;
      ReachableInv(c, run, moves, k - 1);
      MoveKeepsInv(c, run[k - 1], moves[k - 1], run[k]);
    }
  }

  lemma MoveKeepsInv<S>(c: Setup<S>, w: World<S>, mover: Mover<S>, v: World<S>)
    requires Inv(c, w) && Moves(c, w, mover, v)
    ensures Inv(c, v)
  {
    match mover
    case Client => ClientKeepsInv(c, w);
    case Daemon => DaemonKeepsInv(c, w);
    case GiveUp =>
    case OtherSessions(_) =>
  }

  // ---- what every run guarantees -------------------------------------------------------

  predicate IsResponse(item: Item, id: u64) { item.Frame? && item.m.Response? && item.m.id == id }

  /** Whenever a response is there for the client to read, it is the only thing there
      and carries the id of the request the client sent last; so the check the client
      does not make could never have failed. */
  lemma ResponsesMatch<S>(c: Setup<S>, run: seq<World<S>>, moves: seq<Mover<S>>, k: nat)
    requires IsRun(c, run, moves) && k < |run| && run[k].toClient != []
    ensures |run[k].toClient| == 1
    ensures run[k].client.AwaitAuth? ==> IsResponse(run[k].toClient[0], 1)
    ensures run[k].client.AwaitReply? ==> IsResponse(run[k].toClient[0], 2)
  {
    ReachableInv(c, run, moves, k);
  }

  /** The daemon runs nothing but the wanted method, at most once, and only for a
      caller with a certificate or the exact token. A call that returns a value
      returns what that one run produced; one that reports an error was either
      refused its token, and then nothing ran, or reports what that one run produced. */
  lemma AtMostOnce<S>(c: Setup<S>, run: seq<World<S>>, moves: seq<Mover<S>>, k: nat)
    requires IsRun(c, run, moves) && k < |run|
    ensures run[k].log != [] ==> MayCall(c) && |run[k].log| == 1 && run[k].log[0].0 == c.wanted
    ensures run[k].client.Done? ==> MayCall(c) && IsOutcome(c, Ok(run[k].client.ok), run[k].log)
    ensures run[k].client.Failed? ==> run[k].client.why.Rejected?
    ensures run[k].client.Failed? && !MayCall(c) ==> run[k].log == []
    ensures run[k].client.Failed? && MayCall(c) ==> IsOutcome(c, Err(run[k].client.why.error), run[k].log)
  {
    ReachableInv(c, run, moves, k);
  }

  /** Until the client has an answer or gives up, one of the two can move. */
  lemma NoDeadlock<S>(c: Setup<S>, run: seq<World<S>>, moves: seq<Mover<S>>, k: nat)
    requires IsRun(c, run, moves) && k < |run|
    ensures Finished(run[k].client) || run[k].gaveUp || ClientNext(c, run[k]).Some? || DaemonNext(c, run[k]).Some?
  {
    ReachableInv(c, run, moves, k);
  }

  function Remaining(p: ClientPoint): nat {
    match p
    case SendPrelude => 9
    case AwaitPrelude => 8
    case SendHello => 7
    case AwaitWelcome => 6
    case SendAuth => 5
    case AwaitAuth => 4
    case SendRequest => 3
    case AwaitReply => 2
    case SendGoodbye(_) => 1
    case _ => 0
  }

  function Measure<S>(w: World<S>): nat {
    5 * Remaining(w.client) + 2 * |w.toDaemon|
    + (if w.daemon.GivePrelude? || w.daemon.GiveWelcome? || w.daemon.Answering? then 1 else 0)
    + (if w.closed then 0 else 2)
  }

  lemma ClientStepDecreases<S>(c: Setup<S>, w: World<S>)
    requires ClientNext(c, w).Some?
    ensures Measure(ClientNext(c, w).value) < Measure(w)
  {
    if w.client.AwaitPrelude? || w.client.AwaitWelcome? || w.client.AwaitAuth? || w.client.AwaitReply? {
      if w.toClient != [] {
        ReadAdvances(c, w.client, w.toClient[0]);
      }
    }
    hide OnRead;
  }

  lemma ReadAdvances<S>(c: Setup<S>, at: ClientPoint, item: Item)
    requires at.AwaitPrelude? || at.AwaitWelcome? || at.AwaitAuth? || at.AwaitReply?
    ensures Remaining(OnRead(c, at, item)) < Remaining(at)
  {
  }

  lemma DaemonStepDecreases<S>(c: Setup<S>, w: World<S>)
    requires DaemonNext(c, w).Some?
    ensures Measure(DaemonNext(c, w).value) < Measure(w)
  {
    hide Remaining, Answer;
  }

  lemma StepsDecrease<S>(c: Setup<S>, w: World<S>, mover: Mover<S>, v: World<S>)
    requires Moves(c, w, mover, v)
    ensures mover.Client? || mover.Daemon? ==> Measure(v) < Measure(w)
    ensures mover.GiveUp? || mover.OtherSessions? ==> Measure(v) == Measure(w)
  {
    hide ClientNext, DaemonNext;
    match mover
    case Client => ClientStepDecreases(c, w);
    case Daemon => DaemonStepDecreases(c, w);
    case GiveUp =>
    case OtherSessions(_) =>
  }

  function OwnMoves<S>(moves: seq<Mover<S>>): nat {
    if moves == [] then 0
    else OwnMoves(moves[..|moves| - 1]) + (if moves[|moves| - 1].Client? || moves[|moves| - 1].Daemon? then 1 else 0)
  }

  /** However the two are scheduled, between them they take at most 47 steps. */
  lemma {:induction false} CallTerminates<S>(c: Setup<S>, run: seq<World<S>>, moves: seq<Mover<S>>)
    requires IsRun(c, run, moves)
    ensures OwnMoves(moves) + Measure(run[|moves|]) <= 47
    decreases |moves|
  {
    if moves != [] {
      var n := |moves| - 1;
      assert IsRun(c, run[..|run| - 1], moves[..n]) by {
        assert run[..|run| - 1][0] == run[0];
      }
      CallTerminates(c, run[..|run| - 1], moves[..n]);
      StepsDecrease(c, run[n], moves[n], run[n + 1]);
    }
  }

  /** A run in which nobody can move any more and the client did not give up ends with
      the verdict the setup calls for: the wrong token is refused and nothing ran;
      otherwise the client holds what the one run of its method produced. */
  lemma CallOutcome<S>(c: Setup<S>, run: seq<World<S>>, moves: seq<Mover<S>>)
    requires IsRun(c, run, moves)
    requires var last := run[|moves|]; !last.gaveUp && ClientNext(c, last).None? && DaemonNext(c, last).None?
    ensures var last := run[|moves|];
            if !MayCall(c) then last.client == Failed(Rejected("authentication failed")) && last.log == []
            else || (last.client.Done? && IsOutcome(c, Ok(last.client.ok), last.log))
                 || (&& last.client.Failed? && last.client.why.Rejected?
                     && IsOutcome(c, Err(last.client.why.error), last.log))
  {
    ReachableInv(c, run, moves, |moves|);
    NoDeadlock(c, run, moves, |moves|);
  }
}
