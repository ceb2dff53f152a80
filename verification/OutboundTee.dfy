/** The viewer's outbound stream when QUIC may fall back to TCP: one thread copies each
    message to the QUIC queue and, if the fallback gate is open by then, to the TCP
    queue; another opens the gate when QUIC fails. Every message type is allowed. */
module OutboundTee {
  /** Where the copying thread is with the message it holds. */
  datatype Stage = Idle | Copied | Admitted

  datatype Tee<M> = Tee(
    outbound: seq<M>,   // everything the viewer has produced
    taken: nat,         // how many of them the thread has taken up
    stage: Stage,
    quic: seq<M>,
    tcp: seq<M>,
    gateOpen: bool,
    checked: nat)       // how many messages were checked while the gate was shut

  datatype Event<M> = Produces(m: M) | CopiesToQuic | ChecksGate | SendsToTcp | OpensGate

  function Start<M>(): Tee<M> { Tee([], 0, Idle, [], [], false, 0) }

  predicate Enabled<M>(t: Tee<M>, e: Event<M>) {
    match e
    case Produces(_) => true
    case CopiesToQuic => t.stage.Idle? && t.taken < |t.outbound|
    case ChecksGate => t.stage.Copied?
    case SendsToTcp => t.stage.Admitted? && 0 < t.taken <= |t.outbound|
    case OpensGate => true
  }

  function Apply<M>(t: Tee<M>, e: Event<M>): Tee<M>
    requires Enabled(t, e)
  {
    match e
    case Produces(m) => t.(outbound := t.outbound + [m])
    case CopiesToQuic => t.(quic := t.quic + [t.outbound[t.taken]], taken := t.taken + 1, stage := Copied)
    case ChecksGate => if t.gateOpen then t.(stage := Admitted) else t.(stage := Idle, checked := t.checked + 1)
    case SendsToTcp => t.(tcp := t.tcp + [t.outbound[t.taken - 1]], stage := Idle)
    case OpensGate => t.(gateOpen := true)
  }

  ghost predicate StepAt<M>(run: seq<Tee<M>>, events: seq<Event<M>>, i: nat)
    requires i < |events| && |run| == |events| + 1
  {
    Enabled(run[i], events[i]) && run[i + 1] == Apply(run[i], events[i])
  }

  ghost predicate IsRun<M>(run: seq<Tee<M>>, events: seq<Event<M>>) {
    |run| == |events| + 1 && run[0] == Start() && forall i | 0 <= i < |events| :: StepAt(run, events, i)
  }

  /** How many messages are settled: copied, checked, and sent on if admitted. */
  function Settled<M>(t: Tee<M>): nat { if t.stage.Idle? || t.taken == 0 then t.taken else t.taken - 1 }

  ghost predicate Inv<M>(t: Tee<M>) {
    && t.taken <= |t.outbound| && (t.taken == 0 ==> t.stage.Idle?)
    && t.checked <= Settled(t)
    && t.quic == t.outbound[..t.taken]
    && t.tcp == t.outbound[t.checked..Settled(t)]
    && (t.stage.Admitted? ==> t.gateOpen)
    && (!t.gateOpen ==> t.checked == Settled(t))
  }

  lemma StepKeepsInv<M>(t: Tee<M>, e: Event<M>)
    requires Inv(t) && Enabled(t, e)
    ensures Inv(Apply(t, e))
  {
    var u := Apply(t, e);
    match e
    case Produces(m) =>
      assert u.outbound[..t.taken] == t.outbound[..t.taken];
      assert u.outbound[t.checked..Settled(t)] == t.outbound[t.checked..Settled(t)];
    case CopiesToQuic =>
      assert t.outbound[..t.taken + 1] == t.outbound[..t.taken] + [t.outbound[t.taken]];
    case SendsToTcp =>
      assert t.outbound[t.checked..t.taken] == t.outbound[t.checked..t.taken - 1] + [t.outbound[t.taken - 1]];
    case _ =>
  }

  lemma {:induction false} ReachableInv<M>(run: seq<Tee<M>>, events: seq<Event<M>>, k: nat)
    requires IsRun(run, events) && k < |run|
    ensures Inv(run[k])
    decreases k
  {
    if k > 0 {
      hide Inv, Enabled, Apply;
      ReachableInv(run, events, k - 1);
      assert StepAt(run, events, k - 1);
      StepKeepsInv(run[k - 1], events[k - 1]);
    } else {
      hide IsRun;
    }
  }

  /** However the two threads interleave, QUIC is given every message, and TCP is given
      one unbroken stretch of the stream, in order, that begins with the first message
      checked after the gate opened. Nothing before that point is replayed. */
  lemma TcpGetsOneStretch<M>(run: seq<Tee<M>>, events: seq<Event<M>>, k: nat)
    requires IsRun(run, events) && k < |run|
    ensures var t := run[k];
            && t.taken <= |t.outbound| && t.quic == t.outbound[..t.taken]
            && t.checked + |t.tcp| <= |t.outbound|
            && t.tcp == t.outbound[t.checked..t.checked + |t.tcp|]
            && (!t.gateOpen ==> t.tcp == [])
  {
    ReachableInv(run, events, k);
  }

  lemma OpenStep<M>(t: Tee<M>, e: Event<M>)
    requires Enabled(t, e) && t.gateOpen
    ensures Apply(t, e).gateOpen && Apply(t, e).checked == t.checked
  {
  }

  /** The point where the stretch begins is fixed once the gate is open. */
  lemma {:induction false} StretchStartIsFixed<M>(run: seq<Tee<M>>, events: seq<Event<M>>, k: nat, later: nat)
    requires IsRun(run, events) && k <= later < |run| && run[k].gateOpen
    ensures run[later].gateOpen && run[later].checked == run[k].checked
    decreases later
  {
    if k < later {
      hide Enabled, Apply;
      StretchStartIsFixed(run, events, k, later - 1);
      assert StepAt(run, events, later - 1);
      OpenStep(run[later - 1], events[later - 1]);
    }
  }

  /** When the copying thread has caught up after a fallback, TCP has received exactly
      the messages from the one that was unchecked when the gate opened, to the end: none
      is missing, repeated or reordered. */
  lemma TcpGetsTheWholeSuffix<M>(run: seq<Tee<M>>, events: seq<Event<M>>, k: nat, later: nat)
    requires IsRun(run, events) && k < |events| && k < later < |run|
    requires events[k].OpensGate? && !run[k].gateOpen
    requires run[later].stage.Idle? && run[later].taken == |run[later].outbound|
    ensures Settled(run[k]) <= |run[later].outbound|
    ensures run[later].tcp == run[later].outbound[Settled(run[k])..]
  {
    ReachableInv(run, events, later);
    ReachableInv(run, events, k);
    assert StepAt(run, events, k);
    StretchStartIsFixed(run, events, k + 1, later);
  }
}
