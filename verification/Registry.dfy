/** The control daemon's table of instances: what each operation does to the table,
    to the processes and to the snapshot on disk, one operation at a time.
    `RegistryRuns` interleaves them. */
module Registry {
  import opened MachineInts
  import opened Wrappers

  type Name = Bytes

  /** One instance: its port, its server process, whether this daemon process spawned
      it (and so holds a handle), and its guest applications in launch order. */
  datatype Instance = Instance(port: u16, serverPid: u32, owned: bool, appPids: seq<u32>)

  type Table = map<Name, Instance>

  /** The persisted form of one instance. */
  datatype InstanceSnapshot = InstanceSnapshot(name: Name, port: u16, serverPid: u32, appPids: seq<u32>)

  type Snapshot = seq<InstanceSnapshot>

  // ---- the table's functions ------------------------------------------------------------

  /** The instances whose server still runs. */
  function Reaped(t: Table, live: set<u32>): Table {
    map name | name in t && t[name].serverPid in live :: t[name]
  }

  predicate HasConflict(t: Table, name: Name, port: u16) {
    exists other :: other in t && other != name && t[other].port == port
  }

  function LiveApps(pids: seq<u32>, live: set<u32>): (kept: seq<u32>)
    ensures forall p :: p in kept <==> p in pids && p in live
  {
    if pids == [] then []
    else
      var others := LiveApps(pids[..|pids| - 1], live);
      if pids[|pids| - 1] in live then others + [pids[|pids| - 1]] else others
  }

  /** The live applications at the first `k` places, counted. */
  function LiveBefore(pids: seq<u32>, live: set<u32>, k: nat): nat
    requires k <= |pids|
  {
    |set i | 0 <= i < k && pids[i] in live|
  }

  /** `kept` is the live part of `pids`, in the same order and as often: each live
      one stands where as many stand before it as are live before it in `pids`. */
  predicate IsLivePart(kept: seq<u32>, pids: seq<u32>, live: set<u32>) {
    && |kept| == LiveBefore(pids, live, |pids|)
    && forall k | 0 <= k < |pids| && pids[k] in live ::
         LiveBefore(pids, live, k) < |kept| && kept[LiveBefore(pids, live, k)] == pids[k]
  }

  lemma LiveBeforeNext(pids: seq<u32>, live: set<u32>, k: nat)
    requires k < |pids|
    ensures LiveBefore(pids, live, k + 1) == LiveBefore(pids, live, k) + if pids[k] in live then 1 else 0
  {
    var below := set i | 0 <= i < k && pids[i] in live;
    assert (set i | 0 <= i < k + 1 && pids[i] in live) == if pids[k] in live then below + {k} else below;
  }

  lemma LiveBeforePrefix(pids: seq<u32>, live: set<u32>, n: nat, k: nat)
    requires k <= n <= |pids|
    ensures LiveBefore(pids[..n], live, k) == LiveBefore(pids, live, k)
  {
    assert (set i | 0 <= i < k && pids[..n][i] in live) == (set i | 0 <= i < k && pids[i] in live);
  }

  lemma {:induction false} LiveAppsInOrder(pids: seq<u32>, live: set<u32>)
    ensures IsLivePart(LiveApps(pids, live), pids, live)
  {
    if pids != [] {
      var n := |pids| - 1;
      LiveAppsInOrder(pids[..n], live);
      LiveBeforeNext(pids, live, n);
      LivePartGrows(LiveApps(pids[..n], live), pids, live);
    }
  }

  lemma LivePartGrows(kept: seq<u32>, pids: seq<u32>, live: set<u32>)
    requires pids != [] && IsLivePart(kept, pids[..|pids| - 1], live)
    ensures IsLivePart(if pids[|pids| - 1] in live then kept + [pids[|pids| - 1]] else kept, pids, live)
  {
    hide LiveBefore;
    var n := |pids| - 1;
    LiveBeforeNext(pids, live, n);
    forall k | 0 <= k <= n
      ensures LiveBefore(pids[..n], live, k) == LiveBefore(pids, live, k)
    {
      LiveBeforePrefix(pids, live, n, k);
    }
    forall k | 0 <= k < n && pids[k] in live
      ensures LiveBefore(pids, live, k) < |kept| && kept[LiveBefore(pids, live, k)] == pids[k]
    {
      assert pids[..n][k] == pids[k];
    }
  }

  function TrimApps(inst: Instance, live: set<u32>): Instance {
    inst.(appPids := LiveApps(inst.appPids, live))
  }

  function WithLiveApps(t: Table, live: set<u32>): Table {
    map name | name in t :: TrimApps(t[name], live)
  }

  /** Every process an instance tracks, in the order they are signalled. */
  function PidsToTerminate(inst: Instance): seq<u32> { inst.appPids + [inst.serverPid] }

  function Snapped(name: Name, inst: Instance): InstanceSnapshot {
    InstanceSnapshot(name, inst.port, inst.serverPid, inst.appPids)
  }

  /** A snapshot lists every instance of the table exactly once, in any order. */
  predicate IsSnapshotOf(s: Snapshot, t: Table) {
    && (forall i | 0 <= i < |s| :: s[i].name in t && s[i] == Snapped(s[i].name, t[s[i].name]))
    && (forall i, j | 0 <= i < j < |s| :: s[i].name != s[j].name)
    && (forall name | name in t :: exists i :: 0 <= i < |s| && s[i].name == name)
  }

  datatype Decision = Drop | Recover(appPids: seq<u32>)

  function DecideReconcile(snap: InstanceSnapshot, live: set<u32>): Decision {
    if snap.serverPid !in live then Drop else Recover(LiveApps(snap.appPids, live))
  }

  /** The table built from a snapshot entry by entry; a later entry replaces an
      earlier one of the same name. */
  function Reconciled(s: Snapshot, live: set<u32>): Table {
    if s == [] then map[]
    else
      var earlier := Reconciled(s[..|s| - 1], live);
      var last := s[|s| - 1];
      match DecideReconcile(last, live)
      case Drop => earlier
      case Recover(apps) => earlier[last.name := Instance(last.port, last.serverPid, false, apps)]
  }

  /** The same, said of the table the snapshot was taken from. */
  function Recovered(t: Table, live: set<u32>): Table {
    map name | name in t && t[name].serverPid in live ::
      Instance(t[name].port, t[name].serverPid, false, LiveApps(t[name].appPids, live))
  }

  /** Restoring a snapshot of a table gives back exactly its live instances with
      their live applications, in whatever order the snapshot was written. */
  lemma RestoreGivesLiveInstances(s: Snapshot, t: Table, live: set<u32>)
    requires IsSnapshotOf(s, t)
    ensures Reconciled(s, live) == Recovered(t, live)
  {
    hide Reconciled;
    ReconciledEntries(s, live);
    var r := Reconciled(s, live);
    forall name | name in Recovered(t, live)
      ensures name in r && r[name] == Recovered(t, live)[name]
    {
      var i :| 0 <= i < |s| && s[i].name == name;
    }
    assert r.Keys == Recovered(t, live).Keys;
  }

  predicate RestoredFrom(inst: Instance, snap: InstanceSnapshot, live: set<u32>) {
    snap.serverPid in live && inst == Instance(snap.port, snap.serverPid, false, LiveApps(snap.appPids, live))
  }

  lemma {:induction false} ReconciledEntries(s: Snapshot, live: set<u32>)
    ensures forall name | name in Reconciled(s, live) ::
              exists i :: 0 <= i < |s| && s[i].name == name && RestoredFrom(Reconciled(s, live)[name], s[i], live)
    ensures forall i | 0 <= i < |s| && s[i].serverPid in live :: s[i].name in Reconciled(s, live)
  {
    if s != [] {
      var init := s[..|s| - 1];
      ReconciledEntries(init, live);
      forall name | name in Reconciled(s, live)
        ensures exists i :: 0 <= i < |s| && s[i].name == name && RestoredFrom(Reconciled(s, live)[name], s[i], live)
      {
        if name == s[|s| - 1].name && s[|s| - 1].serverPid in live {
          assert RestoredFrom(Reconciled(s, live)[name], s[|s| - 1], live);
        } else {
          assert name in Reconciled(init, live) && Reconciled(s, live)[name] == Reconciled(init, live)[name];
          var i :| 0 <= i < |init| && init[i].name == name && RestoredFrom(Reconciled(init, live)[name], init[i], live);
          assert s[i] == init[i];
        }
      }
      forall i | 0 <= i < |s| && s[i].serverPid in live
        ensures s[i].name in Reconciled(s, live)
      {
        if i < |init| {
          assert init[i] == s[i];
        }
      }
    }
  }

  // ---- processes --------------------------------------------------------------------------

  datatype Signal = Term(pid: u32) | Kill(pid: u32)

  /** The guest's processes, as the daemon sees and signals them. */
  class Processes {
    var live: set<u32>
    var signals: seq<Signal>

    constructor (live: set<u32>)
      ensures this.live == live && signals == []
    {
      this.live, signals := live, [];
    }

    /** A polite request: its receiver may exit or not. */
    method SendTerm(pid: u32)
      modifies this
      ensures signals == old(signals) + [Term(pid)] && old(live) - {pid} <= live <= old(live)
    {
      signals := signals + [Term(pid)];
      if * { live := live - {pid}; }
    }

    method SendKill(pid: u32)
      modifies this
      ensures signals == old(signals) + [Kill(pid)] && live == old(live) - {pid}
    {
      signals := signals + [Kill(pid)];
      live := live - {pid};
    }

    /** Time passes: any process may exit. */
    method Wait()
      modifies this`live
      ensures live <= old(live)
    {
      var survivors: set<u32> :| survivors <= live;
      live := survivors;
    }
  }

  /** The k-th process an instance tracks: its applications, then its server. */
  function Tracked(inst: Instance, k: nat): u32
    requires k <= |inst.appPids|
  {
    if k < |inst.appPids| then inst.appPids[k] else inst.serverPid
  }

  predicate Tracks(inst: Instance, pid: u32) { pid in inst.appPids || pid == inst.serverPid }

  /** What stopping an instance sends: a request to each application in launch order,
      then one to the server; after these, kills to the processes at the positions
      `killed`, in the same order; and nothing to anyone else. */
  predicate Signalled(before: seq<Signal>, after: seq<Signal>, inst: Instance, killed: seq<nat>) {
    var n, k := |before|, |inst.appPids|;
    && |after| == n + k + 1 + |killed|
    && after[..n] == before
    && (forall i | 0 <= i < k :: after[n + i] == Term(inst.appPids[i]))
    && after[n + k] == Term(inst.serverPid)
    && Ascend(killed)
    && forall j | 0 <= j < |killed| :: killed[j] <= k && after[n + k + 1 + j] == Kill(Tracked(inst, killed[j]))
  }

  predicate Ascend(s: seq<nat>) { forall i, j | 0 <= i < j < |s| :: s[i] < s[j] }

  /** A process is among those at the positions. */
  predicate Hit(killed: seq<nat>, inst: Instance, pid: u32) {
    exists j :: 0 <= j < |killed| && killed[j] <= |inst.appPids| && Tracked(inst, killed[j]) == pid
  }

  /** The processes at these positions are those of the instance that linger. */
  predicate KilledAre(killed: seq<nat>, inst: Instance, lingering: set<u32>) {
    && (forall j | 0 <= j < |killed| :: killed[j] <= |inst.appPids| && Tracked(inst, killed[j]) in lingering)
    && (forall p | p in lingering && (p in inst.appPids || p == inst.serverPid) :: Hit(killed, inst, p))
  }

  /** After the first `n` processes have been asked. */
  predicate Asked(before: seq<Signal>, after: seq<Signal>, inst: Instance, n: nat)
    requires n <= |inst.appPids| + 1
  {
    && |after| == |before| + n && after[..|before|] == before
    && forall i | 0 <= i < n :: after[|before| + i] == Term(Tracked(inst, i))
  }

  /** After the grace period, with the processes below position `n` seen to. */
  predicate Finished(killed: seq<nat>, inst: Instance, lingering: set<u32>, live: set<u32>, n: nat)
    requires n <= |inst.appPids| + 1
  {
    && (forall j | 0 <= j < |killed| :: killed[j] < n && Tracked(inst, killed[j]) in lingering)
    && (forall k | 0 <= k < n :: Tracked(inst, k) !in live)
    && (forall p | p in lingering && p !in live :: Hit(killed, inst, p))
    && live <= lingering
  }

  lemma NothingAsked(signals: seq<Signal>, inst: Instance)
    ensures Asked(signals, signals, inst, 0)
  {
  }

  lemma AskedOne(before: seq<Signal>, after: seq<Signal>, inst: Instance, n: nat)
    requires n <= |inst.appPids| && Asked(before, after, inst, n)
    ensures Asked(before, after + [Term(Tracked(inst, n))], inst, n + 1)
  {
  }

  lemma NothingSentYet(before: seq<Signal>, after: seq<Signal>, inst: Instance)
    requires Asked(before, after, inst, |inst.appPids| + 1)
    ensures Signalled(before, after, inst, [])
  {
    var n, k := |before|, |inst.appPids|;
    assert after[n + k] == Term(Tracked(inst, k));
    assert forall i | 0 <= i < k :: Tracked(inst, i) == inst.appPids[i];
  }

  lemma AlsoKilled(before: seq<Signal>, after: seq<Signal>, inst: Instance, killed: seq<nat>, k: nat)
    requires Signalled(before, after, inst, killed) && k <= |inst.appPids|
    requires forall j | 0 <= j < |killed| :: killed[j] < k
    ensures Signalled(before, after + [Kill(Tracked(inst, k))], inst, killed + [k])
  {
  }

  lemma HitMore(killed: seq<nat>, inst: Instance, n: nat, p: u32)
    requires n <= |inst.appPids|
    ensures Hit(killed, inst, p) ==> Hit(killed + [n], inst, p)
    ensures Hit(killed + [n], inst, Tracked(inst, n))
  {
    var more := killed + [n];
    assert more[|killed|] == n;
    if Hit(killed, inst, p) {
      var j :| 0 <= j < |killed| && killed[j] <= |inst.appPids| && Tracked(inst, killed[j]) == p;
      assert more[j] == killed[j];
    }
  }

  lemma FinishedOne(killed: seq<nat>, inst: Instance, lingering: set<u32>, live: set<u32>, n: nat)
    requires n <= |inst.appPids| && Finished(killed, inst, lingering, live, n)
    ensures Tracked(inst, n) in live ==>
              Finished(killed + [n], inst, lingering, live - {Tracked(inst, n)}, n + 1)
    ensures Tracked(inst, n) !in live ==> Finished(killed, inst, lingering, live, n + 1)
  {
    hide Hit, Tracked;
    if Tracked(inst, n) in live {
      forall p | p in lingering && p !in live - {Tracked(inst, n)}
        ensures Hit(killed + [n], inst, p)
      {
        HitMore(killed, inst, n, p);
      }
    }
  }

  lemma NothingFinished(inst: Instance, live: set<u32>)
    ensures Finished([], inst, live, live, 0)
  {
  }

  lemma FinishedBelow(killed: seq<nat>, inst: Instance, lingering: set<u32>, live: set<u32>, n: nat)
    requires n <= |inst.appPids| + 1 && Finished(killed, inst, lingering, live, n)
    ensures forall j | 0 <= j < |killed| :: killed[j] < n
  {
  }

  lemma AllFinished(killed: seq<nat>, inst: Instance, lingering: set<u32>, live: set<u32>)
    requires Finished(killed, inst, lingering, live, |inst.appPids| + 1)
    ensures KilledAre(killed, inst, lingering) && live <= lingering
    ensures forall p | p in inst.appPids || p == inst.serverPid :: p !in live
  {
    var k := |inst.appPids|;
    assert Tracked(inst, k) !in live;
    forall p | p in inst.appPids
      ensures p !in live
    {
      var i :| 0 <= i < k && inst.appPids[i] == p;
      assert Tracked(inst, i) == p;
    }
  }

  /** Stops everything an instance tracks: each process is asked to exit, the
      applications before the server; after a grace period exactly what still runs
      is killed, in the same order. Nothing it tracks survives, nothing it tracks goes
      unsignalled, and nothing else is signalled. */
  method Terminate(inst: Instance, ps: Processes) returns (ghost killed: seq<nat>, ghost lingering: set<u32>)
    modifies ps
    ensures Signalled(old(ps.signals), ps.signals, inst, killed)
    ensures KilledAre(killed, inst, lingering) && ps.live <= lingering <= old(ps.live)
    ensures forall p: u32 | Tracks(inst, p) :: p !in ps.live
  {
    hide Signalled, Finished, Asked;
    var pids := PidsToTerminate(inst);
    assert forall k | 0 <= k < |pids| :: pids[k] == Tracked(inst, k);
    NothingAsked(ps.signals, inst);
    for i := 0 to |pids|
      invariant Asked(old(ps.signals), ps.signals, inst, i)
      invariant ps.live <= old(ps.live)
    {
      AskedOne(old(ps.signals), ps.signals, inst, i);
      ps.SendTerm(pids[i]);
    }
    NothingSentYet(old(ps.signals), ps.signals, inst);
    ps.Wait();
    killed, lingering := [], ps.live;
    NothingFinished(inst, lingering);
    for i := 0 to |pids|
      invariant Signalled(old(ps.signals), ps.signals, inst, killed)
      invariant Finished(killed, inst, lingering, ps.live, i)
    {
      FinishedBelow(killed, inst, lingering, ps.live, i);
      FinishedOne(killed, inst, lingering, ps.live, i);
      if pids[i] in ps.live {
        AlsoKilled(old(ps.signals), ps.signals, inst, killed, i);
        ps.SendKill(pids[i]);
        killed := killed + [i];
      }
    }
    AllFinished(killed, inst, lingering, ps.live);
  }

  // ---- the operations -----------------------------------------------------------------------

  /** Why a start or a launch was refused. */
  datatype Refusal =
    | PortTaken(owner: Name, serverPid: u32)
    | LogFailed | EmptyQuicToken | CertFailed | SpawnFailed | ExitedAtOnce
    | NoSuchInstance | EmptyArgv | NoSocket

  /** What the operating system answers while a server is being started. */
  datatype Spawning = Spawning(logReady: bool, quicToken: Option<string>, certReady: bool, child: Option<u32>,
      exited: bool)

  function SpawnRefusal(how: Spawning): Option<Refusal> {
    if !how.logReady then Some(LogFailed)
    else if how.quicToken == Some("") then Some(EmptyQuicToken)
    else if how.quicToken.Some? && !how.certReady then Some(CertFailed)
    else if how.child.None? then Some(SpawnFailed)
    else if how.exited then Some(ExitedAtOnce)
    else None
  }

  /** What a start that met no conflict answers: the pid of the server when its log
      opened, any QUIC token was not empty and its certificate there, the process was
      spawned and it did not exit at once; otherwise the first of these that failed. */
  predicate StartOutcome(r: Result<u32, Refusal>, how: Spawning) {
    match r
    case Ok(pid) =>
      && how.logReady && how.quicToken != Some("") && (how.quicToken.Some? ==> how.certReady)
      && how.child == Some(pid) && !how.exited
    case Err(LogFailed) => !how.logReady
    case Err(EmptyQuicToken) => how.logReady && how.quicToken == Some("")
    case Err(CertFailed) => how.logReady && how.quicToken.Some? && how.quicToken.value != "" && !how.certReady
    case Err(SpawnFailed) =>
      how.logReady && how.quicToken != Some("") && (how.quicToken.Some? ==> how.certReady) && how.child.None?
    case Err(ExitedAtOnce) =>
      && how.logReady && how.quicToken != Some("") && (how.quicToken.Some? ==> how.certReady)
      && how.child.Some? && how.exited
    case _ => false
  }

  /** A flush publishes the table; without one the file stays as it was. */
  predicate Saved(before: Option<Snapshot>, after: Option<Snapshot>, t: Table, flushed: bool) {
    if flushed then after.Some? && IsSnapshotOf(after.value, t) else after == before
  }

  /** The table after a start that ends with the given child, or without one. */
  function AfterStart(t: Table, live: set<u32>, name: Name, port: u16, child: Option<u32>): Table {
    var reaped := Reaped(t, live);
    if HasConflict(reaped, name, port) then reaped
    else if child.Some? then reaped[name := Instance(port, child.value, true, [])]
    else reaped - {name}
  }

  function WithApp(t: Table, name: Name, pid: u32): Table {
    if name in t then t[name := t[name].(appPids := t[name].appPids + [pid])] else t
  }

  class DaemonState {
    var instances: Table
    var disk: Option<Snapshot>

    /** The state of a freshly started daemon: the live part of what the last one
        saved, in memory and on disk. */
    constructor (disk: Option<Snapshot>, live: set<u32>, writable: bool)
      ensures instances == if disk.Some? then Reconciled(disk.value, live) else map[]
      ensures Saved(disk, this.disk, instances, disk.Some? && writable)
    {
      this.instances, this.disk := map[], disk;
      new;
      ReconcileOnStartup(live, writable);
    }

    method ReconcileOnStartup(live: set<u32>, writable: bool)
      requires instances == map[]
      modifies this
      ensures instances == if old(disk).Some? then Reconciled(old(disk).value, live) else map[]
      ensures Saved(old(disk), disk, instances, old(disk).Some? && writable)
    {
      if disk.None? { return; }
      var snap := disk.value;
      for i := 0 to |snap|
        invariant instances == Reconciled(snap[..i], live) && disk == old(disk)
      {
        assert snap[..i + 1][..i] == snap[..i];
        match DecideReconcile(snap[i], live) {
          case Drop =>
          case Recover(apps) =>
            instances := instances[snap[i].name := Instance(snap[i].port, snap[i].serverPid, false, apps)];
        }
      }
      assert snap[..|snap|] == snap;
      var _ := Flush(writable);
    }

    /** Lists the table, entry by entry, in whatever order its keys come. */
    method TakeSnapshot() returns (snap: Snapshot)
      ensures IsSnapshotOf(snap, instances)
    {
      snap := [];
      var todo := instances.Keys;
      while todo != {}
        invariant todo <= instances.Keys
        invariant IsSnapshotOf(snap, map name | name in instances && name !in todo :: instances[name])
        decreases todo
      {
        var name :| name in todo;
        ghost var was := snap;
        ghost var before := map n | n in instances && n !in todo :: instances[n];
        todo := todo - {name};
        snap := snap + [Snapped(name, instances[name])];
        SnapshotGrows(was, before, name, instances[name]);
        assert (map n | n in instances && n !in todo :: instances[n]) == before[name := instances[name]];
      }
      assert (map n | n in instances && n !in todo :: instances[n]) == instances;
    }

    /** Takes a snapshot of the table and publishes it. When the directory cannot be
        written the file stays as it was; every caller ignores that. */
    method Flush(writable: bool) returns (ok: bool)
      modifies this`disk
      ensures ok == writable && Saved(old(disk), disk, instances, writable)
    {
      var snap := TakeSnapshot();
      if !writable { return false; }
      disk := Some(snap);
      ok := true;
    }

    /** Drops the instances whose server has exited; tells whether there were any. */
    method ReapDeadInstances(live: set<u32>) returns (changed: bool)
      modifies this`instances
      ensures instances == Reaped(old(instances), live)
      ensures forall name :: name in instances <==> name in old(instances) && old(instances)[name].serverPid in live
      ensures forall name | name in instances :: instances[name] == old(instances)[name]
      ensures changed <==> instances != old(instances)
    {
      var dead: set<Name> := {};
      var todo := instances.Keys;
      while todo != {}
        invariant todo <= instances.Keys && dead <= instances.Keys
        invariant forall name | name in instances && name !in todo ::
                    name in dead <==> instances[name].serverPid !in live
        invariant forall name | name in dead :: name !in todo
        decreases todo
      {
        var name :| name in todo;
        todo := todo - {name};
        if instances[name].serverPid !in live { dead := dead + {name}; }
      }
      changed := dead != {};
      instances := instances - dead;
      assert changed ==> exists name :: name in dead && name in old(instances) && name !in instances;
      assert instances == Reaped(old(instances), live);
    }

    /** Another instance that holds the port, if there is one. */
    method PortConflictOwner(name: Name, port: u16) returns (owner: Option<(Name, u32)>)
      ensures owner.Some? <==> HasConflict(instances, name, port)
      ensures owner.Some? ==>
                var (other, pid) := owner.value;
                && other != name && other in instances
                && instances[other].port == port && instances[other].serverPid == pid
    {
      var todo := instances.Keys;
      while todo != {}
        invariant todo <= instances.Keys
        invariant forall other | other in instances && other !in todo :: other == name || instances[other].port != port
        decreases todo
      {
        var other :| other in todo;
        if other != name && instances[other].port == port {
          return Some((other, instances[other].serverPid));
        }
        todo := todo - {other};
      }
      return None;
    }

    /** Starts a server, replacing the instance of the same name. Dead instances are
        dropped first; a port held by another live instance refuses the start before
        anything is stopped. After that the old instance is stopped even when the new
        server then fails to start, and only a successful start is saved. */
    method StartInstance(name: Name, port: u16, how: Spawning, writable: bool, ps: Processes)
      returns (r: Result<u32, Refusal>, ghost killed: seq<nat>)
      modifies this, ps
      ensures instances == AfterStart(old(instances), old(ps.live), name, port, if r.Ok? then how.child else None)
      ensures var reaped := Reaped(old(instances), old(ps.live));
              if HasConflict(reaped, name, port) then
                && r.Err? && r.error.PortTaken?
                && r.error.owner in reaped && r.error.owner != name && reaped[r.error.owner].port == port
                && r.error.serverPid == reaped[r.error.owner].serverPid
                && instances == reaped
                && ps.live == old(ps.live) && ps.signals == old(ps.signals)
                && Saved(old(disk), disk, instances, reaped != old(instances) && writable)
              else
                && StartOutcome(r, how)
                && (forall other | other != name ::
                      (other in instances <==> other in reaped)
                      && (other in reaped ==> instances[other] == reaped[other]))
                && (if r.Ok? then name in instances && instances[name] == Instance(port, r.value, true, [])
                    else name !in instances)
                && (if name in reaped then
                      && Signalled(old(ps.signals), ps.signals, reaped[name], killed)
                      && forall p: u32 | Tracks(reaped[name], p) && how.child != Some(p) :: p !in ps.live
                    else ps.signals == old(ps.signals))
                && Saved(old(disk), disk, instances, r.Ok? && writable)
                && (r.Ok? ==> r.value in ps.live)
    {
      hide IsSnapshotOf, Signalled;
      killed := [];
      var reapedDead := ReapDeadInstances(ps.live);
      ghost var reaped := instances;
      var owner := PortConflictOwner(name, port);
      if owner.Some? {
        if reapedDead { var _ := Flush(writable); }
        return Err(PortTaken(owner.value.0, owner.value.1)), [];
      }
      if name in instances {
        var existing := instances[name];
        instances := instances - {name};
        ghost var lingering: set<u32>;
        killed, lingering := Terminate(existing, ps);
      }
      assert instances == reaped - {name};
      var refusal := SpawnRefusal(how);
      if refusal.Some? { return Err(refusal.value), killed; }
      var pid := how.child.value;
      ps.live := ps.live + {pid};
      instances := instances[name := Instance(port, pid, true, [])];
      assert instances == reaped[name := Instance(port, pid, true, [])];
      var _ := Flush(writable);
      r := Ok(pid);
    }

    /** Removes the instance, then stops everything it tracks. */
    method StopInstance(name: Name, writable: bool, ps: Processes) returns (r: Option<Refusal>, ghost killed: seq<nat>)
      modifies this, ps
      ensures instances == old(instances) - {name}
      ensures name !in old(instances) ==>
                && r == Some(NoSuchInstance) && disk == old(disk)
                && ps.live == old(ps.live) && ps.signals == old(ps.signals)
      ensures name in old(instances) ==>
                && r == None
                && Signalled(old(ps.signals), ps.signals, old(instances)[name], killed)
                && (forall p: u32 | Tracks(old(instances)[name], p) :: p !in ps.live)
                && Saved(old(disk), disk, instances, writable)
    {
      hide IsSnapshotOf, Signalled;
      if name !in instances {
        assert instances == instances - {name};
        return Some(NoSuchInstance), [];
      }
      var inst := instances[name];
      instances := instances - {name};
      ghost var lingering: set<u32>;
      killed, lingering := Terminate(inst, ps);
      var _ := Flush(writable);
      r := None;
    }

    /** Records a launched application with its instance, if that is still there. */
    method LaunchApp(name: Name, argv: seq<string>, socketReady: bool, logReady: bool, child: Option<u32>, exited: bool,
                     writable: bool, ps: Processes)
      returns (r: Result<u32, Refusal>)
      modifies this, ps`live
      ensures r == if argv == [] then Err(EmptyArgv)
                   else if !socketReady then Err(NoSocket)
                   else if !logReady then Err(LogFailed)
                   else if child.None? then Err(SpawnFailed)
                   else if exited then Err(ExitedAtOnce)
                   else Ok(child.value)
      ensures r.Err? ==> instances == old(instances) && disk == old(disk) && ps.live == old(ps.live)
      ensures r.Ok? ==>
                && ps.live == old(ps.live) + {r.value}
                && instances == WithApp(old(instances), name, r.value)
                && (name !in old(instances) ==> instances == old(instances))
                && (name in old(instances) ==>
                     var was := old(instances)[name];
                     instances == old(instances)[name := was.(appPids := was.appPids + [r.value])])
                && Saved(old(disk), disk, instances, writable)
    {
      if argv == [] { return Err(EmptyArgv); }
      if !socketReady { return Err(NoSocket); }
      if !logReady { return Err(LogFailed); }
      if child.None? { return Err(SpawnFailed); }
      if exited { return Err(ExitedAtOnce); }
      ps.live := ps.live + {child.value};
      if name in instances {
        var inst := instances[name];
        instances := instances[name := inst.(appPids := inst.appPids + [child.value])];
      }
      var _ := Flush(writable);
      r := Ok(child.value);
    }

    /** The status report: the live instances with their live applications, which is
        also what the table holds afterwards. */
    method Summaries(live: set<u32>, writable: bool) returns (report: Snapshot)
      modifies this
      ensures instances == WithLiveApps(Reaped(old(instances), live), live)
      ensures forall name ::
                name in instances <==> name in old(instances) && old(instances)[name].serverPid in live
      ensures forall name | name in instances ::
                var was, inst := old(instances)[name], instances[name];
                && inst.port == was.port && inst.serverPid == was.serverPid && inst.owned == was.owned
                && IsLivePart(inst.appPids, was.appPids, live)
      ensures IsSnapshotOf(report, instances)
      ensures Saved(old(disk), disk, instances, instances != old(instances) && writable)
    {
      hide IsSnapshotOf, LiveApps, IsLivePart;
      var needFlush := ReapDeadInstances(live);
      forall name | name in instances
        ensures IsLivePart(LiveApps(instances[name].appPids, live), instances[name].appPids, live)
      {
        LiveAppsInOrder(instances[name].appPids, live);
      }
      var fewer := RetainLiveApps(live);
      report := TakeSnapshot();
      if needFlush || fewer { var _ := Flush(writable); }
    }

    /** Forgets the applications that have exited; tells whether there were any. */
    method RetainLiveApps(live: set<u32>) returns (changed: bool)
      modifies this`instances
      ensures instances == WithLiveApps(old(instances), live)
      ensures changed <==> instances != old(instances)
    {
      hide LiveApps;
      ghost var was := instances;
      ghost var trimmed: Name := [];
      changed := false;
      var todo := instances.Keys;
      while todo != {}
        invariant todo <= instances.Keys == was.Keys
        invariant forall name | name in todo :: instances[name] == was[name]
        invariant forall name | name in was && name !in todo :: instances[name] == TrimApps(was[name], live)
        invariant !changed ==> instances == was
        invariant changed ==> trimmed in was && instances[trimmed] != was[trimmed] && trimmed !in todo
        decreases todo
      {
        var name :| name in todo;
        var inst := instances[name];
        SameLengthSameApps(inst.appPids, live);
        var kept := TrimApps(inst, live);
        if |kept.appPids| != |inst.appPids| { changed, trimmed := true, name; }
        instances := instances[name := kept];
        todo := todo - {name};
      }
      assert instances == WithLiveApps(was, live);
    }
  }

  lemma SnapshotGrows(s: Snapshot, t: Table, name: Name, inst: Instance)
    requires IsSnapshotOf(s, t) && name !in t
    ensures IsSnapshotOf(s + [Snapped(name, inst)], t[name := inst])
  {
    var grown := s + [Snapped(name, inst)];
    var bigger := t[name := inst];
    forall other | other in bigger
      ensures exists i :: 0 <= i < |grown| && grown[i].name == other
    {
      if other == name {
        assert grown[|s|].name == other;
      } else {
        var i :| 0 <= i < |s| && s[i].name == other;
        assert grown[i].name == other;
      }
    }
  }

  lemma {:induction false} SameLengthSameApps(pids: seq<u32>, live: set<u32>)
    ensures |LiveApps(pids, live)| <= |pids|
    ensures |LiveApps(pids, live)| == |pids| ==> LiveApps(pids, live) == pids
  {
    if pids != [] {
      SameLengthSameApps(pids[..|pids| - 1], live);
    }
  }
}
