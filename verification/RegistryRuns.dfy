/** The control daemon over whole runs: sessions whose operations interleave wherever
    the table's lock is free, flushes that race for one file, processes that
    exit at any time, crashes and restarts. Process ids are not reused. */
module RegistryRuns {
  import opened MachineInts
  import opened Wrappers
  import opened Registry
  import opened SnapshotStore

  /** What a start that holds the lock is doing. */
  datatype Lock =
    | Free
    | Replacing(name: Name, port: u16, victim: Option<Instance>)
    | Launched(name: Name, port: u16, pid: u32)

  datatype System = System(
    up: bool,
    table: Table,
    lock: Lock,
    terminating: seq<Instance>,   // removed from the table, still being stopped
    store: Store,
    live: set<u32>,
    used: set<u32>,
    servers: set<u32>)

  const BOOT: System := System(true, map[], Free, [], NOTHING, {}, {}, {})

  datatype Event =
    | StartRefused(name: Name, port: u16)
    | StartTakes(name: Name, port: u16)
    | StartStopsOld
    | StartSpawns(pid: u32)
    | StartFails
    | StartInserts
    | StopTakes(name: Name)
    | StopEnds(which: nat)
    | Launches(name: Name, pid: u32)
    | Reports
    | TakesSnapshot(snapshot: Snapshot)
    | OpensFile(which: nat)
    | WritesFile(which: nat)
    | RenamesFile(which: nat)
    | FlushFails(which: nat)
    | Exits(pid: u32)
    | Crashes
    | Restarts

  function Pids(inst: Instance): set<u32> { set p | p in PidsToTerminate(inst) }

  /** What the event does to the saved file. */
  function MoveOf(s: System, e: Event): Move {
    match e
    case TakesSnapshot(snapshot) => Takes(snapshot, s.table)
    case OpensFile(i) => Opens(i)
    case WritesFile(i) => Writes(i)
    case RenamesFile(i) => Renames(i)
    case FlushFails(i) => GivesUp(i)
    case Crashes => Dies
    case _ => Idle
  }

  /** The snapshot a daemon started now would find. */
  function Disk(s: System): Option<Snapshot> {
    match OnDisk(s.store)
    case Empty => None
    case Holds(snapshot, _) => Some(snapshot)
  }

  predicate Enabled(s: System, e: Event) {
    match e
    case StartRefused(name, port) => s.up && s.lock.Free? && HasConflict(Reaped(s.table, s.live), name, port)
    case StartTakes(name, port) => s.up && s.lock.Free? && !HasConflict(Reaped(s.table, s.live), name, port)
    case StartStopsOld => s.lock.Replacing? && s.lock.victim.Some?
    case StartSpawns(pid) => s.lock.Replacing? && s.lock.victim.None? && pid !in s.used
    case StartFails => (s.lock.Replacing? && s.lock.victim.None?) || (s.lock.Launched? && s.lock.pid !in s.live)
    case StartInserts => s.lock.Launched?
    case StopTakes(name) => s.up && s.lock.Free? && name in s.table
    case StopEnds(i) => i < |s.terminating|
    case Launches(_, pid) => s.up && s.lock.Free? && pid !in s.used
    case Reports => s.up && s.lock.Free?
    case TakesSnapshot(snapshot) => s.up && s.lock.Free? && IsSnapshotOf(snapshot, s.table)
    case OpensFile(_) => Can(s.store, MoveOf(s, e))
    case WritesFile(_) => Can(s.store, MoveOf(s, e))
    case RenamesFile(_) => Can(s.store, MoveOf(s, e))
    case FlushFails(_) => Can(s.store, MoveOf(s, e))
    case Exits(_) => true
    case Crashes => s.up
    case Restarts => !s.up
  }

  function Apply(s: System, e: Event): System
    requires Enabled(s, e)
  {
    match e
    case StartRefused(_, _) => s.(table := Reaped(s.table, s.live))
    case StartTakes(name, port) =>
      var reaped := Reaped(s.table, s.live);
      s.(table := reaped - {name},
         lock := Replacing(name, port, if name in reaped then Some(reaped[name]) else None))
    case StartStopsOld => s.(live := s.live - Pids(s.lock.victim.value), lock := s.lock.(victim := None))
    case StartSpawns(pid) =>
      s.(live := s.live + {pid}, used := s.used + {pid}, servers := s.servers + {pid},
         lock := Launched(s.lock.name, s.lock.port, pid))
    case StartFails => s.(lock := Free)
    case StartInserts =>
      s.(table := s.table[s.lock.name := Instance(s.lock.port, s.lock.pid, true, [])], lock := Free)
    case StopTakes(name) => s.(table := s.table - {name}, terminating := s.terminating + [s.table[name]])
    case StopEnds(i) => s.(live := s.live - Pids(s.terminating[i]), terminating := Without(s.terminating, i))
    case Launches(name, pid) =>
      s.(table := WithApp(s.table, name, pid), live := s.live + {pid}, used := s.used + {pid})
    case Reports => s.(table := WithLiveApps(Reaped(s.table, s.live), s.live))
    case TakesSnapshot(_) => s.(store := Do(s.store, MoveOf(s, e)))
    case OpensFile(_) => s.(store := Do(s.store, MoveOf(s, e)))
    case WritesFile(_) => s.(store := Do(s.store, MoveOf(s, e)))
    case RenamesFile(_) => s.(store := Do(s.store, MoveOf(s, e)))
    case FlushFails(_) => s.(store := Do(s.store, MoveOf(s, e)))
    case Exits(pid) => s.(live := s.live - {pid})
    case Crashes =>
      s.(up := false, table := map[], lock := Free, terminating := [], store := Do(s.store, MoveOf(s, e)))
    case Restarts => s.(up := true, table := if Disk(s).Some? then Reconciled(Disk(s).value, s.live) else map[])
  }

  predicate StepAt(run: seq<System>, events: seq<Event>, i: nat)
    requires i < |events| && |run| == |events| + 1
  {
    Enabled(run[i], events[i]) && run[i + 1] == Apply(run[i], events[i])
  }

  predicate IsRun(run: seq<System>, events: seq<Event>) {
    && |run| == |events| + 1 && run[0] == BOOT
    && forall i | 0 <= i < |events| :: StepAt(run, events, i)
  }

  // ---- operations that nothing interrupts -----------------------------------------------------

  /** Several events in a row, if each is possible. */
  function Execute(s: System, events: seq<Event>): Option<System>
    decreases |events|
  {
    if events == [] then Some(s)
    else if Enabled(s, events[0]) then Execute(Apply(s, events[0]), events[1..])
    else None
  }

  lemma ExecuteTwo(s: System, a: Event, b: Event)
    requires Enabled(s, a) && Enabled(Apply(s, a), b)
    ensures Execute(s, [a, b]) == Some(Apply(Apply(s, a), b))
  {
    hide Enabled, Apply;
    assert [a, b][1..] == [b] && [b][1..] == [];
    assert Execute(Apply(s, a), [b]) == Execute(Apply(Apply(s, a), b), []);
  }

  lemma {:induction false} ExecuteThen(s: System, first: seq<Event>, second: seq<Event>)
    requires Execute(s, first).Some?
    ensures Execute(s, first + second) == Execute(Execute(s, first).value, second)
    decreases |first|
  {
    hide Enabled, Apply;
    if first == [] {
      assert first + second == second;
    } else {
      assert (first + second)[1..] == first[1..] + second;
      ExecuteThen(Apply(s, first[0]), first[1..], second);
    }
  }

  /** The beginning of a start: the lock taken, and the old instance of the name stopped. */
  function TakeOver(s: System, name: Name, port: u16): seq<Event> {
    if name in Reaped(s.table, s.live) then [StartTakes(name, port), StartStopsOld] else [StartTakes(name, port)]
  }

  lemma TakeOverAlone(s: System, name: Name, port: u16)
    requires s.up && s.lock.Free? && !HasConflict(Reaped(s.table, s.live), name, port)
    ensures var reaped := Reaped(s.table, s.live);
            Execute(s, TakeOver(s, name, port))
            == Some(s.(table := reaped - {name}, lock := Replacing(name, port, None),
                       live := if name in reaped then s.live - Pids(reaped[name]) else s.live))
  {
    var reaped := Reaped(s.table, s.live);
    hide Reaped, HasConflict, Pids;
    if name in reaped {
      ExecuteTwo(s, StartTakes(name, port), StartStopsOld);
    } else {
      assert [StartTakes(name, port)][1..] == [];
      assert Execute(Apply(s, StartTakes(name, port)), []) == Some(Apply(s, StartTakes(name, port)));
    }
  }

  /** A start that nothing interrupts does to the table what `DaemonState.StartInstance`
      promises, whether it is refused, fails on the way, or succeeds. */
  lemma StartAlone(s: System, name: Name, port: u16, pid: u32)
    requires s.up && s.lock.Free? && pid !in s.used
    ensures var reaped := Reaped(s.table, s.live);
            if HasConflict(reaped, name, port) then
              Execute(s, [StartRefused(name, port)]) == Some(s.(table := AfterStart(s.table, s.live, name, port, None)))
            else
              var failed := Execute(s, TakeOver(s, name, port) + [StartFails]);
              var started := Execute(s, TakeOver(s, name, port) + [StartSpawns(pid), StartInserts]);
              var stopped := if name in reaped then Pids(reaped[name]) else {};
              && failed == Some(s.(table := AfterStart(s.table, s.live, name, port, None), live := s.live - stopped))
              && started == Some(s.(table := AfterStart(s.table, s.live, name, port, Some(pid)),
                                    live := s.live - stopped + {pid}, used := s.used + {pid},
                                    servers := s.servers + {pid}))
  {
    var reaped := Reaped(s.table, s.live);
    if HasConflict(reaped, name, port) {
      var refused := Apply(s, StartRefused(name, port));
      assert [StartRefused(name, port)][1..] == [];
      assert Execute(refused, []) == Some(refused);
    } else {
      TakeOverAlone(s, name, port);
      hide Reaped, HasConflict, Pids;
      var taken := Execute(s, TakeOver(s, name, port)).value;
      var stopped := if name in reaped then Pids(reaped[name]) else {};
      assert s.live - {} == s.live;
      hide TakeOver;
      ExecuteThen(s, TakeOver(s, name, port), [StartFails]);
      FailAlone(taken);
      ExecuteThen(s, TakeOver(s, name, port), [StartSpawns(pid), StartInserts]);
      ExecuteTwo(taken, StartSpawns(pid), StartInserts);
      assert (reaped - {name})[name := Instance(port, pid, true, [])] == reaped[name := Instance(port, pid, true, [])];
    }
  }

  lemma FailAlone(s: System)
    requires s.lock.Replacing? && s.lock.victim.None?
    ensures Execute(s, [StartFails]) == Some(s.(lock := Free))
  {
    assert [StartFails][1..] == [];
    assert Execute(Apply(s, StartFails), []) == Some(Apply(s, StartFails));
  }

  /** The same for a stop and for a flush. */
  lemma StopAlone(s: System, name: Name)
    requires s.up && s.lock.Free? && name in s.table
    ensures Execute(s, [StopTakes(name), StopEnds(|s.terminating|)])
         == Some(s.(table := s.table - {name}, live := s.live - Pids(s.table[name])))
  {
    hide Pids;
    var taken := Apply(s, StopTakes(name));
    assert Without(taken.terminating, |s.terminating|) == s.terminating;
    ExecuteTwo(s, StopTakes(name), StopEnds(|s.terminating|));
  }

  /** A flush from beginning to end, over whatever temporary file is lying about. */
  function FlushOf(s: System, snapshot: Snapshot): seq<Event> {
    var i := |s.store.flushing|;
    [TakesSnapshot(snapshot), OpensFile(i)] + [WritesFile(i), RenamesFile(i)]
  }

  lemma FlushAlone(s: System, snapshot: Snapshot)
    requires s.up && s.lock.Free? && IsSnapshotOf(snapshot, s.table) && Kept(s.store)
    ensures var after := Execute(s, FlushOf(s, snapshot));
            && after.Some? && after.value == s.(store := after.value.store)
            && after.value.store.flushing == s.store.flushing
            && Saved(Disk(s), Disk(after.value), s.table, true) && Disk(after.value) == Some(snapshot)
  {
    var i := |s.store.flushing|;
    TakenAndOpened(s, snapshot);
    var taken := Apply(s, TakesSnapshot(snapshot));
    var opens := Apply(taken, OpensFile(i));
    hide IsSnapshotOf, Kept, Enabled, Apply, Execute;
    WrittenAndRenamed(s, taken, opens, snapshot);
    ExecuteThen(s, [TakesSnapshot(snapshot), OpensFile(i)], [WritesFile(i), RenamesFile(i)]);
  }

  lemma TakenAndOpened(s: System, snapshot: Snapshot)
    requires s.up && s.lock.Free? && IsSnapshotOf(snapshot, s.table) && Kept(s.store)
    ensures var i := |s.store.flushing|; var taken := Apply(s, TakesSnapshot(snapshot));
            && Enabled(taken, OpensFile(i))
            && Execute(s, [TakesSnapshot(snapshot), OpensFile(i)]) == Some(Apply(taken, OpensFile(i)))
  {
    TmpIsKnown(s.store);
    hide IsSnapshotOf, Kept, Execute, Reaped, WithApp, WithLiveApps, Reconciled, HasConflict;
    ExecuteTwo(s, TakesSnapshot(snapshot), OpensFile(|s.store.flushing|));
  }

  lemma TmpIsKnown(s: Store)
    requires Kept(s)
    ensures s.tmp.Some? ==> s.tmp.value < |s.files|
  {
  }

  lemma WrittenAndRenamed(s: System, taken: System, opens: System, snapshot: Snapshot)
    requires s.up && s.lock.Free? && IsSnapshotOf(snapshot, s.table) && Kept(s.store)
    requires taken == Apply(s, TakesSnapshot(snapshot)) && Enabled(taken, OpensFile(|s.store.flushing|))
    requires opens == Apply(taken, OpensFile(|s.store.flushing|))
    ensures var i := |s.store.flushing|; var after := Execute(opens, [WritesFile(i), RenamesFile(i)]);
            && after.Some? && after.value == s.(store := after.value.store)
            && after.value.store.flushing == s.store.flushing && Disk(after.value) == Some(snapshot)
  {
    hide IsSnapshotOf, Contents, Unwritten, Stamps;
    var i := |s.store.flushing|;
    assert opens.store.flushing[..i] == s.store.flushing;
    var written := Apply(opens, WritesFile(i));
    var renamed := Apply(written, RenamesFile(i));
    assert written.store.flushing[..i] + written.store.flushing[i + 1..] == s.store.flushing;
    ExecuteTwo(opens, WritesFile(i), RenamesFile(i));
  }

  // ---- tables ---------------------------------------------------------------------------

  predicate PortUnique(t: Table) {
    forall a, b | a in t && b in t && a != b :: t[a].port != t[b].port
  }

  predicate Disjoint(a: Instance, b: Instance) {
    forall p | p in PidsToTerminate(a) :: p !in PidsToTerminate(b)
  }

  predicate Within(inst: Instance, used: set<u32>) {
    forall p | p in PidsToTerminate(inst) :: p in used
  }

  /** No two instances share a port or a process, and all their processes are known. */
  predicate Sound(t: Table, used: set<u32>) {
    && PortUnique(t)
    && (forall a, b | a in t && b in t && a != b :: Disjoint(t[a], t[b]))
    && (forall a | a in t :: Within(t[a], used))
  }

  /** `a` keeps the port and the server of `b` and tracks nothing `b` does not. */
  predicate Trims(a: Instance, b: Instance) {
    && a.port == b.port && a.serverPid == b.serverPid
    && forall p | p in PidsToTerminate(a) :: p in PidsToTerminate(b)
  }

  predicate Weaker(u: Table, t: Table) {
    forall name | name in u :: name in t && Trims(u[name], t[name])
  }

  lemma WeakerIsSound(u: Table, t: Table, used: set<u32>)
    requires Weaker(u, t) && Sound(t, used)
    ensures Sound(u, used)
  {
    hide PidsToTerminate;
    forall a, b | a in u && b in u && a != b
      ensures Disjoint(u[a], u[b])
    {
      assert Trims(u[a], t[a]) && Trims(u[b], t[b]) && Disjoint(t[a], t[b]);
    }
    forall a | a in u
      ensures Within(u[a], used)
    {
      assert Trims(u[a], t[a]) && Within(t[a], used);
    }
  }

  lemma ReapIsWeaker(t: Table, live: set<u32>)
    ensures Weaker(Reaped(t, live), t)
  {
  }

  lemma ReportIsWeaker(t: Table, live: set<u32>)
    ensures Weaker(WithLiveApps(Reaped(t, live), live), t)
  {
    hide LiveApps;
  }

  lemma RecoverIsWeaker(t: Table, live: set<u32>)
    ensures Weaker(Recovered(t, live), t)
  {
    hide LiveApps;
  }

  lemma InsertIsSound(t: Table, used: set<u32>, name: Name, inst: Instance)
    requires Sound(t, used) && Within(inst, used)
    requires forall other | other in t && other != name :: t[other].port != inst.port && Disjoint(inst, t[other])
    ensures Sound(t[name := inst], used)
  {
    hide PidsToTerminate;
    var u := t[name := inst];
    forall a, b | a in u && b in u && a != b
      ensures Disjoint(u[a], u[b])
    {
      if a == name {
      } else if b == name {
        assert Disjoint(inst, t[a]);
      } else {
        assert Disjoint(t[a], t[b]);
      }
    }
  }

  lemma SoundGrows(t: Table, used: set<u32>, pid: u32)
    requires Sound(t, used)
    ensures Sound(t, used + {pid})
  {
    hide PidsToTerminate;
    forall a | a in t
      ensures Within(t[a], used + {pid})
    {
      assert Within(t[a], used);
    }
  }

  lemma AppIsSound(t: Table, used: set<u32>, name: Name, pid: u32)
    requires Sound(t, used) && pid !in used
    ensures Sound(WithApp(t, name, pid), used + {pid})
  {
    SoundGrows(t, used, pid);
    if name in t {
      var inst := t[name].(appPids := t[name].appPids + [pid]);
      forall p | p in PidsToTerminate(inst)
        ensures p == pid || p in PidsToTerminate(t[name])
      {
      }
      hide PidsToTerminate;
      assert Within(t[name], used);
      forall other | other in t && other != name
        ensures t[other].port != inst.port && Disjoint(inst, t[other])
      {
        assert Disjoint(t[name], t[other]) && Within(t[other], used);
      }
      InsertIsSound(t, used + {pid}, name, inst);
    }
  }

  // ---- the invariant: ports, processes and the lock ------------------------------------------

  /** An instance outside the table shares no process with it. */
  predicate Apart(inst: Instance, t: Table, used: set<u32>) {
    Within(inst, used) && forall name | name in t :: Disjoint(inst, t[name])
  }

  predicate LockSound(s: System) {
    match s.lock
    case Free => true
    case Replacing(name, port, victim) =>
      && !HasConflict(s.table, name, port) && name !in s.table
      && (victim.Some? ==> Apart(victim.value, s.table, s.used))
    case Launched(name, port, pid) =>
      && !HasConflict(s.table, name, port) && name !in s.table
      && Apart(Instance(port, pid, true, []), s.table, s.used)
  }

  ghost predicate FromSound(snapshot: Snapshot, used: set<u32>) {
    exists t: Table :: Sound(t, used) && IsSnapshotOf(snapshot, t)
  }

  /** Every table ever captured in a snapshot was sound. */
  predicate CapturedSound(s: System) {
    forall i | 0 <= i < |s.store.captured| :: Sound(s.store.captured[i], s.used)
  }

  predicate TerminatingSound(s: System) {
    && (forall i | 0 <= i < |s.terminating| :: Apart(s.terminating[i], s.table, s.used))
    && (s.lock.Launched? ==>
          forall i | 0 <= i < |s.terminating| ::
            Disjoint(s.terminating[i], Instance(s.lock.port, s.lock.pid, true, [])))
  }

  predicate Inv(s: System) {
    && s.servers <= s.used && Kept(s.store)
    && Sound(s.table, s.used) && LockSound(s) && TerminatingSound(s) && CapturedSound(s)
    && (!s.up ==> s.table == map[] && s.lock.Free? && s.terminating == [] && s.store.flushing == [])
  }

  lemma ApartFromWeaker(inst: Instance, t: Table, u: Table, used: set<u32>)
    requires Apart(inst, t, used) && Weaker(u, t)
    ensures Apart(inst, u, used)
  {
    hide PidsToTerminate;
    forall name | name in u
      ensures Disjoint(inst, u[name])
    {
      assert Disjoint(inst, t[name]) && Trims(u[name], t[name]);
    }
  }

  /** Any step that only takes things out of the table keeps the invariant. */
  lemma ShrinkKeepsInv(s: System, u: Table)
    requires Inv(s) && s.up && s.lock.Free? && Weaker(u, s.table)
    ensures Inv(s.(table := u))
  {
    hide Sound, Apart, Weaker, Kept;
    WeakerIsSound(u, s.table, s.used);
    forall i | 0 <= i < |s.terminating|
      ensures Apart(s.terminating[i], u, s.used)
    {
      ApartFromWeaker(s.terminating[i], s.table, u, s.used);
    }
  }

  lemma RemovedIsApart(t: Table, used: set<u32>, name: Name)
    requires Sound(t, used) && name in t
    ensures Apart(t[name], t - {name}, used)
  {
    hide PidsToTerminate;
  }

  lemma MinusIsWeaker(t: Table, name: Name)
    ensures Weaker(t - {name}, t)
  {
    hide PidsToTerminate;
  }

  lemma FreshIsApart(t: Table, used: set<u32>, port: u16, pid: u32)
    requires Sound(t, used) && pid !in used
    ensures Apart(Instance(port, pid, true, []), t, used + {pid})
  {
    forall name | name in t
      ensures Disjoint(Instance(port, pid, true, []), t[name])
    {
      assert Within(t[name], used);
    }
  }

  lemma ApartFromApp(inst: Instance, t: Table, used: set<u32>, name: Name, pid: u32)
    requires Apart(inst, t, used) && pid !in used
    ensures Apart(inst, WithApp(t, name, pid), used + {pid})
  {
    if name in t {
      assert Disjoint(inst, t[name]);
    }
  }

  lemma ApartGrows(inst: Instance, t: Table, used: set<u32>, pid: u32)
    requires Apart(inst, t, used)
    ensures Apart(inst, t, used + {pid})
  {
    hide PidsToTerminate;
  }

  lemma ApartFromInserted(inst: Instance, t: Table, used: set<u32>, name: Name, added: Instance)
    requires Apart(inst, t, used) && Disjoint(inst, added)
    ensures Apart(inst, t[name := added], used)
  {
    hide PidsToTerminate;
  }

  lemma CapturedGrow(s: System, pid: u32)
    requires CapturedSound(s)
    ensures forall i | 0 <= i < |s.store.captured| :: Sound(s.store.captured[i], s.used + {pid})
  {
    hide Sound;
    forall i | 0 <= i < |s.store.captured|
      ensures Sound(s.store.captured[i], s.used + {pid})
    {
      SoundGrows(s.store.captured[i], s.used, pid);
    }
  }

  /** What is on disk is a snapshot of one of the captured tables. */
  lemma DiskIsCaptured(s: System)
    requires Kept(s.store) && Disk(s).Some?
    ensures OnDisk(s.store).stamp < |s.store.captured|
    ensures IsSnapshotOf(Disk(s).value, s.store.captured[OnDisk(s.store).stamp])
  {
    hide IsSnapshotOf;
  }

  lemma DiskIsSound(s: System)
    requires Inv(s) && Disk(s).Some?
    ensures FromSound(Disk(s).value, s.used)
  {
    hide Sound, IsSnapshotOf;
    DiskIsCaptured(s);
    assert Sound(s.store.captured[OnDisk(s.store).stamp], s.used);
  }

  // ---- each step keeps the invariant -------------------------------------------------------

  lemma TakesKeepsInv(s: System, name: Name, port: u16)
    requires Inv(s) && Enabled(s, StartTakes(name, port))
    ensures Inv(Apply(s, StartTakes(name, port)))
  {
    hide Sound, Apart, Weaker, Kept, Reaped;
    var reaped := Reaped(s.table, s.live);
    ReapIsWeaker(s.table, s.live);
    ShrinkKeepsInv(s, reaped);
    MinusIsWeaker(reaped, name);
    ShrinkKeepsInv(s.(table := reaped), reaped - {name});
    if name in reaped {
      RemovedIsApart(reaped, s.used, name);
    }
  }

  lemma SpawnKeepsInv(s: System, pid: u32)
    requires Inv(s) && Enabled(s, StartSpawns(pid))
    ensures Inv(Apply(s, StartSpawns(pid)))
  {
    hide Sound, Apart, Kept, PidsToTerminate;
    CapturedGrow(s, pid);
    SoundGrows(s.table, s.used, pid);
    FreshIsApart(s.table, s.used, s.lock.port, pid);
    forall i | 0 <= i < |s.terminating|
      ensures Apart(s.terminating[i], s.table, s.used + {pid})
      ensures Disjoint(s.terminating[i], Instance(s.lock.port, pid, true, []))
    {
      ApartGrows(s.terminating[i], s.table, s.used, pid);
      FreshIsDisjoint(s.terminating[i], s.table, s.used, s.lock.port, pid);
    }
  }

  lemma FreshIsDisjoint(inst: Instance, t: Table, used: set<u32>, port: u16, pid: u32)
    requires Apart(inst, t, used) && pid !in used
    ensures Disjoint(inst, Instance(port, pid, true, []))
  {
  }

  lemma InsertKeepsInv(s: System)
    requires Inv(s) && Enabled(s, StartInserts)
    ensures Inv(Apply(s, StartInserts))
  {
    hide Kept, PidsToTerminate;
    var added := Instance(s.lock.port, s.lock.pid, true, []);
    InsertIsSound(s.table, s.used, s.lock.name, added);
    hide Sound, Apart, Disjoint;
    forall i | 0 <= i < |s.terminating|
      ensures Apart(s.terminating[i], s.table[s.lock.name := added], s.used)
    {
      ApartFromInserted(s.terminating[i], s.table, s.used, s.lock.name, added);
    }
  }

  lemma StopKeepsInv(s: System, name: Name)
    requires Inv(s) && Enabled(s, StopTakes(name))
    ensures Inv(Apply(s, StopTakes(name)))
  {
    hide Sound, Apart, Weaker, Kept;
    MinusIsWeaker(s.table, name);
    ShrinkKeepsInv(s, s.table - {name});
    RemovedIsApart(s.table, s.used, name);
  }

  lemma LaunchKeepsInv(s: System, name: Name, pid: u32)
    requires Inv(s) && Enabled(s, Launches(name, pid))
    ensures Inv(Apply(s, Launches(name, pid)))
  {
    hide Sound, Apart, Kept, WithApp;
    CapturedGrow(s, pid);
    AppIsSound(s.table, s.used, name, pid);
    forall i | 0 <= i < |s.terminating|
      ensures Apart(s.terminating[i], WithApp(s.table, name, pid), s.used + {pid})
    {
      ApartFromApp(s.terminating[i], s.table, s.used, name, pid);
    }
  }

  lemma RestartKeepsInv(s: System)
    requires Inv(s) && Enabled(s, Restarts)
    ensures Inv(Apply(s, Restarts))
  {
    hide Sound, Weaker, IsSnapshotOf, Reconciled, Recovered, Kept;
    if Disk(s).Some? {
      DiskIsCaptured(s);
      var t := s.store.captured[OnDisk(s.store).stamp];
      RestoreGivesLiveInstances(Disk(s).value, t, s.live);
      RecoverIsWeaker(t, s.live);
      WeakerIsSound(Recovered(t, s.live), t, s.used);
    } else {
      EmptyIsSound(s.used);
    }
  }

  lemma EmptyIsSound(used: set<u32>)
    ensures Sound(map[], used)
  {
  }

  lemma OtherStepsKeepInv(s: System, e: Event)
    requires Inv(s) && Enabled(s, e)
    requires e.StartStopsOld? || e.StartFails? || e.StopEnds? || e.Exits?
    ensures Inv(Apply(s, e))
  {
    hide Sound, Apart, Kept, Disjoint, PidsToTerminate, IsSnapshotOf;
  }

  predicate ConcernsFile(e: Event) {
    e.TakesSnapshot? || e.OpensFile? || e.WritesFile? || e.RenamesFile? || e.FlushFails? || e.Crashes?
  }

  lemma CapturedKept(s: System, e: Event)
    requires Inv(s) && Enabled(s, e) && ConcernsFile(e)
    ensures var m := MoveOf(s, e);
            && Can(s.store, m) && Apply(s, e).store == Do(s.store, m)
            && forall i | 0 <= i < |Do(s.store, m).captured| :: Sound(Do(s.store, m).captured[i], s.used)
  {
    hide Sound, Kept, IsSnapshotOf, Apart;
  }

  lemma FlushKeepsInv(s: System, e: Event)
    requires Inv(s) && Enabled(s, e) && ConcernsFile(e)
    ensures Inv(Apply(s, e))
  {
    CapturedKept(s, e);
    StepKept(s.store, MoveOf(s, e));
    EmptyIsSound(s.used);
    hide Sound, Apart, Kept, IsSnapshotOf, Can, Disjoint;
    if !s.up {
      DownHasNoFlush(s, e);
    }
  }

  lemma DownHasNoFlush(s: System, e: Event)
    requires !s.up && s.store.flushing == [] && Enabled(s, e)
    ensures !ConcernsFile(e)
  {
  }

  lemma StepKeepsInv(s: System, e: Event)
    requires Inv(s) && Enabled(s, e)
    ensures Inv(Apply(s, e))
  {
    hide Inv, Weaker, Reaped, WithLiveApps;
    match e
    case StartRefused(_, _) =>
      ReapIsWeaker(s.table, s.live);
      ShrinkKeepsInv(s, Reaped(s.table, s.live));
    case StartTakes(name, port) => TakesKeepsInv(s, name, port);
    case StartSpawns(pid) => SpawnKeepsInv(s, pid);
    case StartInserts => InsertKeepsInv(s);
    case StopTakes(name) => StopKeepsInv(s, name);
    case Launches(name, pid) => LaunchKeepsInv(s, name, pid);
    case Reports =>
      ReportIsWeaker(s.table, s.live);
      ShrinkKeepsInv(s, WithLiveApps(Reaped(s.table, s.live), s.live));
    case Restarts => RestartKeepsInv(s);
    case _ => if ConcernsFile(e) { FlushKeepsInv(s, e); } else { OtherStepsKeepInv(s, e); }
  }

  lemma {:induction false} ReachableInv(run: seq<System>, events: seq<Event>, k: nat)
    requires IsRun(run, events) && k < |run|
    ensures Inv(run[k])
    decreases k
  {
    if k == 0 {
      EmptyIsSound({});
    } else {
      hide Inv, Enabled, Apply;
      ReachableInv(run, events, k - 1);
      assert StepAt(run, events, k - 1);
      StepKeepsInv(run[k - 1], events[k - 1]);
    }
  }

  // ---- what every run guarantees -------------------------------------------------------------

  predicate PortsDiffer(snapshot: Snapshot) {
    forall i, j | 0 <= i < j < |snapshot| ::
      snapshot[i].port != snapshot[j].port && snapshot[i].serverPid != snapshot[j].serverPid
  }

  /** In every reachable state no two instances share a port or a process, and
      neither do any two entries of the snapshot on disk. */
  lemma PortsNeverShared(run: seq<System>, events: seq<Event>, k: nat)
    requires IsRun(run, events) && k < |run|
    ensures PortUnique(run[k].table)
    ensures forall a, b | a in run[k].table && b in run[k].table && a != b :: Disjoint(run[k].table[a], run[k].table[b])
    ensures Disk(run[k]).Some? ==> PortsDiffer(Disk(run[k]).value)
  {
    hide IsRun;
    ReachableInv(run, events, k);
    if Disk(run[k]).Some? {
      DiskIsSound(run[k]);
      SoundSnapshotPortsDiffer(Disk(run[k]).value, run[k].used);
    }
  }

  lemma SoundSnapshotPortsDiffer(snapshot: Snapshot, used: set<u32>)
    requires FromSound(snapshot, used)
    ensures PortsDiffer(snapshot)
  {
    var t: Table :| Sound(t, used) && IsSnapshotOf(snapshot, t);
    forall i, j | 0 <= i < j < |snapshot|
      ensures snapshot[i].port != snapshot[j].port && snapshot[i].serverPid != snapshot[j].serverPid
    {
      var (a, b) := (snapshot[i].name, snapshot[j].name);
      assert a in t && b in t && a != b && Disjoint(t[a], t[b]);
      assert t[a].serverPid in PidsToTerminate(t[a]) && t[b].serverPid in PidsToTerminate(t[b]);
    }
  }

  /** A captured table is one the daemon held at some moment before. */
  lemma {:induction false} CapturedWasTable(run: seq<System>, events: seq<Event>, k: nat, i: nat) returns (j: nat)
    requires IsRun(run, events) && k < |run| && i < |run[k].store.captured|
    ensures j < k && run[k].store.captured[i] == run[j].table
    decreases k
  {
    assert k > 0;
    assert StepAt(run, events, k - 1);
    hide IsRun, IsSnapshotOf, Reaped, WithLiveApps, Reconciled, WithApp;
    CaptureStep(run[k - 1], events[k - 1]);
    if i < |run[k - 1].store.captured| {
      j := CapturedWasTable(run, events, k - 1, i);
    } else {
      j := k - 1;
    }
  }

  lemma CaptureStep(s: System, e: Event)
    requires Enabled(s, e)
    ensures Apply(s, e).store.captured == s.store.captured + (if e.TakesSnapshot? then [s.table] else [])
  {
    hide IsSnapshotOf, Reaped, WithLiveApps, Reconciled, WithApp;
  }

  /** Whatever a daemon that starts now would find is a table the daemon once held: flushes
      may overwrite or empty each other's file, but never leave two tables mixed in it. */
  lemma DiskWasTable(run: seq<System>, events: seq<Event>, k: nat)
    requires IsRun(run, events) && k < |run| && Disk(run[k]).Some?
    ensures exists j :: 0 <= j < k && IsSnapshotOf(Disk(run[k]).value, run[j].table)
  {
    hide IsSnapshotOf, IsRun;
    ReachableInv(run, events, k);
    DiskIsCaptured(run[k]);
    var j := CapturedWasTable(run, events, k, OnDisk(run[k].store).stamp);
  }

  /** A restart restores exactly the live instances of a table the daemon once held, or
      starts empty when the file is missing or was left empty. */
  lemma RestartRestores(run: seq<System>, events: seq<Event>, k: nat)
    requires IsRun(run, events) && k < |events| && events[k] == Restarts
    ensures Disk(run[k]).Some? ==>
              exists j :: 0 <= j < k && run[k + 1].table == Recovered(run[j].table, run[k].live)
    ensures Disk(run[k]).None? ==> run[k + 1].table == map[]
  {
    hide IsSnapshotOf, Reconciled, Recovered;
    assert StepAt(run, events, k);
    if Disk(run[k]).Some? {
      DiskWasTable(run, events, k);
      var j :| 0 <= j < k && IsSnapshotOf(Disk(run[k]).value, run[j].table);
      RestoreGivesLiveInstances(Disk(run[k]).value, run[j].table, run[k].live);
    }
  }

  /** Stopping one instance never takes a process away from another: what a stop or a
      replacement kills is tracked by no instance of the table. */
  lemma StopsAreIsolated(run: seq<System>, events: seq<Event>, k: nat, name: Name)
    requires IsRun(run, events) && k < |events| && (events[k].StopEnds? || events[k].StartStopsOld?)
    requires name in run[k].table
    ensures run[k + 1].table == run[k].table
    ensures forall p | p in PidsToTerminate(run[k].table[name]) && p in run[k].live :: p in run[k + 1].live
  {
    ReachableInv(run, events, k);
    assert StepAt(run, events, k);
  }
}
