/** What becomes of the servers the control daemon has started, over whole runs: none is
    lost while the daemon runs; exactly which are lost when it crashes; and that a lost
    one stays lost. */
module ServerRuns {
  import opened MachineInts
  import opened Wrappers
  import opened Registry
  import opened SnapshotStore
  import opened RegistryRuns

  // ---- no server is lost, and when one is ------------------------------------------------------

  predicate InTable(t: Table, p: u32) { exists name :: name in t && t[name].serverPid == p }

  predicate Lists(saved: Option<Snapshot>, p: u32) {
    saved.Some? && exists i :: 0 <= i < |saved.value| && saved.value[i].serverPid == p
  }

  predicate AtLock(lock: Lock, p: u32) {
    match lock
    case Free => false
    case Replacing(_, _, victim) => victim.Some? && victim.value.serverPid == p
    case Launched(_, _, pid) => pid == p
  }

  predicate BeingStopped(s: System, p: u32) {
    exists i :: 0 <= i < |s.terminating| && s.terminating[i].serverPid == p
  }

  /** Somebody answers for the server: the table, a start or a stop that is under way,
      or, while the daemon is down, the file it will be restored from. */
  predicate Held(s: System, p: u32) {
    if s.up then InTable(s.table, p) || AtLock(s.lock, p) || BeingStopped(s, p) else Lists(Disk(s), p)
  }

  predicate ServersKept(s: System) {
    forall p | p in s.servers && p in s.live :: Held(s, p)
  }

  /** Every running server is on disk. */
  predicate CrashSafe(s: System) {
    forall p | p in s.servers && p in s.live :: Lists(Disk(s), p)
  }

  lemma TableStepKeepsServer(s: System, e: Event, p: u32)
    requires Inv(s) && Enabled(s, e) && s.up && InTable(s.table, p) && p in Apply(s, e).live
    requires !e.Crashes?
    ensures Held(Apply(s, e), p)
  {
    hide Inv, HasConflict, IsSnapshotOf, LiveApps;
    var name :| name in s.table && s.table[name].serverPid == p;
    var after := Apply(s, e);
    assert s.lock.Launched? ==> s.lock.name !in s.table by { LockedNameIsFree(s); }
    if e.StopTakes? && e.name == name {
      assert after.terminating[|s.terminating|].serverPid == p;
    } else if e.StartTakes? && e.name == name {
      assert AtLock(after.lock, p);
    } else {
      assert name in after.table && after.table[name].serverPid == p;
    }
  }

  lemma LockedNameIsFree(s: System)
    requires Inv(s)
    ensures s.lock.Launched? ==> s.lock.name !in s.table
  {
  }

  lemma LockStepKeepsServer(s: System, e: Event, p: u32)
    requires Enabled(s, e) && s.up && AtLock(s.lock, p) && p in Apply(s, e).live && !e.Crashes?
    ensures Held(Apply(s, e), p)
  {
    hide Reaped, WithLiveApps, Reconciled, IsSnapshotOf;
    var after := Apply(s, e);
    if e.StartInserts? {
      assert after.table[s.lock.name].serverPid == p;
    }
  }

  lemma StopStepKeepsServer(s: System, e: Event, p: u32)
    requires Enabled(s, e) && s.up && BeingStopped(s, p) && p in Apply(s, e).live && !e.Crashes?
    ensures Held(Apply(s, e), p)
  {
    hide Reaped, WithLiveApps, Reconciled, IsSnapshotOf, InTable, AtLock;
    var after := Apply(s, e);
    var i :| 0 <= i < |s.terminating| && s.terminating[i].serverPid == p;
    if e.StopEnds? {
      var j := if i < e.which then i else i - 1;
      assert i != e.which;
      assert after.terminating[j].serverPid == p;
    } else {
      assert after.terminating[i].serverPid == p;
    }
  }

  lemma DownStepKeepsServer(s: System, e: Event, p: u32)
    requires Inv(s) && Enabled(s, e) && !s.up && Lists(Disk(s), p) && p in Apply(s, e).live
    ensures Held(Apply(s, e), p)
  {
    if e.Restarts? {
      RestartTable(s, p);
    } else {
      DownIsIdle(s, e);
    }
    hide Inv, InTable, Lists, Reconciled, Reaped;
  }

  /** After a restart a live server is in the table exactly if it was on disk. */
  lemma RestoredServer(snapshot: Snapshot, used: set<u32>, live: set<u32>, p: u32)
    requires p in live
    requires FromSound(snapshot, used)
    ensures InTable(Reconciled(snapshot, live), p) <==> Lists(Some(snapshot), p)
  {
    hide Sound, Reconciled, LiveApps;
    var t: Table :| Sound(t, used) && IsSnapshotOf(snapshot, t);
    RestoreGivesLiveInstances(snapshot, t, live);
    if InTable(Reconciled(snapshot, live), p) {
      var name :| name in Reconciled(snapshot, live) && Reconciled(snapshot, live)[name].serverPid == p;
      var i :| 0 <= i < |snapshot| && snapshot[i].name == name;
    }
    if Lists(Some(snapshot), p) {
      var i :| 0 <= i < |snapshot| && snapshot[i].serverPid == p;
      assert Recovered(t, live)[snapshot[i].name].serverPid == p;
    }
  }

  lemma StepKeepsServers(s: System, e: Event)
    requires Inv(s) && ServersKept(s) && Enabled(s, e) && (e.Crashes? ==> CrashSafe(s))
    ensures ServersKept(Apply(s, e))
  {
    var after := Apply(s, e);
    forall p | p in after.servers && p in after.live
      ensures Held(after, p)
    {
      if e.StartSpawns? && p == e.pid {
      } else {
        OldServer(s, e, p);
        hide Inv, Apply, Enabled, Held, InTable, AtLock, BeingStopped, Lists;
        HeldStep(s, e, p);
      }
    }
  }

  lemma OldServer(s: System, e: Event, p: u32)
    requires Enabled(s, e) && p in Apply(s, e).servers && p in Apply(s, e).live
    requires !(e.StartSpawns? && p == e.pid)
    requires Inv(s)
    ensures p in s.servers && p in s.live
  {
    hide Sound, LockSound, TerminatingSound, CapturedSound, Kept, Do, Can;
  }

  lemma HeldStep(s: System, e: Event, p: u32)
    requires Inv(s) && Held(s, p) && Enabled(s, e) && p in s.live && p in Apply(s, e).live
    requires e.Crashes? ==> Lists(Disk(s), p)
    ensures Held(Apply(s, e), p)
  {
    hide Inv, InTable, AtLock, BeingStopped, Lists, IsSnapshotOf, HasConflict, Reaped;
    if e.Crashes? {
    } else if !s.up {
      DownStepKeepsServer(s, e, p);
    } else if InTable(s.table, p) {
      TableStepKeepsServer(s, e, p);
    } else if AtLock(s.lock, p) {
      LockStepKeepsServer(s, e, p);
    } else {
      StopStepKeepsServer(s, e, p);
    }
  }

  /** In every run whose crashes find every running server on disk, every running
      server is held at every moment. */
  lemma {:induction false} ServersConserved(run: seq<System>, events: seq<Event>, k: nat)
    requires IsRun(run, events) && k < |run|
    requires forall i | 0 <= i < k && events[i].Crashes? :: CrashSafe(run[i])
    ensures ServersKept(run[k])
    decreases k
  {
    if k > 0 {
      hide Inv, Enabled, Apply, ServersKept, CrashSafe;
      ServersConserved(run, events, k - 1);
      ReachableInv(run, events, k - 1);
      assert StepAt(run, events, k - 1);
      StepKeepsServers(run[k - 1], events[k - 1]);
    }
  }

  // ---- what a crash falls back to -----------------------------------------------------------------

  /** `state.bin` is not empty, and the table captured by the flush whose snapshot it holds
      had the server. Which flush that is, `FlushIsOnDiskIff` says. */
  predicate Recoverable(s: System, p: u32) {
    var content := OnDisk(s.store);
    content.Holds? && content.stamp < |s.store.captured| && InTable(s.store.captured[content.stamp], p)
  }

  /** While the daemon is down nothing happens to the file. */
  lemma {:induction false} DownKeepsFile(run: seq<System>, events: seq<Event>, k: nat, later: nat)
    requires IsRun(run, events) && k < |events| && events[k].Crashes? && k < later < |run|
    requires forall m | k < m < later :: !events[m].Restarts?
    ensures !run[later].up && run[later].store == run[k].store.(flushing := [])
    ensures run[later].servers == run[k].servers && run[later].live <= run[k].live
    decreases later
  {
    hide Inv;
    assert StepAt(run, events, later - 1);
    if later > k + 1 {
      DownKeepsFile(run, events, k, later - 1);
      ReachableInv(run, events, later - 1);
      DownIsIdle(run[later - 1], events[later - 1]);
    }
  }

  lemma DownIsIdle(s: System, e: Event)
    requires Inv(s) && !s.up && Enabled(s, e)
    ensures e.Exits? || e.Restarts?
  {
    DownHasNoFlush(s, e);
    hide Sound, Kept, LockSound, CapturedSound;
  }

  lemma SnapshotHolds(snapshot: Snapshot, t: Table, p: u32)
    requires IsSnapshotOf(snapshot, t)
    ensures Lists(Some(snapshot), p) <==> InTable(t, p)
  {
    if InTable(t, p) {
      var name :| name in t && t[name].serverPid == p;
      var i :| 0 <= i < |snapshot| && snapshot[i].name == name;
    }
  }

  lemma ListedIsRecoverable(s: System, p: u32)
    requires Kept(s.store)
    ensures Lists(Disk(s), p) <==> Recoverable(s, p)
  {
    hide IsSnapshotOf, InTable, Kept;
    if Disk(s).Some? {
      DiskIsCaptured(s);
      SnapshotHolds(Disk(s).value, s.store.captured[OnDisk(s.store).stamp], p);
    }
  }

  /** A crash and the restart that follows it, with any exits between: a server that still
      runs is in the restored table if and only if the snapshot `state.bin` held at the
      crash is of a table that had it. How fresh the daemon's own table was makes no
      difference; flushes that overlap matter only through what they left in the file. */
  lemma CrashKeepsExactly(run: seq<System>, events: seq<Event>, k: nat, r: nat, p: u32)
    requires IsRun(run, events) && k < r < |events| && events[k].Crashes? && events[r].Restarts?
    requires forall m | k < m < r :: !events[m].Restarts?
    requires p in run[r].live
    ensures InTable(run[r + 1].table, p) <==> Recoverable(run[k], p)
  {
    hide InTable, Lists, Inv, Kept;
    DownKeepsFile(run, events, k, r);
    ReachableInv(run, events, r);
    ListedIsRecoverable(run[r], p) by {
      StoreKept(run[r]);
    }
    assert StepAt(run, events, r);
    RestartTable(run[r], p);
  }

  lemma StoreKept(s: System)
    requires Inv(s)
    ensures Kept(s.store)
  {
  }

  lemma RestartTable(s: System, p: u32)
    requires Inv(s) && !s.up && p in s.live
    ensures InTable(Apply(s, Restarts).table, p) <==> Lists(Disk(s), p)
    ensures Held(Apply(s, Restarts), p) <==> InTable(Apply(s, Restarts).table, p)
  {
    hide Sound, Kept, Reconciled;
    if Disk(s).Some? {
      DiskIsSound(s);
      RestoredServer(Disk(s).value, s.used, s.live, p);
    }
  }

  /** So the daemon comes back answering for every running server if and only if every one
      of them was recoverable at the crash. */
  lemma CrashLosesNothingIff(run: seq<System>, events: seq<Event>, k: nat, r: nat)
    requires IsRun(run, events) && k < r < |events| && events[k].Crashes? && events[r].Restarts?
    requires forall m | k < m < r :: !events[m].Restarts?
    ensures ServersKept(run[r + 1])
            <==> forall p | p in run[k].servers && p in run[r].live :: Recoverable(run[k], p)
  {
    hide InTable, Lists, Inv, Recoverable, Held;
    DownKeepsFile(run, events, k, r);
    assert StepAt(run, events, r);
    ReachableInv(run, events, r);
    forall p | p in run[r].live
      ensures Held(run[r + 1], p) <==> Recoverable(run[k], p)
    {
      CrashKeepsExactly(run, events, k, r, p);
      RestartTable(run[r], p);
    }
  }

  // ---- which flush that is ---------------------------------------------------------------------------

  function Stores(run: seq<System>): seq<Store> { seq(|run|, i requires 0 <= i < |run| => run[i].store) }

  function Moves(run: seq<System>, events: seq<Event>): seq<Move>
    requires |events| <= |run|
  {
    seq(|events|, i requires 0 <= i < |events| => MoveOf(run[i], events[i]))
  }

  lemma StoreMoves(s: System, e: Event)
    requires Enabled(s, e)
    ensures Can(s.store, MoveOf(s, e)) && Apply(s, e).store == Do(s.store, MoveOf(s, e))
  {
    hide IsSnapshotOf, Reaped, WithLiveApps, WithApp, Reconciled;
  }

  /** The file's own history, read off a run of the daemon. */
  lemma StoreRuns(run: seq<System>, events: seq<Event>)
    requires IsRun(run, events)
    ensures IsStoreRun(Stores(run), Moves(run, events)) && Undisturbed(Stores(run)[0])
  {
    var (stores, moves) := (Stores(run), Moves(run, events));
    hide Enabled, Apply, Can, Do, MoveOf;
    forall k | 0 <= k < |moves|
      ensures MoveAt(stores, moves, k)
    {
      assert StepAt(run, events, k);
      StoreMoves(run[k], events[k]);
    }
  }

  /** The restored table is the captured one, as far as running servers go. */
  predicate RestoresTable(before: System, after: System, t: Table) {
    forall p | p in before.live :: InTable(after.table, p) <==> InTable(t, p)
  }

  /** Overlap and all: what a flush wrote is what a crash falls back to if and only if
      `state.bin` is by then the file it wrote into and no other flush has opened or
      written that file since; and then the restart restores the table it captured. */
  lemma FlushSavesIff(run: seq<System>, events: seq<Event>, w: nat, k: nat, r: nat)
    requires IsRun(run, events) && w < k < r < |events|
    requires events[w].WritesFile? && events[k].Crashes? && events[r].Restarts?
    requires forall m | k < m < r :: !events[m].Restarts?
    ensures events[w].which < |run[w].store.flushing| && run[w].store.flushing[events[w].which].phase.Opened?
    ensures var f := run[w].store.flushing[events[w].which]; var x := f.phase.inode;
            && (OnDisk(run[k].store) == Holds(f.snapshot, f.stamp)
                <==> run[k].store.disk == Some(x) && Untouched(Stores(run), Moves(run, events), x, w + 1, k))
            && (OnDisk(run[k].store) == Holds(f.snapshot, f.stamp) ==>
                  && f.stamp < |run[k].store.captured|
                  && RestoresTable(run[r], run[r + 1], run[k].store.captured[f.stamp]))
  {
    hide Untouched, IsStoreRun, InTable;
    StoreRuns(run, events);
    FlushIsOnDiskIff(Stores(run), Moves(run, events), w, k);
    ReachableInv(run, events, k);
    var f := run[w].store.flushing[events[w].which];
    if OnDisk(run[k].store) == Holds(f.snapshot, f.stamp) {
      CrashRestores(run, events, k, r);
    }
  }

  lemma CrashRestores(run: seq<System>, events: seq<Event>, k: nat, r: nat)
    requires IsRun(run, events) && k < r < |events| && events[k].Crashes? && events[r].Restarts?
    requires forall m | k < m < r :: !events[m].Restarts?
    requires OnDisk(run[k].store).Holds?
    ensures OnDisk(run[k].store).stamp < |run[k].store.captured|
    ensures RestoresTable(run[r], run[r + 1], run[k].store.captured[OnDisk(run[k].store).stamp])
  {
    hide InTable, Inv, OnDisk;
    ReachableInv(run, events, k);
    StoreKept(run[k]);
    DiskIsCaptured(run[k]);
    forall p | p in run[r].live
      ensures InTable(run[r + 1].table, p)
              <==> InTable(run[k].store.captured[OnDisk(run[k].store).stamp], p)
    {
      CrashKeepsExactly(run, events, k, r, p);
    }
  }

  /** When flushes do not overlap, the crash falls back to the last one renamed, however
      stale: no flush opens the temporary file between another's opening and its end. */
  lemma SerialCrashFallsBack(run: seq<System>, events: seq<Event>, m: nat, k: nat, r: nat)
    requires IsRun(run, events) && m < k < r < |events|
    requires events[m].RenamesFile? && events[k].Crashes? && events[r].Restarts?
    requires forall j | 0 <= j <= k :: Serial(run[j].store)
    requires forall j | m < j < k :: !events[j].RenamesFile?
    requires forall j | k < j < r :: !events[j].Restarts?
    ensures events[m].which < |run[m].store.flushing|
    ensures var f := run[m].store.flushing[events[m].which];
            f.stamp < |run[k].store.captured| && RestoresTable(run[r], run[r + 1], run[k].store.captured[f.stamp])
  {
    hide Serial, OnDisk, RestoresTable, Undisturbed;
    StoreRuns(run, events);
    hide IsRun, IsStoreRun;
    SerialFlushesPublish(Stores(run), Moves(run, events), m);
    SerialFileStays(run, events, m, k);
    CrashRestores(run, events, k, r);
  }

  lemma {:induction false} SerialFileStays(run: seq<System>, events: seq<Event>, m: nat, k: nat)
    requires |run| == |events| + 1 && IsStoreRun(Stores(run), Moves(run, events)) && Undisturbed(Stores(run)[0])
    requires m < k < |events| && forall j | 0 <= j <= k :: Serial(run[j].store)
    requires forall j | m < j < k :: !events[j].RenamesFile?
    ensures OnDisk(run[k].store) == OnDisk(run[m + 1].store)
    decreases k
  {
    hide Serial, OnDisk, Undisturbed, IsStoreRun;
    if k > m + 1 {
      SerialFileStays(run, events, m, k - 1);
      SerialFlushesPublish(Stores(run), Moves(run, events), k - 1);
    }
  }

  /** Every running server is on disk whenever no start is under way, no stop still has
      a running server to kill, and the last snapshot published is that of the present
      table. */
  lemma SettledCrashIsSafe(s: System)
    requires s.up && ServersKept(s) && s.lock.Free?
    requires forall i | 0 <= i < |s.terminating| :: s.terminating[i].serverPid !in s.live
    requires Disk(s).Some? && IsSnapshotOf(Disk(s).value, s.table)
    ensures CrashSafe(s)
  {
    forall p | p in s.servers && p in s.live
      ensures Lists(Disk(s), p)
    {
      assert Held(s, p) && !BeingStopped(s, p);
      var name :| name in s.table && s.table[name].serverPid == p;
      var i :| 0 <= i < |Disk(s).value| && Disk(s).value[i].name == name;
      assert Disk(s).value[i] == Snapped(name, s.table[name]);
    }
  }

  // ---- a lost server stays lost ------------------------------------------------------------------

  predicate ListsServer(snapshot: Snapshot, p: u32) {
    exists i :: 0 <= i < |snapshot| && snapshot[i].serverPid == p
  }

  predicate ContentLists(c: Content, p: u32) { c.Holds? && ListsServer(c.snapshot, p) }

  /** No file that can still be published, and no snapshot on its way, lists the process. A
      temporary file left over from before a crash may; the next flush empties it. */
  predicate StoreForgets(s: Store, p: u32) {
    && !ContentLists(OnDisk(s), p)
    && (forall i | 0 <= i < |s.flushing| :: !ListsServer(s.flushing[i].snapshot, p))
    && (forall i | 0 <= i < |s.flushing| && !s.flushing[i].phase.Taken? ::
          s.tmp.Some? && s.tmp.value < |s.files| ==> !ContentLists(s.files[s.tmp.value], p))
  }

  lemma StoreStaysForgetful(s: Store, m: Move, p: u32)
    requires StoreForgets(s, p) && Can(s, m) && Names(s) && (m.Takes? ==> !ListsServer(m.snapshot, p))
    ensures StoreForgets(Do(s, m), p)
  {
    hide ListsServer, IsSnapshotOf;
  }

  /** Nothing the daemon has, in memory or on disk, leads to the process. */
  predicate Forgotten(s: System, p: u32) {
    && p in s.used
    && !InTable(s.table, p) && !AtLock(s.lock, p) && !BeingStopped(s, p) && StoreForgets(s.store, p)
  }

  lemma ForgottenStep(s: System, e: Event, p: u32)
    requires Enabled(s, e) && Forgotten(s, p) && Inv(s)
    ensures Forgotten(Apply(s, e), p)
  {
    ForgottenTable(s, e, p);
    ForgottenElsewhere(s, e, p);
    StoreKept(s);
    ForgottenSnapshots(s, e, p);
    hide Inv, Apply, Enabled, InTable, AtLock, BeingStopped, StoreForgets;
  }

  lemma ForgottenTable(s: System, e: Event, p: u32)
    requires Enabled(s, e) && Forgotten(s, p) && Inv(s)
    ensures p in Apply(s, e).used && !InTable(Apply(s, e).table, p)
  {
    hide Sound, Kept, Do, Can, IsSnapshotOf, HasConflict, LiveApps, Reconciled, LockSound, TerminatingSound;
    if e.Restarts? && Disk(s).Some? {
      DeadOrAbsent(Disk(s).value, s.live, p);
    }
  }

  lemma DeadOrAbsent(snapshot: Snapshot, live: set<u32>, p: u32)
    requires !ListsServer(snapshot, p)
    ensures !InTable(Reconciled(snapshot, live), p)
  {
    ReconciledEntries(snapshot, live);
  }

  lemma ForgottenElsewhere(s: System, e: Event, p: u32)
    requires Enabled(s, e) && Forgotten(s, p)
    ensures !AtLock(Apply(s, e).lock, p) && !BeingStopped(Apply(s, e), p)
  {
    hide WithLiveApps, WithApp, Reconciled, IsSnapshotOf, StoreForgets, HasConflict, PidsToTerminate, Do, Can;
  }

  lemma ForgottenSnapshots(s: System, e: Event, p: u32)
    requires Enabled(s, e) && Forgotten(s, p) && Kept(s.store)
    ensures StoreForgets(Apply(s, e).store, p)
  {
    hide AtLock, BeingStopped, StoreForgets, IsSnapshotOf, Do, Reaped, WithApp, Reconciled, WithLiveApps;
    if ConcernsFile(e) {
      if e.TakesSnapshot? {
        SnapshotOmits(e.snapshot, s.table, p);
      }
      StoreStaysForgetful(s.store, MoveOf(s, e), p);
    }
  }

  lemma SnapshotOmits(snapshot: Snapshot, t: Table, p: u32)
    requires IsSnapshotOf(snapshot, t) && !InTable(t, p)
    ensures !ListsServer(snapshot, p)
  {
  }

  /** A server that was not on disk when the daemon crashed is out of reach for good:
      no later table, stop, start or snapshot ever mentions it again. */
  lemma {:induction false} LostForever(run: seq<System>, events: seq<Event>, k: nat, later: nat, p: u32)
    requires IsRun(run, events) && k < |events| && events[k].Crashes? && k < later < |run|
    requires p in run[k].servers && !Lists(Disk(run[k]), p)
    ensures Forgotten(run[later], p) && (run[later].up ==> !Held(run[later], p))
    decreases later
  {
    hide Inv, InTable, Lists, BeingStopped, StoreForgets, Kept;
    ReachableInv(run, events, later - 1);
    assert StepAt(run, events, later - 1);
    if later == k + 1 {
      NothingInMemory(run[later], p);
      KnownServer(run[k], p);
      NothingOnDisk(run[k], p);
    } else {
      hide Apply, Enabled;
      LostForever(run, events, k, later - 1, p);
      ForgottenStep(run[later - 1], events[later - 1], p);
    }
    hide IsRun;
    if run[later].up {
      ForgottenIsNotHeld(run[later], p);
    }
  }

  lemma ForgottenIsNotHeld(s: System, p: u32)
    requires Forgotten(s, p) && s.up
    ensures !Held(s, p)
  {
  }

  lemma NothingOnDisk(s: System, p: u32)
    requires !Lists(Disk(s), p)
    ensures StoreForgets(Do(s.store, Dies), p)
  {
  }

  lemma NothingInMemory(s: System, p: u32)
    ensures s.table == map[] ==> !InTable(s.table, p)
    ensures s.terminating == [] ==> !BeingStopped(s, p)
  {
  }

  lemma KnownServer(s: System, p: u32)
    requires Inv(s) && p in s.servers
    ensures p in s.used
  {
  }
}
