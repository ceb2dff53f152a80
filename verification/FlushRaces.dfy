/** Three runs in which a server is lost although nothing exits and nothing is stopped:
    the older of two flushes is published last; the newer is published last, but the
    older has overwritten its file; and a crash finds the file just emptied. */
module FlushRaces {
  import opened MachineInts
  import opened Wrappers
  import opened Registry
  import opened SnapshotStore
  import opened RegistryRuns
  import opened ServerRuns

  ghost predicate Reaches(events: seq<Event>, s: System) {
    exists run: seq<System> :: IsRun(run, events) && run[|events|] == s
  }

  lemma Extends(events: seq<Event>, s: System, e: Event)
    requires Reaches(events, s) && Enabled(s, e)
    ensures Reaches(events + [e], Apply(s, e))
  {
    hide Enabled, Apply;
    var run: seq<System> :| IsRun(run, events) && run[|events|] == s;
    var longer := run + [Apply(s, e)];
    forall i | 0 <= i < |events + [e]|
      ensures StepAt(longer, events + [e], i)
    {
      assert i < |events| ==> StepAt(run, events, i);
    }
    assert IsRun(longer, events + [e]);
  }

  lemma {:induction false} Runs(before: seq<Event>, s: System, events: seq<Event>)
    requires Reaches(before, s) && Execute(s, events).Some?
    ensures Reaches(before + events, Execute(s, events).value)
    decreases |events|
  {
    hide Reaches, Enabled, Apply;
    if events == [] {
      assert before + events == before;
    } else {
      Extends(before, s, events[0]);
      Runs(before + [events[0]], Apply(s, events[0]), events[1..]);
      assert before + [events[0]] + events[1..] == before + events;
    }
  }

  // ---- two servers, two flushes -----------------------------------------------------------

  const ONE: Name := [0x61]
  const TWO: Name := [0x62]
  const FIRST: Instance := Instance(5710, 10, true, [])
  const SECOND: Instance := Instance(5711, 11, true, [])
  const TABLE1: Table := map[ONE := FIRST]
  const TABLE2: Table := map[ONE := FIRST, TWO := SECOND]
  const OLDER: Snapshot := [Snapped(ONE, FIRST)]
  const NEWER: Snapshot := [Snapped(ONE, FIRST), Snapped(TWO, SECOND)]

  function StartOf(name: Name, port: u16, pid: u32): seq<Event> {
    [StartTakes(name, port)] + [StartSpawns(pid), StartInserts]
  }

  function Started(s: System, name: Name, port: u16, pid: u32): System {
    s.(table := s.table[name := Instance(port, pid, true, [])],
       live := s.live + {pid}, used := s.used + {pid}, servers := s.servers + {pid})
  }

  /** An undisturbed start of a new instance on a free port. */
  lemma StartSucceeds(events: seq<Event>, s: System, name: Name, port: u16, pid: u32)
    requires Reaches(events, s) && s.up && s.lock.Free? && pid !in s.used
    requires name !in s.table && !HasConflict(s.table, name, port)
    requires forall n | n in s.table :: s.table[n].serverPid in s.live
    ensures Reaches(events + StartOf(name, port, pid), Started(s, name, port, pid))
  {
    assert Reaped(s.table, s.live) == s.table;
    StartAlone(s, name, port, pid);
    assert s.live - {} == s.live;
    hide Reaches, Execute, HasConflict;
    Runs(events, s, StartOf(name, port, pid));
  }

  lemma TakeSucceeds(events: seq<Event>, s: System, snapshot: Snapshot)
    requires Reaches(events, s) && s.up && s.lock.Free? && IsSnapshotOf(snapshot, s.table)
    ensures Reaches(events + [TakesSnapshot(snapshot)],
                    s.(store := s.store.(flushing := s.store.flushing + [Flush(snapshot, |s.store.captured|, Taken)],
                                         captured := s.store.captured + [s.table])))
  {
    hide Reaches, IsSnapshotOf;
    Extends(events, s, TakesSnapshot(snapshot));
  }

  function BothTaken(): Store {
    Store([], None, None, [Flush(OLDER, 0, Taken), Flush(NEWER, 1, Taken)], [TABLE1, TABLE2])
  }

  function Ready(store: Store): System { System(true, TABLE2, Free, [], store, {10, 11}, {10, 11}, {10, 11}) }

  function Beginning(): seq<Event> {
    StartOf(ONE, 5710, 10) + [TakesSnapshot(OLDER)] + StartOf(TWO, 5711, 11) + [TakesSnapshot(NEWER)]
  }

  /** Both servers run, and of both tables a snapshot has been taken. */
  lemma ReadyToFlush()
    ensures Reaches(Beginning(), Ready(BothTaken()))
  {
    assert IsRun([BOOT], []);
    assert Reaches([], BOOT);
    hide Reaches, StartOf;
    StartSucceeds([], BOOT, ONE, 5710, 10);
    var s1 := System(true, TABLE1, Free, [], NOTHING, {10}, {10}, {10});
    assert Started(BOOT, ONE, 5710, 10) == s1;
    assert [] + StartOf(ONE, 5710, 10) == StartOf(ONE, 5710, 10);
    assert OLDER[0].name == ONE;
    TakeSucceeds(StartOf(ONE, 5710, 10), s1, OLDER);
    var s2 := s1.(store := Store([], None, None, [Flush(OLDER, 0, Taken)], [TABLE1]));
    assert [] + [Flush(OLDER, 0, Taken)] == [Flush(OLDER, 0, Taken)] && [] + [TABLE1] == [TABLE1];
    var soFar := StartOf(ONE, 5710, 10) + [TakesSnapshot(OLDER)];
    StartSucceeds(soFar, s2, TWO, 5711, 11);
    SecondTaken(soFar + StartOf(TWO, 5711, 11));
  }

  lemma SecondTaken(events: seq<Event>)
    requires Reaches(events, Started(System(true, TABLE1, Free, [],
                                            Store([], None, None, [Flush(OLDER, 0, Taken)], [TABLE1]),
                                            {10}, {10}, {10}), TWO, 5711, 11))
    ensures Reaches(events + [TakesSnapshot(NEWER)], Ready(BothTaken()))
  {
    hide Reaches;
    var store := Store([], None, None, [Flush(OLDER, 0, Taken)], [TABLE1]);
    assert TABLE1[TWO := SECOND] == TABLE2 && {10} + {11} == {10, 11};
    assert NEWER[0].name == ONE && NEWER[1].name == TWO;
    TakeSucceeds(events, Ready(store), NEWER);
    assert store.flushing + [Flush(NEWER, 1, Taken)] == BothTaken().flushing;
    assert store.captured + [TABLE2] == BothTaken().captured;
  }

  // ---- what happens to the file ---------------------------------------------------------------

  /** One step of a flush, from one known state of the file to another. */
  lemma FileStep(events: seq<Event>, store: Store, e: Event, after: Store)
    requires Reaches(events, Ready(store))
    requires e.OpensFile? || e.WritesFile? || e.RenamesFile?
    requires Can(store, MoveOf(Ready(store), e)) && Do(store, MoveOf(Ready(store), e)) == after
    ensures Reaches(events + [e], Ready(after))
  {
    hide Reaches, Can, Do;
    Extends(events, Ready(store), e);
  }

  const OLD0: Content := Holds(OLDER, 0)
  const NEW1: Content := Holds(NEWER, 1)

  function InTmp(files: seq<Content>, tmp: Option<nat>, disk: Option<nat>, older: Phase, newer: Phase): Store {
    Store(files, tmp, disk, [Flush(OLDER, 0, older), Flush(NEWER, 1, newer)], [TABLE1, TABLE2])
  }

  function OlderLeft(files: seq<Content>, tmp: Option<nat>, disk: Option<nat>, older: Phase): Store {
    Store(files, tmp, disk, [Flush(OLDER, 0, older)], [TABLE1, TABLE2])
  }

  function NoneLeft(files: seq<Content>, disk: Option<nat>): Store { Store(files, None, disk, [], [TABLE1, TABLE2]) }

  /** The newer flush opens the file and writes it. */
  lemma NewerWritten(events: seq<Event>)
    requires Reaches(events, Ready(BothTaken()))
    ensures Reaches(events + [OpensFile(1)] + [WritesFile(1)], Ready(InTmp([NEW1], Some(0), None, Taken, Written(0))))
  {
    hide Reaches;
    assert BothTaken().flushing[1 := Flush(NEWER, 1, Opened(0))]
        == [Flush(OLDER, 0, Taken), Flush(NEWER, 1, Opened(0))];
    assert [] + [Empty] == [Empty];
    FileStep(events, BothTaken(), OpensFile(1), InTmp([Empty], Some(0), None, Taken, Opened(0)));
    FileStep(events + [OpensFile(1)], InTmp([Empty], Some(0), None, Taken, Opened(0)), WritesFile(1),
             InTmp([NEW1], Some(0), None, Taken, Written(0)));
  }

  function StaleRun(): seq<Event> {
    Beginning() + [OpensFile(1)] + [WritesFile(1)] + [RenamesFile(1)]
    + [OpensFile(0)] + [WritesFile(0)] + [RenamesFile(0)]
  }

  /** One flush after the other, the older one last. */
  lemma StaleFile()
    ensures Reaches(StaleRun(), Ready(NoneLeft([NEW1, OLD0], Some(1))))
  {
    hide Reaches, Beginning;
    var start := Beginning();
    ReadyToFlush();
    NewerWritten(start);
    var e2 := start + [OpensFile(1)] + [WritesFile(1)];
    FileStep(e2, InTmp([NEW1], Some(0), None, Taken, Written(0)), RenamesFile(1),
             OlderLeft([NEW1], None, Some(0), Taken));
    FileStep(e2 + [RenamesFile(1)], OlderLeft([NEW1], None, Some(0), Taken), OpensFile(0),
             OlderLeft([NEW1, Empty], Some(1), Some(0), Opened(1)));
    FileStep(e2 + [RenamesFile(1)] + [OpensFile(0)], OlderLeft([NEW1, Empty], Some(1), Some(0), Opened(1)),
             WritesFile(0), OlderLeft([NEW1, OLD0], Some(1), Some(0), Written(1)));
    FileStep(e2 + [RenamesFile(1)] + [OpensFile(0)] + [WritesFile(0)],
             OlderLeft([NEW1, OLD0], Some(1), Some(0), Written(1)),
             RenamesFile(0), NoneLeft([NEW1, OLD0], Some(1)));
  }

  function EmptiedRun(): seq<Event> {
    Beginning() + [OpensFile(1)] + [WritesFile(1)] + [OpensFile(0)] + [RenamesFile(1)]
  }

  /** The older flush opens, and so empties, the file the newer one has written; the newer
      one renames it all the same. */
  lemma EmptiedFile()
    ensures Reaches(EmptiedRun(), Ready(OlderLeft([Empty], None, Some(0), Opened(0))))
  {
    hide Reaches, Beginning;
    var start := Beginning();
    ReadyToFlush();
    NewerWritten(start);
    var e2 := start + [OpensFile(1)] + [WritesFile(1)];
    FileStep(e2, InTmp([NEW1], Some(0), None, Taken, Written(0)), OpensFile(0),
             InTmp([Empty], Some(0), None, Opened(0), Written(0)));
    FileStep(e2 + [OpensFile(0)], InTmp([Empty], Some(0), None, Opened(0), Written(0)), RenamesFile(1),
             OlderLeft([Empty], None, Some(0), Opened(0)));
  }

  function OverwrittenRun(): seq<Event> { EmptiedRun() + [WritesFile(0)] + [RenamesFile(0)] }

  /** And then writes into it under its new name; its own rename fails. */
  lemma OverwrittenFile()
    ensures Reaches(OverwrittenRun(), Ready(NoneLeft([OLD0], Some(0))))
  {
    hide Reaches, EmptiedRun;
    EmptiedFile();
    FileStep(EmptiedRun(), OlderLeft([Empty], None, Some(0), Opened(0)), WritesFile(0),
             OlderLeft([OLD0], None, Some(0), Written(0)));
    FileStep(EmptiedRun() + [WritesFile(0)], OlderLeft([OLD0], None, Some(0), Written(0)), RenamesFile(0),
             NoneLeft([OLD0], Some(0)));
  }

  // ---- and then the daemon crashes ----------------------------------------------------------------

  /** The daemon is down and the running server is out of reach for good. */
  predicate Lost(s: System, p: u32) { !s.up && p in s.servers && p in s.live && !Held(s, p) }

  lemma CrashLoses(events: seq<Event>, store: Store, p: u32)
    requires Reaches(events, Ready(store)) && p in {10, 11}
    requires match OnDisk(store) case Empty => true case Holds(snapshot, _) => !ListsServer(snapshot, p)
    ensures exists s :: Reaches(events + [Crashes], s) && Lost(s, p)
  {
    hide Reaches;
    Extends(events, Ready(store), Crashes);
    var s := Apply(Ready(store), Crashes);
    assert Disk(s) == Disk(Ready(store));
    assert Lost(s, p);
  }

  /** Flushes that do not overlap at all: the older snapshot is renamed last, and a crash
      then loses the second server. */
  lemma StaleFlushLosesServer()
    ensures exists s :: Reaches(StaleRun() + [Crashes], s) && Lost(s, 11)
  {
    hide Reaches, StaleRun;
    StaleFile();
    CrashLoses(StaleRun(), NoneLeft([NEW1, OLD0], Some(1)), 11);
  }

  /** Flushes that overlap: the only rename that succeeds is that of the newer snapshot,
      yet a crash loses the second server. */
  lemma OverlapLosesServer()
    ensures exists s :: Reaches(OverwrittenRun() + [Crashes], s) && Lost(s, 11)
  {
    hide Reaches, OverwrittenRun;
    OverwrittenFile();
    CrashLoses(OverwrittenRun(), NoneLeft([OLD0], Some(0)), 11);
  }

  /** A crash between the other flush's opening and its writing loses both. */
  lemma EmptiedFileLosesAll()
    ensures exists s :: Reaches(EmptiedRun() + [Crashes], s) && Lost(s, 10) && Lost(s, 11)
  {
    hide Reaches, EmptiedRun;
    EmptiedFile();
    var ready := Ready(OlderLeft([Empty], None, Some(0), Opened(0)));
    Extends(EmptiedRun(), ready, Crashes);
    var s := Apply(ready, Crashes);
    assert Disk(s) == None;
    assert Lost(s, 10) && Lost(s, 11);
  }
}
