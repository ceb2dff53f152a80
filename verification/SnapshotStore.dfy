/** The file the daemon saves its table in, and the flushes that write it. A flush takes
    a snapshot under the table's lock; after that nothing keeps it apart from another: it
    opens the temporary file, which every flush gives the same name, emptying it if it is
    there; writes; and renames it over `state.bin`. A flush that has a file open goes on
    writing into it under whatever name it has by then. Each of these is one step. A
    shorter snapshot written over a longer one leaves the end of that behind it, which
    changes nothing for a reader (`SnapshotFile.OverwriteRoundTrip`). */
module SnapshotStore {
  import opened Wrappers
  import opened Registry

  /** What a file holds: the last snapshot written since it was emptied, and which of
      the snapshots ever taken that was. */
  datatype Content = Empty | Holds(snapshot: Snapshot, stamp: nat)

  datatype Phase = Taken | Opened(inode: nat) | Written(inode: nat)

  datatype Flush = Flush(snapshot: Snapshot, stamp: nat, phase: Phase)

  datatype Store = Store(
    files: seq<Content>,     // by inode
    tmp: Option<nat>,        // the inode the temporary name stands for
    disk: Option<nat>,       // the inode `state.bin` stands for
    flushing: seq<Flush>,    // taken, not yet renamed or given up
    captured: seq<Table>)    // the tables of all snapshots ever taken, by stamp

  const NOTHING: Store := Store([], None, None, [], [])

  datatype Move =
    | Takes(snapshot: Snapshot, table: Table)
    | Opens(which: nat)
    | Writes(which: nat)
    | Renames(which: nat)
    | GivesUp(which: nat)
    | Dies
    | Idle

  function Without<T>(xs: seq<T>, i: nat): seq<T>
    requires i < |xs|
  {
    xs[..i] + xs[i + 1..]
  }

  predicate Can(s: Store, m: Move) {
    match m
    case Takes(snapshot, table) => IsSnapshotOf(snapshot, table)
    case Opens(i) => i < |s.flushing| && s.flushing[i].phase.Taken? && (s.tmp.Some? ==> s.tmp.value < |s.files|)
    case Writes(i) => i < |s.flushing| && s.flushing[i].phase.Opened? && s.flushing[i].phase.inode < |s.files|
    case Renames(i) => i < |s.flushing| && s.flushing[i].phase.Written?
    case GivesUp(i) => i < |s.flushing|
    case Dies => true
    case Idle => true
  }

  /** A rename fails when another flush has taken the temporary name away; the failure is
      ignored like every other. */
  function Do(s: Store, m: Move): Store
    requires Can(s, m)
  {
    match m
    case Takes(snapshot, table) =>
      s.(flushing := s.flushing + [Flush(snapshot, |s.captured|, Taken)], captured := s.captured + [table])
    case Opens(i) =>
      if s.tmp.Some? then
        s.(files := s.files[s.tmp.value := Empty],
           flushing := s.flushing[i := s.flushing[i].(phase := Opened(s.tmp.value))])
      else
        s.(files := s.files + [Empty], tmp := Some(|s.files|),
           flushing := s.flushing[i := s.flushing[i].(phase := Opened(|s.files|))])
    case Writes(i) =>
      var f := s.flushing[i];
      s.(files := s.files[f.phase.inode := Holds(f.snapshot, f.stamp)],
         flushing := s.flushing[i := f.(phase := Written(f.phase.inode))])
    case Renames(i) =>
      if s.tmp.Some? then s.(disk := s.tmp, tmp := None, flushing := Without(s.flushing, i))
      else s.(flushing := Without(s.flushing, i))
    case GivesUp(i) => s.(flushing := Without(s.flushing, i))
    case Dies => s.(flushing := [])
    case Idle => s
  }

  /** What a daemon that starts now would read. A missing file and an empty one are both
      no state at all. */
  function OnDisk(s: Store): Content {
    if s.disk.Some? && s.disk.value < |s.files| then s.files[s.disk.value] else Empty
  }

  // ---- the invariant ------------------------------------------------------------------

  predicate Known(s: Store, snapshot: Snapshot, stamp: nat) {
    stamp < |s.captured| && IsSnapshotOf(snapshot, s.captured[stamp])
  }

  predicate Names(s: Store) {
    && (s.tmp.Some? ==> s.tmp.value < |s.files|) && (s.disk.Some? ==> s.disk.value < |s.files|)
    && (s.tmp.Some? ==> s.tmp != s.disk)
  }

  predicate Contents(s: Store) {
    && (forall x | 0 <= x < |s.files| && s.files[x].Holds? :: Known(s, s.files[x].snapshot, s.files[x].stamp))
    && (forall i | 0 <= i < |s.flushing| :: Known(s, s.flushing[i].snapshot, s.flushing[i].stamp))
  }

  predicate InodeValid(s: Store, phase: Phase) {
    match phase
    case Taken => true
    case Opened(inode) => inode < |s.files|
    case Written(inode) => inode < |s.files|
  }

  predicate Phases(s: Store) { forall i | 0 <= i < |s.flushing| :: InodeValid(s, s.flushing[i].phase) }

  predicate Stamps(s: Store) {
    forall i, j | 0 <= i < j < |s.flushing| :: s.flushing[i].stamp != s.flushing[j].stamp
  }

  /** What has not been written yet is in no file. */
  predicate Unwritten(s: Store) {
    forall i, x | 0 <= i < |s.flushing| && !s.flushing[i].phase.Written? && 0 <= x < |s.files| && s.files[x].Holds? ::
      s.files[x].stamp != s.flushing[i].stamp
  }

  predicate Kept(s: Store) { Names(s) && Contents(s) && Phases(s) && Stamps(s) && Unwritten(s) }

  lemma NamesKept(s: Store, m: Move)
    requires Names(s) && Can(s, m)
    ensures Names(Do(s, m))
  {
    hide IsSnapshotOf;
  }

  lemma ContentsKept(s: Store, m: Move)
    requires Contents(s) && Can(s, m)
    ensures Contents(Do(s, m))
  {
    hide IsSnapshotOf;
  }

  lemma PhasesKept(s: Store, m: Move)
    requires Phases(s) && Can(s, m)
    ensures Phases(Do(s, m))
  {
    hide IsSnapshotOf;
  }

  lemma StampsKept(s: Store, m: Move)
    requires Contents(s) && Stamps(s) && Can(s, m)
    ensures Stamps(Do(s, m))
  {
    hide IsSnapshotOf;
  }

  lemma UnwrittenKept(s: Store, m: Move)
    requires Kept(s) && Can(s, m)
    ensures Unwritten(Do(s, m))
  {
    hide IsSnapshotOf;
  }

  lemma StepKept(s: Store, m: Move)
    requires Kept(s) && Can(s, m)
    ensures Kept(Do(s, m))
  {
    NamesKept(s, m);
    ContentsKept(s, m);
    PhasesKept(s, m);
    StampsKept(s, m);
    UnwrittenKept(s, m);
    hide Can, Do, Names, Contents, Phases, Stamps, Unwritten;
  }

  // ---- runs -----------------------------------------------------------------------------

  predicate MoveAt(run: seq<Store>, moves: seq<Move>, k: nat)
    requires k < |moves| && |run| == |moves| + 1
  {
    Can(run[k], moves[k]) && run[k + 1] == Do(run[k], moves[k])
  }

  predicate IsStoreRun(run: seq<Store>, moves: seq<Move>) {
    && |run| == |moves| + 1 && Kept(run[0])
    && forall k | 0 <= k < |moves| :: MoveAt(run, moves, k)
  }

  lemma {:induction false} RunKept(run: seq<Store>, moves: seq<Move>, k: nat)
    requires IsStoreRun(run, moves) && k < |run|
    ensures Kept(run[k])
    decreases k
  {
    if k > 0 {
      hide Kept, Can, Do;
      RunKept(run, moves, k - 1);
      assert MoveAt(run, moves, k - 1);
      StepKept(run[k - 1], moves[k - 1]);
    }
  }

  // ---- exactly when a write survives ---------------------------------------------------------

  /** The move empties the file or writes into it. */
  predicate Touches(s: Store, m: Move, inode: nat) {
    || (m.Opens? && s.tmp == Some(inode))
    || (m.Writes? && m.which < |s.flushing| && s.flushing[m.which].phase == Opened(inode))
  }

  predicate Untouched(run: seq<Store>, moves: seq<Move>, inode: nat, from: nat, to: nat)
    requires to <= |moves| && |run| == |moves| + 1
  {
    forall k | from <= k < to :: !Touches(run[k], moves[k], inode)
  }

  /** The flush with this stamp has written, or is gone. */
  predicate Spent(s: Store, stamp: nat) {
    && stamp < |s.captured|
    && forall i | 0 <= i < |s.flushing| && s.flushing[i].stamp == stamp :: s.flushing[i].phase.Written?
  }

  lemma SpentKept(s: Store, m: Move, stamp: nat)
    requires Spent(s, stamp) && Can(s, m)
    ensures Spent(Do(s, m), stamp)
  {
    hide IsSnapshotOf;
  }

  lemma WriterIsSpent(s: Store, i: nat)
    requires Kept(s) && Can(s, Writes(i))
    ensures Spent(Do(s, Writes(i)), s.flushing[i].stamp)
    ensures var f := s.flushing[i]; var x := f.phase.inode;
            x < |Do(s, Writes(i)).files| && Do(s, Writes(i)).files[x] == Holds(f.snapshot, f.stamp)
  {
    hide IsSnapshotOf;
  }

  /** One move changes what a file holds only by touching it; and what it puts there is
      not what a spent flush wrote. */
  lemma TouchChanges(s: Store, m: Move, inode: nat, stamp: nat)
    requires Can(s, m) && inode < |s.files| && Spent(s, stamp)
    ensures inode < |Do(s, m).files|
    ensures !Touches(s, m, inode) ==> Do(s, m).files[inode] == s.files[inode]
    ensures Touches(s, m, inode) ==> Do(s, m).files[inode].Empty? || Do(s, m).files[inode].stamp != stamp
  {
    hide IsSnapshotOf;
  }

  predicate HoldsStamp(s: Store, inode: nat, stamp: nat) {
    inode < |s.files| && s.files[inode].Holds? && s.files[inode].stamp == stamp
  }

  /** What a flush wrote is in its file at a later moment if and only if no other flush
      has opened that file or written into it since. */
  lemma {:induction false} WriteSurvivesIff(run: seq<Store>, moves: seq<Move>, w: nat, k: nat)
    requires IsStoreRun(run, moves) && w < |moves| && w < k < |run| && moves[w].Writes?
    ensures moves[w].which < |run[w].flushing| && run[w].flushing[moves[w].which].phase.Opened?
    ensures var f := run[w].flushing[moves[w].which]; var x := f.phase.inode;
            && x < |run[k].files| && Spent(run[k], f.stamp)
            && (HoldsStamp(run[k], x, f.stamp) <==> Untouched(run, moves, x, w + 1, k))
            && (HoldsStamp(run[k], x, f.stamp) ==> run[k].files[x] == Holds(f.snapshot, f.stamp))
    decreases k
  {
    assert MoveAt(run, moves, w);
    var f := run[w].flushing[moves[w].which];
    var x := f.phase.inode;
    hide Kept, Spent;
    RunKept(run, moves, w);
    if k == w + 1 {
      WriterIsSpent(run[w], moves[w].which);
    } else {
      hide Touches, Can, Do;
      WriteSurvivesIff(run, moves, w, k - 1);
      assert MoveAt(run, moves, k - 1);
      SpentKept(run[k - 1], moves[k - 1], f.stamp);
      TouchChanges(run[k - 1], moves[k - 1], x, f.stamp);
      UntouchedStep(run, moves, x, w + 1, k - 1);
    }
  }

  lemma UntouchedStep(run: seq<Store>, moves: seq<Move>, inode: nat, from: nat, to: nat)
    requires from <= to < |moves| && |run| == |moves| + 1
    ensures Untouched(run, moves, inode, from, to + 1)
            <==> Untouched(run, moves, inode, from, to) && !Touches(run[to], moves[to], inode)
  {
    hide Touches;
  }

  lemma StampStaysAway(s: Store, m: Move, inode: nat, stamp: nat)
    requires Can(s, m) && Spent(s, stamp) && !HoldsStamp(s, inode, stamp)
    ensures !HoldsStamp(Do(s, m), inode, stamp)
  {
    hide IsSnapshotOf;
  }

  lemma WriterHasOneFile(s: Store, i: nat, inode: nat)
    requires Kept(s) && Can(s, Writes(i)) && inode != s.flushing[i].phase.inode
    ensures !HoldsStamp(Do(s, Writes(i)), inode, s.flushing[i].stamp)
  {
    hide IsSnapshotOf;
  }

  /** What a flush wrote is in no other file than the one it opened. */
  lemma {:induction false} OneFilePerFlush(run: seq<Store>, moves: seq<Move>, w: nat, k: nat, inode: nat)
    requires IsStoreRun(run, moves) && w < |moves| && w < k < |run| && moves[w].Writes?
    requires moves[w].which < |run[w].flushing| && run[w].flushing[moves[w].which].phase.Opened?
    requires inode != run[w].flushing[moves[w].which].phase.inode
    ensures !HoldsStamp(run[k], inode, run[w].flushing[moves[w].which].stamp)
    decreases k
  {
    assert MoveAt(run, moves, w);
    hide Kept, Spent, HoldsStamp;
    if k == w + 1 {
      RunKept(run, moves, w);
      WriterHasOneFile(run[w], moves[w].which, inode);
    } else {
      hide Can, Do;
      OneFilePerFlush(run, moves, w, k - 1, inode);
      assert MoveAt(run, moves, k - 1);
      WriteSurvivesIff(run, moves, w, k - 1);
      StampStaysAway(run[k - 1], moves[k - 1], inode, run[w].flushing[moves[w].which].stamp);
    }
  }

  /** So `state.bin` holds what a flush wrote if and only if it is the file the flush wrote
      into and no other flush has opened or written that file since. A rename by itself,
      successful or not, says neither. */
  lemma FlushIsOnDiskIff(run: seq<Store>, moves: seq<Move>, w: nat, k: nat)
    requires IsStoreRun(run, moves) && w < |moves| && w < k < |run| && moves[w].Writes?
    ensures moves[w].which < |run[w].flushing| && run[w].flushing[moves[w].which].phase.Opened?
    ensures var f := run[w].flushing[moves[w].which];
            OnDisk(run[k]) == Holds(f.snapshot, f.stamp)
            <==> run[k].disk == Some(f.phase.inode) && Untouched(run, moves, f.phase.inode, w + 1, k)
  {
    hide Touches, Do, Untouched, Kept;
    assert MoveAt(run, moves, w);
    WriteSurvivesIff(run, moves, w, k);
    hide IsStoreRun, Can;
    var f := run[w].flushing[moves[w].which];
    if OnDisk(run[k]) == Holds(f.snapshot, f.stamp) && run[k].disk != Some(f.phase.inode) {
      OneFilePerFlush(run, moves, w, k, run[k].disk.value);
    }
  }

  // ---- flushes one at a time -------------------------------------------------------------------

  /** At most one flush has the temporary file open or written. */
  predicate Serial(s: Store) {
    forall i, j | 0 <= i < |s.flushing| && 0 <= j < |s.flushing| && i != j ::
      s.flushing[i].phase.Taken? || s.flushing[j].phase.Taken?
  }

  /** What the flush opened is still the temporary file, and what it wrote is in it. */
  predicate FlushUndisturbed(s: Store, f: Flush) {
    match f.phase
    case Taken => true
    case Opened(x) => s.tmp == Some(x)
    case Written(x) => s.tmp == Some(x) && x < |s.files| && s.files[x] == Holds(f.snapshot, f.stamp)
  }

  predicate Undisturbed(s: Store) {
    forall i | 0 <= i < |s.flushing| :: FlushUndisturbed(s, s.flushing[i])
  }

  /** Where a flush stood before the move. */
  function Earlier(s: Store, m: Move, j: nat): nat {
    if (m.Renames? || m.GivesUp?) && j >= m.which then j + 1 else j
  }

  lemma SerialFlush(s: Store, m: Move, j: nat)
    requires Kept(s) && Serial(s) && Undisturbed(s) && Can(s, m) && Serial(Do(s, m))
    requires j < |Do(s, m).flushing|
    ensures FlushUndisturbed(Do(s, m), Do(s, m).flushing[j])
  {
    hide IsSnapshotOf, Contents, Stamps, Unwritten;
    var after := Do(s, m);
    var i := Earlier(s, m, j);
    if i < |s.flushing| {
      assert FlushUndisturbed(s, s.flushing[i]);
      if (m.Opens? || m.Writes?) && m.which != i {
        assert after.flushing[m.which].phase.Taken? || after.flushing[i].phase.Taken?;
      }
    }
  }

  lemma SerialStep(s: Store, m: Move)
    requires Kept(s) && Serial(s) && Undisturbed(s) && Can(s, m) && Serial(Do(s, m))
    ensures Undisturbed(Do(s, m))
    ensures m.Renames? ==>
              OnDisk(Do(s, m)) == Holds(s.flushing[m.which].snapshot, s.flushing[m.which].stamp)
    ensures !m.Renames? ==> OnDisk(Do(s, m)) == OnDisk(s)
  {
    hide IsSnapshotOf, Contents, Stamps, Unwritten;
    if m.Renames? || m.Writes? {
      assert FlushUndisturbed(s, s.flushing[m.which]);
    }
    forall j | 0 <= j < |Do(s, m).flushing|
      ensures FlushUndisturbed(Do(s, m), Do(s, m).flushing[j])
    {
      SerialFlush(s, m, j);
    }
  }

  lemma {:induction false} SerialUndisturbed(run: seq<Store>, moves: seq<Move>, k: nat)
    requires IsStoreRun(run, moves) && k < |run| && Undisturbed(run[0])
    requires forall j | 0 <= j <= k :: Serial(run[j])
    ensures Undisturbed(run[k])
    decreases k
  {
    if k > 0 {
      hide Kept, Can, Do, Serial, Undisturbed;
      SerialUndisturbed(run, moves, k - 1);
      RunKept(run, moves, k - 1);
      assert MoveAt(run, moves, k - 1);
      SerialStep(run[k - 1], moves[k - 1]);
    }
  }

  /** As long as no flush opens the temporary file between another's opening and its end,
      every rename succeeds and publishes that flush's snapshot, and nothing else changes
      what is on disk. */
  lemma SerialFlushesPublish(run: seq<Store>, moves: seq<Move>, k: nat)
    requires IsStoreRun(run, moves) && k < |moves| && Undisturbed(run[0])
    requires forall j | 0 <= j <= k + 1 :: Serial(run[j])
    ensures moves[k].Renames? ==>
              && moves[k].which < |run[k].flushing|
              && OnDisk(run[k + 1])
                 == Holds(run[k].flushing[moves[k].which].snapshot, run[k].flushing[moves[k].which].stamp)
    ensures !moves[k].Renames? ==> OnDisk(run[k + 1]) == OnDisk(run[k])
  {
    hide Kept, Do, Undisturbed, Serial, OnDisk;
    SerialUndisturbed(run, moves, k);
    RunKept(run, moves, k);
    assert MoveAt(run, moves, k);
    SerialStep(run[k], moves[k]);
  }
}
