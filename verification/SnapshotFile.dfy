/** The snapshot as the bytes of `state.bin`. */
module SnapshotFile {
  import opened MachineInts
  import opened Wrappers
  import opened Postcard
  import opened Registry

  function EntrySchema(): Schema {
    Tuple(Then(Text, Then(U16, Then(U32, Then(List(U32), End)))))
  }

  function SnapshotSchema(): Schema { Tuple(Then(List(EntrySchema()), End)) }

  function PidValues(pids: seq<u32>): seq<Value> { seq(|pids|, i requires 0 <= i < |pids| => Num(pids[i])) }

  function EntryValue(e: InstanceSnapshot): Value {
    Record(More(Raw(e.name), More(Num(e.port), More(Num(e.serverPid), More(Items(PidValues(e.appPids)), Last)))))
  }

  function EntryValues(s: Snapshot): seq<Value> { seq(|s|, i requires 0 <= i < |s| => EntryValue(s[i])) }

  function SnapshotValue(s: Snapshot): Value { Record(More(Items(EntryValues(s)), Last)) }

  /** What Rust's types say of a snapshot: names are UTF-8 and lengths fit a word. */
  predicate Storable(s: Snapshot) {
    |s| < TWO_64 && forall i | 0 <= i < |s| :: StorableEntry(s[i])
  }

  predicate StorableEntry(e: InstanceSnapshot) {
    |e.name| < TWO_64 && ValidUtf8(e.name) && |e.appPids| < TWO_64
  }

  lemma EntryTyped(e: InstanceSnapshot)
    requires StorableEntry(e)
    ensures HasType(EntryValue(e), EntrySchema())
  {
    hide ValidUtf8;
    var apps := Items(PidValues(e.appPids));
    assert HasType(apps, List(U32)) by {
      forall i | 0 <= i < |apps.items|
        ensures HasType(apps.items[i], U32)
      {
      }
    }
    var last := More(apps, Last);
    assert HaveTypes(last, Then(List(U32), End));
    var pids := More(Num(e.serverPid), last);
    assert HaveTypes(pids, Then(U32, Then(List(U32), End)));
    var ports := More(Num(e.port), pids);
    assert HaveTypes(ports, Then(U16, Then(U32, Then(List(U32), End))));
    assert HasType(Raw(e.name), Text);
  }

  lemma SnapshotTyped(s: Snapshot)
    requires Storable(s)
    ensures HasType(SnapshotValue(s), SnapshotSchema())
  {
    hide EntrySchema, EntryValue;
    forall i | 0 <= i < |s|
      ensures HasType(EntryValues(s)[i], EntrySchema())
    {
      EntryTyped(s[i]);
    }
    assert HasType(Items(EntryValues(s)), List(EntrySchema()));
  }

  function SnapshotBytes(s: Snapshot): Bytes
    requires Storable(s)
  {
    hide SnapshotSchema, SnapshotValue, HasType, Encode;
    SnapshotTyped(s);
    Encode(SnapshotValue(s), SnapshotSchema())
  }

  // ---- reading it back --------------------------------------------------------------------

  function PidOf(v: Value): u32 { if v.Num? && 0 <= v.n < TWO_32 then v.n else 0 }

  function PidsOf(vs: seq<Value>): seq<u32> { seq(|vs|, i requires 0 <= i < |vs| => PidOf(vs[i])) }

  function EntryOf(v: Value): Option<InstanceSnapshot> {
    match v
    case Record(More(Raw(name), More(Num(port), More(Num(pid), More(Items(apps), Last))))) =>
      if 0 <= port < TWO_16 && 0 <= pid < TWO_32 then Some(InstanceSnapshot(name, port, pid, PidsOf(apps))) else None
    case _ => None
  }

  function EntriesOf(vs: seq<Value>): Option<Snapshot> {
    if vs == [] then Some([])
    else
      match (EntryOf(vs[0]), EntriesOf(vs[1..]))
      case (Some(e), Some(es)) => Some([e] + es)
      case _ => None
  }

  datatype LoadError = Undecodable

  /** What the daemon finds at startup: a missing or empty file is no state at all, and
      anything that does not decode is an error. */
  function LoadSnapshot(file: Option<Bytes>): Result<Option<Snapshot>, LoadError> {
    match file
    case None => Ok(None)
    case Some(bytes) =>
      if bytes == [] then Ok(None)
      else
        match FromBytes(SnapshotSchema(), bytes)
        case Some(Record(More(Items(vs), Last))) =>
          (match EntriesOf(vs)
           case Some(s) => Ok(Some(s))
           case None => Err(Undecodable))
        case _ => Err(Undecodable)
  }

  lemma EntryBack(e: InstanceSnapshot)
    ensures EntryOf(EntryValue(e)) == Some(e)
  {
    assert PidsOf(PidValues(e.appPids)) == e.appPids;
  }

  lemma {:induction false} EntriesBack(s: Snapshot)
    ensures EntriesOf(EntryValues(s)) == Some(s)
  {
    if s != [] {
      EntriesBack(s[1..]);
      EntryBack(s[0]);
      assert EntryValues(s)[1..] == EntryValues(s[1..]);
      assert s == [s[0]] + s[1..];
    }
  }

  /** A file that begins with the bytes of a snapshot loads as that snapshot, whatever
      follows them: so a snapshot written over a longer one reads back as itself. */
  lemma OverwriteRoundTrip(s: Snapshot, tail: Bytes)
    requires Storable(s)
    ensures LoadSnapshot(Some(SnapshotBytes(s) + tail)) == Ok(Some(s))
  {
    hide SnapshotSchema, HasType, Encode, Decode, EntriesOf, EntryValues;
    SnapshotTyped(s);
    RoundTrip(SnapshotValue(s), SnapshotSchema(), tail);
    NothingDecodesFromNothing();
    EntriesBack(s);
  }

  /** Loading the bytes of a snapshot gives the snapshot back, in its own order; in
      particular an empty table is not mistaken for a missing file. */
  lemma SnapshotRoundTrip(s: Snapshot)
    requires Storable(s)
    ensures LoadSnapshot(Some(SnapshotBytes(s))) == Ok(Some(s))
  {
    hide LoadSnapshot, SnapshotBytes;
    OverwriteRoundTrip(s, []);
    assert SnapshotBytes(s) + [] == SnapshotBytes(s);
  }

  lemma NothingDecodesFromNothing()
    ensures Decode(SnapshotSchema(), []) == None
  {
  }

  /** From table to file and back: a daemon restarted from the bytes another one saved
      holds exactly the instances whose server still runs, with the applications
      that still run. */
  lemma SavedTableIsRestored(s: Snapshot, t: Table, live: set<u32>)
    requires Storable(s) && IsSnapshotOf(s, t)
    ensures var loaded := LoadSnapshot(Some(SnapshotBytes(s)));
            loaded.Ok? && loaded.value.Some? && Reconciled(loaded.value.value, live) == Recovered(t, live)
  {
    hide LoadSnapshot, SnapshotBytes, Reconciled, Recovered, IsSnapshotOf;
    SnapshotRoundTrip(s);
    RestoreGivesLiveInstances(s, t, live);
  }

  /** Opening the daemon's state from its file: a file that does not decode is an error and
      no daemon starts; otherwise the daemon holds what the file says still runs. */
  method OpenDaemon(file: Option<Bytes>, live: set<u32>, writable: bool) returns (r: Result<DaemonState, LoadError>)
    ensures r.Err? <==> LoadSnapshot(file).Err?
    ensures r.Ok? ==>
              var saved := LoadSnapshot(file).value;
              && fresh(r.value)
              && r.value.instances == (if saved.Some? then Reconciled(saved.value, live) else map[])
              && Saved(saved, r.value.disk, r.value.instances, saved.Some? && writable)
  {
    match LoadSnapshot(file) {
      case Err(e) => return Err(e);
      case Ok(saved) =>
        var daemon := new DaemonState(saved, live, writable);
        r := Ok(daemon);
    }
  }
}
