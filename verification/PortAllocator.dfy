/** First-fit allocation of instance ports over the text file. */
module PortAllocator {
  import opened MachineInts
  import opened Arith
  import opened Wrappers
  import opened Strings
  import opened PortFile

  const INSTANCE_PORT_OFFSET: int := 2
  const INSTANCE_PORT_SPAN: int := 2048

  /** The base port of the default instance and the port of the control daemon. */
  datatype Config = Config(base: u16, control: u16)

  function First(c: Config): nat { Max(c.base + INSTANCE_PORT_OFFSET, 1024) }

  function Final(c: Config): nat { Min(First(c) + INSTANCE_PORT_SPAN - 1, 65535) }

  /** The ports an instance may be given. */
  predicate Eligible(c: Config, p: int) { First(c) <= p <= Final(c) && p != c.base && p != c.control }

  predicate Taken(es: seq<Entry>, p: int) { exists i :: 0 <= i < |es| && es[i].port == p }

  predicate Known(es: seq<Entry>, name: string) { exists i :: 0 <= i < |es| && es[i].name == name }

  /** The name's first entry is the i-th and holds the port. */
  predicate FirstAt(es: seq<Entry>, name: string, p: u16, i: nat) {
    i < |es| && es[i] == Entry(name, p) && forall j | 0 <= j < i :: es[j].name != name
  }

  function PortOf(es: seq<Entry>, name: string): (p: u16)
    requires Known(es, name)
    ensures exists i :: FirstAt(es, name, p, i)
  {
    if es[0].name == name then
      assert FirstAt(es, name, es[0].port, 0);
      es[0].port
    else
      assert Known(es[1..], name) by {
        var i :| 0 <= i < |es| && es[i].name == name;
        assert es[1..][i - 1].name == name;
      }
      var p := PortOf(es[1..], name);
      assert exists i :: FirstAt(es, name, p, i) by {
        var k :| FirstAt(es[1..], name, p, k);
        FirstAtLater(es, name, p, k);
        var next := k + 1;
        assert FirstAt(es, name, p, next);
      }
      p
  }

  lemma FirstAtLater(es: seq<Entry>, name: string, p: u16, k: nat)
    requires es != [] && es[0].name != name && FirstAt(es[1..], name, p, k)
    ensures FirstAt(es, name, p, k + 1)
  {
    forall j | 0 <= j < k + 1
      ensures es[j].name != name
    {
      assert j > 0 ==> es[j] == es[1..][j - 1];
    }
  }

  lemma FirstIsUnique(es: seq<Entry>, name: string, p: u16, i: nat, q: u16, j: nat)
    requires FirstAt(es, name, p, i) && FirstAt(es, name, q, j)
    ensures p == q
  {
  }

  /** The least eligible port that no entry holds. */
  predicate LeastFree(c: Config, es: seq<Entry>, p: int) {
    Eligible(c, p) && !Taken(es, p) && forall q | First(c) <= q < p :: !(Eligible(c, q) && !Taken(es, q))
  }

  predicate Full(c: Config, es: seq<Entry>) {
    forall q | First(c) <= q <= Final(c) :: !(Eligible(c, q) && !Taken(es, q))
  }

  datatype Failure = BadFile(error: FileError) | NoneAfterBase | NoneFree

  /** What one call returns and leaves in the file. */
  predicate Allocates(c: Config, name: string, before: Option<string>, r: Result<u16, Failure>, after: Option<string>) {
    if name == "default" then r == Ok(c.base) && after == before
    else
      match Parse(before)
      case Err(e) => r == Err(BadFile(e)) && after == before
      case Ok(es) =>
        if Known(es, name) then r == Ok(PortOf(es, name)) && after == before
        else if Full(c, es) then r == Err(if First(c) > 65535 then NoneAfterBase else NoneFree) && after == before
        else r.Ok? && LeastFree(c, es, r.value) && after == Some(Print(es + [Entry(name, r.value)]))
  }

  /** The allocator: its only state is the file. */
  class Allocator {
    const config: Config
    var file: Option<string>

    constructor (config: Config, file: Option<string>)
      ensures this.config == config && this.file == file
    {
      this.config, this.file := config, file;
    }

    /** The entry of a name, if it has one. */
    method Find(entries: seq<Entry>, name: string) returns (port: Option<u16>)
      ensures port.Some? <==> Known(entries, name)
      ensures port.Some? ==> port.value == PortOf(entries, name)
    {
      for i := 0 to |entries|
        invariant forall j | 0 <= j < i :: entries[j].name != name
      {
        if entries[i].name == name {
          assert Known(entries, name);
          return Some(entries[i].port);
        }
      }
      return None;
    }

    method InstancePort(name: string) returns (r: Result<u16, Failure>)
      modifies this`file
      ensures Allocates(config, name, old(file), r, file)
    {
      hide Parse, PortOf, Print, Known;
      if name == "default" { return Ok(config.base); }
      var read := ReadInstancePorts(file);
      if read.Err? { return Err(BadFile(read.error)); }
      var entries := read.value;
      var known := Find(entries, name);
      if known.Some? { return Ok(known.value); }
      var start, end := First(config), Final(config);
      if start > 65535 { return Err(NoneAfterBase); }
      var candidate := start;
      while candidate <= end
        invariant start <= candidate
        invariant forall q | start <= q < candidate :: !(Eligible(config, q) && !Taken(entries, q))
        invariant file == old(file)
      {
        var held := IsTaken(entries, candidate);
        if candidate != config.base && candidate != config.control && !held {
          var text := WriteInstancePorts(entries + [Entry(name, candidate)]);
          assert !Full(config, entries);
          file := Some(text);
          return Ok(candidate);
        }
        candidate := candidate + 1;
      }
      assert Full(config, entries);
      return Err(NoneFree);
    }

    method IsTaken(entries: seq<Entry>, p: int) returns (held: bool)
      ensures held <==> Taken(entries, p)
    {
      for i := 0 to |entries|
        invariant forall j | 0 <= j < i :: entries[j].port != p
      {
        if entries[i].port == p { return true; }
      }
      return false;
    }
  }

  // ---- one call ------------------------------------------------------------------------------

  /** The least free port is unique, so the file and the name determine both the answer
      and the new file. */
  lemma AllocatesDeterministic(c: Config, name: string, before: Option<string>, r: Result<u16, Failure>,
                               after: Option<string>, q: Result<u16, Failure>, other: Option<string>)
    requires Allocates(c, name, before, r, after) && Allocates(c, name, before, q, other)
    ensures q == r && other == after
  {
    hide Parse, PortOf, Print, Known;
  }

  /** The lowest port an instance other than the default may get, and the highest. */
  predicate InRange(base: u16, p: int) {
    var low := Max(base + 2, 1024);
    low <= p <= Min(low + 2047, 65535)
  }

  /** A port that is the control port or in an entry. */
  predicate Unavailable(c: Config, es: seq<Entry>, q: int) {
    q == c.control || exists i :: 0 <= i < |es| && es[i].port == q
  }

  lemma AvailableIs(c: Config, es: seq<Entry>, q: int)
    ensures InRange(c.base, q) ==> First(c) <= q <= Final(c)
    ensures InRange(c.base, q) && !Unavailable(c, es, q) <==> Eligible(c, q) && !Taken(es, q)
  {
  }

  /** What one call comes to, in numbers: the default instance has the base port; a name in
      the file the port of its first entry; and a new name the lowest port of the range
      that is not the control port and in no entry, written behind the others, or an
      error that leaves the file alone if there is none. */
  lemma OutcomeInNumbers(c: Config, name: string, before: Option<string>, r: Result<u16, Failure>,
                         after: Option<string>, es: seq<Entry>)
    requires Allocates(c, name, before, r, after) && Parse(before) == Ok(es)
    ensures name == "default" ==> r == Ok(c.base) && after == before
    ensures forall i | 0 <= i < |es| && es[i].name == name && name != "default"
                       && (forall j | 0 <= j < i :: es[j].name != name) ::
              r == Ok(es[i].port) && after == before
    ensures name != "default" && (forall i | 0 <= i < |es| :: es[i].name != name) && r.Ok? ==>
              && InRange(c.base, r.value) && !Unavailable(c, es, r.value)
              && (forall q | 0 <= q < r.value && InRange(c.base, q) :: Unavailable(c, es, q))
              && after == Some(Print(es + [Entry(name, r.value)]))
    ensures name != "default" && (forall i | 0 <= i < |es| :: es[i].name != name) && r.Err? ==>
              && (forall q: u16 | InRange(c.base, q) :: Unavailable(c, es, q))
              && r.error == (if c.base > 65533 then NoneAfterBase else NoneFree) && after == before
  {
    hide Parse, Print, PortOf, Unavailable, Eligible, Taken;
    forall q ensures InRange(c.base, q) ==> First(c) <= q <= Final(c)
      ensures InRange(c.base, q) && !Unavailable(c, es, q) <==> Eligible(c, q) && !Taken(es, q)
    {
      AvailableIs(c, es, q);
    }
    forall i | 0 <= i < |es| && es[i].name == name && name != "default"
               && (forall j | 0 <= j < i :: es[j].name != name)
      ensures r == Ok(es[i].port) && after == before
    {
      assert Known(es, name) && FirstAt(es, name, es[i].port, i);
      var k :| FirstAt(es, name, PortOf(es, name), k);
      FirstIsUnique(es, name, es[i].port, i, PortOf(es, name), k);
    }
  }

  // ---- room ------------------------------------------------------------------------------------

  function PortSet(es: seq<Entry>): set<int> { set i | 0 <= i < |es| :: es[i].port as int }

  lemma {:induction false} PortSetSize(es: seq<Entry>)
    ensures |PortSet(es)| <= |es|
  {
    if es != [] {
      var init := es[..|es| - 1];
      PortSetSize(init);
      assert PortSet(es) == PortSet(init) + {es[|es| - 1].port as int};
    }
  }

  function Interval(low: int, high: int): set<int>
    decreases high - low
  {
    if low >= high then {} else Interval(low, high - 1) + {high - 1}
  }

  lemma {:induction false} IntervalSize(low: int, high: int)
    requires low <= high
    ensures |Interval(low, high)| == high - low
    ensures forall p :: p in Interval(low, high) <==> low <= p < high
    decreases high - low
  {
    if low < high {
      IntervalSize(low, high - 1);
    }
  }

  /** However the file came about, a range is only full once it has an entry for every
      port of it but the control port. */
  lemma FullNeedsEntries(c: Config, es: seq<Entry>)
    requires Full(c, es)
    ensures |es| + 1 >= Final(c) - First(c) + 1
  {
    if First(c) <= Final(c) {
      var whole := Interval(First(c), Final(c) + 1);
      IntervalSize(First(c), Final(c) + 1);
      var covered := PortSet(es) + {c.control as int};
      forall p | p in whole
        ensures p in covered
      {
        assert !Eligible(c, p) || Taken(es, p);
      }
      SubsetSize(whole, covered);
      PortSetSize(es);
    }
  }

  /** With the full range of 2048 ports a file of at most 2046 entries always has room. */
  lemma RoomFor2046(c: Config, es: seq<Entry>)
    requires First(c) + INSTANCE_PORT_SPAN - 1 <= 65535 && |es| <= 2046
    ensures !Full(c, es)
  {
    if Full(c, es) {
      FullNeedsEntries(c, es);
    }
  }

  // ---- runs ------------------------------------------------------------------------------------

  /** How many ports the range offers. */
  function Capacity(c: Config): nat {
    if First(c) > Final(c) then 0
    else Final(c) - First(c) + 1 - (if First(c) <= c.control <= Final(c) then 1 else 0)
  }

  /** The i-th port of the range, the control port left out. */
  function Nth(c: Config, i: nat): nat {
    if First(c) <= c.control <= First(c) + i then First(c) + i + 1 else First(c) + i
  }

  lemma NthEligible(c: Config, i: nat, j: nat)
    ensures i < Capacity(c) ==> Eligible(c, Nth(c, i))
    ensures i < j ==> Nth(c, i) < Nth(c, j)
  {
  }

  /** Every eligible port is the n-th for some n. */
  lemma EligibleIsNth(c: Config, p: int)
    requires Eligible(c, p)
    ensures exists i: nat :: i < Capacity(c) && Nth(c, i) == p
  {
    var i := if First(c) <= c.control < p then p - First(c) - 1 else p - First(c);
    assert i < Capacity(c) && Nth(c, i) == p;
  }

  /** The state of a file only this allocator has written, with this configuration. */
  predicate Orderly(c: Config, es: seq<Entry>) {
    && |es| <= Capacity(c)
    && AllClean(es)
    && (forall i | 0 <= i < |es| :: es[i].port == Nth(c, i))
    && (forall i, j | 0 <= i < j < |es| :: es[i].name != es[j].name)
    && (forall i | 0 <= i < |es| :: es[i].name != "default")
  }

  lemma TakenIffEarlier(c: Config, es: seq<Entry>, i: nat)
    requires Orderly(c, es)
    ensures Taken(es, Nth(c, i)) <==> i < |es|
  {
    if Taken(es, Nth(c, i)) {
      var j :| 0 <= j < |es| && es[j].port == Nth(c, i);
      NthEligible(c, i, j);
      NthEligible(c, j, i);
    }
  }

  lemma OrderlyNext(c: Config, es: seq<Entry>)
    requires Orderly(c, es)
    ensures Full(c, es) <==> |es| == Capacity(c)
    ensures forall p | LeastFree(c, es, p) :: p == Nth(c, |es|)
  {
    hide Nth, Capacity, Eligible;
    if |es| < Capacity(c) {
      NthEligible(c, |es|, 0);
      TakenIffEarlier(c, es, |es|);
      EligibleInRange(c, Nth(c, |es|));
    } else {
      forall q | First(c) <= q <= Final(c)
        ensures !(Eligible(c, q) && !Taken(es, q))
      {
        if Eligible(c, q) {
          EligibleIsNth(c, q);
          var i: nat :| i < Capacity(c) && Nth(c, i) == q;
          TakenIffEarlier(c, es, i);
        }
      }
    }
    forall p | LeastFree(c, es, p)
      ensures p == Nth(c, |es|)
    {
      LeastIsNth(c, es, p);
    }
  }

  lemma EligibleInRange(c: Config, p: int)
    requires Eligible(c, p)
    ensures First(c) <= p <= Final(c)
  {
  }

  lemma LeastIsNth(c: Config, es: seq<Entry>, p: int)
    requires Orderly(c, es) && LeastFree(c, es, p)
    ensures p == Nth(c, |es|)
  {
    hide Nth, Capacity, Eligible;
    EligibleIsNth(c, p);
    var i: nat :| i < Capacity(c) && Nth(c, i) == p;
    TakenIffEarlier(c, es, i);
    TakenIffEarlier(c, es, |es|);
    NthEligible(c, |es|, i);
    EligibleInRange(c, Nth(c, |es|));
  }

  /** A sequence of calls: the names asked for, the answers, and the file before and
      after each call. */
  datatype Log = Log(names: seq<string>, answers: seq<Result<u16, Failure>>, files: seq<Option<string>>)

  /** Each call does what it should. Whatever was in the file at first is left open. */
  predicate AreCalls(c: Config, log: Log) {
    && |log.answers| == |log.names| && |log.files| == |log.names| + 1
    && forall k | 0 <= k < |log.names| :: CallAt(c, log, k)
  }

  /** Calls on a file that did not exist. */
  predicate IsRun(c: Config, log: Log) {
    AreCalls(c, log) && log.files[0] == None
  }

  predicate CallAt(c: Config, log: Log, k: nat)
    requires k < |log.names| && |log.answers| == |log.names| && |log.files| == |log.names| + 1
  {
    Allocates(c, log.names[k], log.files[k], log.answers[k], log.files[k + 1])
  }

  predicate Usable(name: string) { name == "default" || Clean(name) }

  lemma CallKeepsOrder(c: Config, name: string, before: Option<string>, r: Result<u16, Failure>,
      after: Option<string>, es: seq<Entry>)
    requires Usable(name) && Allocates(c, name, before, r, after)
    requires Parse(before) == Ok(es) && Orderly(c, es)
    ensures Parse(after).Ok? && Orderly(c, Parse(after).value) && es <= Parse(after).value
    ensures name == "default" ==> r == Ok(c.base)
    ensures name != "default" ==>
              && (Known(es, name) ==> r == Ok(PortOf(es, name)))
              && (!Known(es, name) ==> (r.Err? <==> |es| == Capacity(c)))
              && (!Known(es, name) && r.Ok? ==>
                   r == Ok(Nth(c, |es|)) && Parse(after) == Ok(es + [Entry(name, r.value)]))
  {
    hide Parse, PortOf, Print, Full, LeastFree, Nth, Capacity;
    OrderlyNext(c, es);
    if name != "default" && !Known(es, name) && !Full(c, es) {
      OrderlyGrows(c, es, name, r.value);
      PrintParse(es + [Entry(name, r.value)]);
    }
  }

  lemma OrderlyGrows(c: Config, es: seq<Entry>, name: string, p: u16)
    requires Orderly(c, es) && |es| < Capacity(c) && Clean(name) && name != "default" && !Known(es, name)
    requires p == Nth(c, |es|)
    ensures Orderly(c, es + [Entry(name, p)]) && AllClean(es + [Entry(name, p)])
  {
    hide Nth, Capacity, IsWord;
    var grown := es + [Entry(name, p)];
    forall i | 0 <= i < |grown|
      ensures Clean(grown[i].name) && grown[i].port == Nth(c, i) && grown[i].name != "default"
    {
      if i < |es| {
        assert Clean(es[i].name);
      }
    }
  }

  /** In every run the file parses, and its i-th entry holds the i-th port of the range. */
  lemma {:induction false} RunIsOrderly(c: Config, log: Log, k: nat)
    requires IsRun(c, log) && k < |log.files|
    requires forall i | 0 <= i < |log.names| :: Usable(log.names[i])
    ensures Parse(log.files[k]).Ok? && Orderly(c, Parse(log.files[k]).value)
    decreases k
  {
    if k > 0 {
      hide Orderly, Allocates, Parse, Usable;
      RunIsOrderly(c, log, k - 1);
      assert CallAt(c, log, k - 1);
      CallKeepsOrder(c, log.names[k - 1], log.files[k - 1], log.answers[k - 1], log.files[k],
          Parse(log.files[k - 1]).value);
    }
  }

  /** No port is shared, and none is the base or the control port. */
  lemma RunPortsDiffer(c: Config, log: Log, k: nat)
    requires IsRun(c, log) && k < |log.files|
    requires forall i | 0 <= i < |log.names| :: Usable(log.names[i])
    ensures var parsed := Parse(log.files[k]);
            && parsed.Ok?
            && (forall i | 0 <= i < |parsed.value| :: Eligible(c, parsed.value[i].port))
            && (forall i, j | 0 <= i < j < |parsed.value| :: parsed.value[i].port != parsed.value[j].port)
  {
    hide Allocates, Parse, Usable, Eligible, Nth, Capacity;
    RunIsOrderly(c, log, k);
    var es := Parse(log.files[k]).value;
    forall i | 0 <= i < |es|
      ensures Eligible(c, es[i].port)
    {
      NthEligible(c, i, i);
    }
    forall i, j | 0 <= i < j < |es|
      ensures es[i].port != es[j].port
    {
      NthEligible(c, i, j);
    }
  }

  lemma {:induction false} EntriesOnlyGrow(c: Config, log: Log, k: nat, later: nat)
    requires IsRun(c, log) && k <= later < |log.files|
    requires forall i | 0 <= i < |log.names| :: Usable(log.names[i])
    ensures Parse(log.files[k]).Ok? && Parse(log.files[later]).Ok?
            && Parse(log.files[k]).value <= Parse(log.files[later]).value
    decreases later
  {
    hide Orderly, Allocates, Parse, Usable;
    RunIsOrderly(c, log, k);
    RunIsOrderly(c, log, later);
    if k < later {
      EntriesOnlyGrow(c, log, k, later - 1);
      RunIsOrderly(c, log, later - 1);
      assert CallAt(c, log, later - 1);
      CallKeepsOrder(c, log.names[later - 1], log.files[later - 1], log.answers[later - 1], log.files[later],
          Parse(log.files[later - 1]).value);
    }
  }

  /** A name keeps its port for good: once a call for it has succeeded, every later
      call for it returns the same port. */
  lemma NameKeepsPort(c: Config, log: Log, k: nat, later: nat)
    requires IsRun(c, log) && k < later < |log.names| && log.names[k] == log.names[later]
    requires forall i | 0 <= i < |log.names| :: Usable(log.names[i])
    requires log.answers[k].Ok?
    ensures log.answers[later] == log.answers[k]
  {
    hide Orderly, Allocates, Parse, PortOf, Usable, Nth, Capacity;
    var name := log.names[k];
    RunIsOrderly(c, log, k);
    RunIsOrderly(c, log, later);
    var es := Parse(log.files[k]).value;
    var last := Parse(log.files[later]).value;
    assert CallAt(c, log, k) && CallAt(c, log, later);
    CallKeepsOrder(c, name, log.files[k], log.answers[k], log.files[k + 1], es);
    EntriesOnlyGrow(c, log, k + 1, later);
    CallKeepsOrder(c, name, log.files[later], log.answers[later], log.files[later + 1], last);
    if name != "default" {
      hide Known;
      var grown := Parse(log.files[k + 1]).value;
      if Known(es, name) {
        PortOfPrefix(es, grown, name);
      } else {
        PortOfNew(es, name, log.answers[k].value);
      }
      PortOfPrefix(grown, last, name);
    }
  }

  lemma KnownAfter(es: seq<Entry>, longer: seq<Entry>, name: string)
    requires es <= longer
    ensures Known(es, name) ==> Known(longer, name)
  {
    if Known(es, name) {
      var i :| 0 <= i < |es| && es[i].name == name;
      assert longer[i].name == name;
    }
  }

  lemma PortOfPrefix(es: seq<Entry>, longer: seq<Entry>, name: string)
    requires es <= longer && Known(es, name)
    ensures Known(longer, name) && PortOf(longer, name) == PortOf(es, name)
  {
    KnownAfter(es, longer, name);
    hide Known;
    var i :| FirstAt(es, name, PortOf(es, name), i);
    var k :| FirstAt(longer, name, PortOf(longer, name), k);
    assert FirstAt(longer, name, PortOf(es, name), i);
    FirstIsUnique(longer, name, PortOf(es, name), i, PortOf(longer, name), k);
  }

  lemma PortOfNew(es: seq<Entry>, name: string, p: u16)
    requires !Known(es, name)
    ensures Known(es + [Entry(name, p)], name) && PortOf(es + [Entry(name, p)], name) == p
  {
    var grown := es + [Entry(name, p)];
    assert grown[|es|].name == name;
    assert FirstAt(grown, name, p, |es|);
    var k :| FirstAt(grown, name, PortOf(grown, name), k);
    FirstIsUnique(grown, name, p, |es|, PortOf(grown, name), k);
  }

  /** A call in a run fails exactly when its name is new and the range is used up. */
  lemma FailsIffFull(c: Config, log: Log, k: nat)
    requires IsRun(c, log) && k < |log.names|
    requires forall i | 0 <= i < |log.names| :: Usable(log.names[i])
    ensures Parse(log.files[k]).Ok?
    ensures log.answers[k].Err? <==>
            log.names[k] != "default" && !Known(Parse(log.files[k]).value, log.names[k])
                && |Parse(log.files[k]).value| == Capacity(c)
  {
    hide Orderly, Allocates, Parse, PortOf, Usable, Nth, Capacity;
    RunIsOrderly(c, log, k);
    assert CallAt(c, log, k);
    CallKeepsOrder(c, log.names[k], log.files[k], log.answers[k], log.files[k + 1], Parse(log.files[k]).value);
  }

  // ---- the name that breaks the file -------------------------------------------------------------

  /** Once the file does not parse it stays as it is, and every later call but the
      default one fails. */
  lemma {:induction false} BrokenFileStaysBroken(c: Config, log: Log, k: nat, later: nat)
    requires AreCalls(c, log) && k <= later < |log.files| && Parse(log.files[k]).Err?
    ensures log.files[later] == log.files[k]
    ensures later < |log.names| && log.names[later] != "default" ==>
              log.answers[later] == Err(BadFile(Parse(log.files[k]).error))
    decreases later
  {
    hide Parse, PortOf, Print, Known, Full, LeastFree;
    if later < |log.names| {
      assert CallAt(c, log, later);
    }
    if k < later {
      BrokenFileStaysBroken(c, log, k, later - 1);
      assert CallAt(c, log, later - 1);
    }
  }

  /** A call with a new name keeps the file readable, as the same list with one entry
      more, if and only if the name is clean. */
  lemma NewNameKeepsFileIff(c: Config, name: string, before: Option<string>, r: Result<u16, Failure>,
      after: Option<string>)
    requires Allocates(c, name, before, r, after) && name != "default"
    requires Parse(before).Ok? && !Known(Parse(before).value, name) && r.Ok?
    ensures Parse(after) == Ok(Parse(before).value + [Entry(name, r.value)]) <==> Clean(name)
  {
    hide Lines, ReadLines, Full, LeastFree;
    var es := Parse(before).value;
    var grown := es + [Entry(name, r.value)];
    PrintParse(grown);
    ParsedFileIsClean(before);
    hide Parse, Print;
    if AllClean(grown) {
      assert Clean(grown[|es|].name);
    }
  }

  lemma ParsedFileIsClean(file: Option<string>)
    requires Parse(file).Ok?
    ensures AllClean(Parse(file).value)
  {
    if file.Some? {
      ParsedNamesAreClean(Lines(file.value), 1);
    }
  }

  /** Recording the empty name makes a file unreadable, whatever else it says. */
  lemma {:induction false} NamelessFile(es: seq<Entry>, port: u16, number: nat)
    requires AllClean(es)
    ensures ReadLines(Lines(Print(es + [Entry("", port)])), number).Err?
    decreases |es|
  {
    var all := es + [Entry("", port)];
    if es == [] {
      assert all == [Entry("", port)];
      NamelessLine(port, number);
    } else {
      hide Words, Decimal, PrintEntry;
      assert all[0] == es[0] && all[1..] == es[1..] + [Entry("", port)];
      EntryRoundTrip(es[0], number);
      LineThenRest(PrintEntry(es[0]), Print(all[1..]));
      NamelessFile(es[1..], port, number + 1);
      var lines := Lines(Print(all));
      assert lines[0] == PrintEntry(es[0]) && lines[1..] == Lines(Print(all[1..]));
    }
  }

  /** Once the empty name, which is what an identifier without an ASCII letter or digit
      sanitizes to, has been given a port, no instance but the default one is ever given
      a port again, those already known included. This holds whatever the file said
      before and whatever names are asked for. */
  lemma EmptyNameBreaksFile(c: Config, log: Log, k: nat, later: nat)
    requires AreCalls(c, log) && k < later < |log.files|
    requires log.names[k] == "" && log.answers[k].Ok?
    ensures Parse(log.files[later]).Err? && log.files[later] == log.files[k + 1]
    ensures later < |log.names| && log.names[later] != "default" ==> log.answers[later].Err?
  {
    assert CallAt(c, log, k);
    EmptyNameIsRecorded(c, log.files[k], log.answers[k], log.files[k + 1]);
    hide Allocates, Parse;
    BrokenFileStaysBroken(c, log, k + 1, later);
  }

  lemma EmptyNameIsRecorded(c: Config, before: Option<string>, r: Result<u16, Failure>, after: Option<string>)
    requires Allocates(c, "", before, r, after) && r.Ok?
    ensures Parse(after).Err?
  {
    hide Lines, ReadLines, Print, Full, LeastFree;
    var es := Parse(before).value;
    ParsedFileIsClean(before);
    assert !Known(es, "");
    NamelessFile(es, r.value, 1);
  }

  lemma NamelessLine(port: u16, number: nat)
    ensures ReadLines(Lines(Print([Entry("", port)])), number).Err?
  {
    var line := ['\t'] + Decimal(port);
    forall i | 0 <= i < |line|
      ensures line[i] != '\n'
    {
      assert i > 0 ==> IsDigit(Decimal(port)[i - 1]);
    }
    assert Print([Entry("", port)]) == line + ['\n'] + [];
    LineThenRest(line, []);
    OneWord(port);
    assert IsDigit(Decimal(port)[0]);
  }

  lemma OneWord(port: u16)
    ensures Words(['\t'] + Decimal(port)) == [Decimal(port)]
  {
    var digits := Decimal(port);
    assert (['\t'] + digits)[1..] == digits;
    forall i | 0 <= i < |digits|
      ensures !IsSpace(digits[i])
    {
      assert IsDigit(digits[i]);
    }
    UntilFirst(digits, IsSpace, |digits|);
    assert digits[..|digits|] == digits && digits[|digits|..] == [];
    assert Words(digits) == [digits] + Words([]);
  }
}
