/** Several command lines at once over the one port file. Each reads the file, decides,
    and later writes the whole file anew from what it read; nothing holds the others off
    in between. Reading is one step and replacing the file is another. */
module PortRaces {
  import opened MachineInts
  import opened Wrappers
  import opened Strings
  import opened PortFile
  import opened PortAllocator

  /** A new name's port: what was read, and what was made of it. */
  datatype Grant = Grant(read: seq<Entry>, name: string, port: u16)

  /** The file, the command lines between reading and writing, and those that have
      written and returned their port. */
  datatype State = State(file: Option<string>, pending: seq<Grant>, granted: seq<Grant>)

  datatype Event = Reads(name: string, port: u16) | Writes(which: nat)

  const START: State := State(None, [], [])

  /** Only calls that come to write matter here: the others change nothing. */
  predicate Enabled(c: Config, s: State, e: Event) {
    match e
    case Reads(name, port) =>
      && Usable(name) && name != "default"
      && (match Parse(s.file)
          case Err(_) => false
          case Ok(es) => !Known(es, name) && LeastFree(c, es, port))
    case Writes(i) => i < |s.pending|
  }

  function Apply(c: Config, s: State, e: Event): State
    requires Enabled(c, s, e)
  {
    match e
    case Reads(name, port) => s.(pending := s.pending + [Grant(Parse(s.file).value, name, port)])
    case Writes(i) =>
      var g := s.pending[i];
      State(Some(Print(g.read + [Entry(g.name, g.port)])), s.pending[..i] + s.pending[i + 1..], s.granted + [g])
  }

  predicate StepAt(c: Config, run: seq<State>, events: seq<Event>, k: nat)
    requires k < |events| && |run| == |events| + 1
  {
    Enabled(c, run[k], events[k]) && run[k + 1] == Apply(c, run[k], events[k])
  }

  predicate IsRace(c: Config, run: seq<State>, events: seq<Event>) {
    |run| == |events| + 1 && run[0] == START && forall k | 0 <= k < |events| :: StepAt(c, run, events, k)
  }

  /** Reading and writing with nothing in between is one call, as `InstancePort` promises. */
  lemma UninterruptedCall(c: Config, s: State, name: string, port: u16)
    requires Enabled(c, s, Reads(name, port))
    ensures var after := Apply(c, Apply(c, s, Reads(name, port)), Writes(|s.pending|));
            && Allocates(c, name, s.file, Ok(port), after.file)
            && after.pending == s.pending
  {
    hide Parse, Print, Known, Eligible, Taken;
    assert s.pending[..|s.pending|] == s.pending;
    var es := Parse(s.file).value;
    assert LeastFree(c, es, port);
    assert !Full(c, es) by {
      LeastIsInRange(c, es, port);
    }
  }

  lemma LeastIsInRange(c: Config, es: seq<Entry>, p: int)
    requires LeastFree(c, es, p)
    ensures First(c) <= p <= Final(c) && Eligible(c, p) && !Taken(es, p)
  {
  }

  predicate GrantSound(c: Config, g: Grant) {
    && Orderly(c, g.read) && Usable(g.name) && g.name != "default" && !Known(g.read, g.name)
    && |g.read| < Capacity(c) && g.port == Nth(c, |g.read|)
  }

  predicate Inv(c: Config, s: State) {
    && Parse(s.file).Ok? && Orderly(c, Parse(s.file).value)
    && (forall i | 0 <= i < |s.pending| :: GrantSound(c, s.pending[i]))
    && (forall i | 0 <= i < |s.granted| :: GrantSound(c, s.granted[i]))
  }

  lemma ReadKeepsInv(c: Config, s: State, name: string, port: u16)
    requires Inv(c, s) && Enabled(c, s, Reads(name, port))
    ensures Inv(c, Apply(c, s, Reads(name, port)))
  {
    var es := Parse(s.file).value;
    OrderlyNext(c, es);
    LeastIsInRange(c, es, port);
    LeastIsNth(c, es, port);
    hide Parse, Known, Orderly, LeastFree, Nth, Capacity, Eligible, Taken, Usable;
    assert GrantSound(c, Grant(es, name, port));
    hide GrantSound;
  }

  lemma WriteKeepsInv(c: Config, s: State, i: nat)
    requires Inv(c, s) && Enabled(c, s, Writes(i))
    ensures Inv(c, Apply(c, s, Writes(i)))
  {
    hide Parse, Print, Known, Orderly, Nth, Capacity;
    var g := s.pending[i];
    assert GrantSound(c, g);
    OrderlyGrows(c, g.read, g.name, g.port);
    PrintParse(g.read + [Entry(g.name, g.port)]);
    hide GrantSound;
  }

  lemma {:induction false} RaceKeepsInv(c: Config, run: seq<State>, events: seq<Event>, k: nat)
    requires IsRace(c, run, events) && k < |run|
    ensures Inv(c, run[k])
    decreases k
  {
    if k > 0 {
      hide Inv, Enabled, Apply;
      RaceKeepsInv(c, run, events, k - 1);
      assert StepAt(c, run, events, k - 1);
      match events[k - 1]
      case Reads(name, port) => ReadKeepsInv(c, run[k - 1], name, port);
      case Writes(i) => WriteKeepsInv(c, run[k - 1], i);
    }
  }

  /** Exactly when two names are given one port: in every interleaving, if and only if the
      files the two command lines read listed equally many names. So always when
      both read before any other has written, and never when all calls are made one
      after the other. */
  lemma SamePortIff(c: Config, run: seq<State>, events: seq<Event>, k: nat, i: nat, j: nat)
    requires IsRace(c, run, events) && k < |run| && i < |run[k].granted| && j < |run[k].granted|
    ensures var (g, h) := (run[k].granted[i], run[k].granted[j]);
            g.port == h.port <==> |g.read| == |h.read|
  {
    RaceKeepsInv(c, run, events, k);
    var (g, h) := (run[k].granted[i], run[k].granted[j]);
    assert GrantSound(c, g) && GrantSound(c, h);
    hide Nth, Capacity, Orderly, Usable, Known;
    NthEligible(c, |g.read|, |h.read|);
    NthEligible(c, |h.read|, |g.read|);
  }

  /** The file itself never lists a port twice, and always parses: it is the names that
      are lost. What it lists at the end is what the last writer read and its own. */
  lemma LastWriterWins(c: Config, run: seq<State>, events: seq<Event>, k: nat)
    requires IsRace(c, run, events) && k < |run|
    ensures Parse(run[k].file).Ok? && Orderly(c, Parse(run[k].file).value)
    ensures run[k].granted != [] ==>
              var g := run[k].granted[|run[k].granted| - 1];
              Parse(run[k].file) == Ok(g.read + [Entry(g.name, g.port)])
    decreases k
  {
    hide Inv, Parse, Print, Orderly, Known, LeastFree, Usable;
    RaceKeepsInv(c, run, events, k);
    InvParses(c, run[k]);
    if k > 0 {
      LastWriterWins(c, run, events, k - 1);
      assert StepAt(c, run, events, k - 1);
      if events[k - 1].Writes? {
        RaceKeepsInv(c, run, events, k - 1);
        PendingIsPrintable(c, run[k - 1], events[k - 1].which);
      }
    }
  }

  lemma InvParses(c: Config, s: State)
    requires Inv(c, s)
    ensures Parse(s.file).Ok? && Orderly(c, Parse(s.file).value)
  {
  }

  lemma PendingIsPrintable(c: Config, s: State, i: nat)
    requires Inv(c, s) && i < |s.pending|
    ensures var g := s.pending[i]; var es := g.read + [Entry(g.name, g.port)];
            Parse(Some(Print(es))) == Ok(es)
  {
    hide Parse, Print, Known, Orderly, Nth, Capacity;
    var g := s.pending[i];
    assert GrantSound(c, g);
    OrderlyGrows(c, g.read, g.name, g.port);
    PrintParse(g.read + [Entry(g.name, g.port)]);
  }

  /** The shortest such race: two names asked for on a fresh machine at the same time are
      given the same port, and only the later one is remembered. */
  lemma TwoNamesOnePort(c: Config, a: string, b: string)
    requires Clean(a) && Clean(b) && a != b && a != "default" && b != "default" && Capacity(c) > 0
    ensures var p := Nth(c, 0);
            exists run: seq<State> ::
                          && IsRace(c, run, [Reads(a, p), Reads(b, p), Writes(0), Writes(0)])
                          && run[4].granted == [Grant([], a, p), Grant([], b, p)]
                          && Parse(run[4].file) == Ok([Entry(b, p)])
  {
    var p: u16 := FirstPort(c);
    FirstIsLeast(c);
    var (ga, gb) := (Grant([], a, p), Grant([], b, p));
    var (s1, s2) := (State(None, [ga], []), State(None, [ga, gb], []));
    var (s3, s4) := (State(Some(Print([Entry(a, p)])), [gb], [ga]), State(Some(Print([Entry(b, p)])), [], [ga, gb]));
    hide Parse, Print, LeastFree, Nth, Capacity, Enabled, Apply, Clean, IsRace;
    assert [] + [ga] == [ga] && [ga] + [gb] == [ga, gb];
    FreshRead(c, START, a, p);
    FreshRead(c, s1, b, p);
    FirstWrite(c, a, b, p);
    SecondWrite(c, ga, b, p);
    FourSteps(c, [START, s1, s2, s3, s4], [Reads(a, p), Reads(b, p), Writes(0), Writes(0)]);
    OnlyEntry(b, p);
  }

  lemma FourSteps(c: Config, run: seq<State>, events: seq<Event>)
    requires |run| == 5 && |events| == 4 && run[0] == START
    requires Enabled(c, run[0], events[0]) && run[1] == Apply(c, run[0], events[0])
    requires Enabled(c, run[1], events[1]) && run[2] == Apply(c, run[1], events[1])
    requires Enabled(c, run[2], events[2]) && run[3] == Apply(c, run[2], events[2])
    requires Enabled(c, run[3], events[3]) && run[4] == Apply(c, run[3], events[3])
    ensures IsRace(c, run, events)
  {
    hide Enabled, Apply;
  }

  lemma OnlyEntry(name: string, p: u16)
    requires Clean(name)
    ensures Parse(Some(Print([Entry(name, p)]))) == Ok([Entry(name, p)])
  {
    PrintParse([Entry(name, p)]);
  }

  lemma FreshRead(c: Config, s: State, name: string, p: u16)
    requires s.file == None && Clean(name) && name != "default" && LeastFree(c, [], p)
    ensures Enabled(c, s, Reads(name, p))
    ensures Apply(c, s, Reads(name, p)) == s.(pending := s.pending + [Grant([], name, p)])
  {
    hide LeastFree, Clean;
    assert Parse(None) == Ok([]) && !Known([], name);
  }

  lemma FirstWrite(c: Config, a: string, b: string, p: u16)
    ensures var (ga, gb) := (Grant([], a, p), Grant([], b, p)); var s := State(None, [ga, gb], []);
            Enabled(c, s, Writes(0)) && Apply(c, s, Writes(0)) == State(Some(Print([Entry(a, p)])), [gb], [ga])
  {
    hide Print;
    assert [] + [Entry(a, p)] == [Entry(a, p)];
  }

  lemma SecondWrite(c: Config, ga: Grant, b: string, p: u16)
    ensures var gb := Grant([], b, p); var s := State(Some(Print([Entry(ga.name, p)])), [gb], [ga]);
            Enabled(c, s, Writes(0)) && Apply(c, s, Writes(0)) == State(Some(Print([Entry(b, p)])), [], [ga, gb])
  {
    hide Print;
    assert [] + [Entry(b, p)] == [Entry(b, p)];
  }

  function FirstPort(c: Config): (p: u16)
    requires Capacity(c) > 0
    ensures p == Nth(c, 0)
  {
    Nth(c, 0)
  }

  lemma FirstIsLeast(c: Config)
    requires Capacity(c) > 0
    ensures LeastFree(c, [], Nth(c, 0))
  {
    NthEligible(c, 0, 0);
  }
}
