/** The text file that remembers which instance has which port: one line each, name
    and port. It is printed and parsed again on every call, and may be edited by hand. */
module PortFile {
  import opened MachineInts
  import opened Wrappers
  import opened Strings

  datatype Entry = Entry(name: string, port: u16)

  // ---- numbers ----------------------------------------------------------------------------

  function Digit(n: nat): (c: char)
    requires n < 10
    ensures IsDigit(c)
  {
    '0' + n as char
  }

  function Decimal(n: nat): (s: string)
    ensures s != [] && forall i | 0 <= i < |s| :: IsDigit(s[i])
  {
    if n < 10 then [Digit(n)] else Decimal(n / 10) + [Digit(n % 10)]
  }

  function ParseDigits(s: string): Option<nat> {
    if s == [] then Some(0)
    else if !IsDigit(s[|s| - 1]) then None
    else
      match ParseDigits(s[..|s| - 1])
      case None => None
      case Some(high) => Some(10 * high + (s[|s| - 1] as int - '0' as int))
  }

  /** Rust's `u16::from_str`: an optional plus sign, at least one digit, no overflow. */
  function ParseU16(s: string): Option<u16> {
    var digits := if s != [] && s[0] == '+' then s[1..] else s;
    if digits == [] then None
    else
      match ParseDigits(digits)
      case None => None
      case Some(n) => if n < TWO_16 then Some(n) else None
  }

  lemma {:induction false} ParseDecimal(n: nat)
    ensures ParseDigits(Decimal(n)) == Some(n)
  {
    if n >= 10 {
      ParseDecimal(n / 10);
      var s := Decimal(n / 10) + [Digit(n % 10)];
      assert s[..|s| - 1] == Decimal(n / 10);
    } else {
      assert [Digit(n)][..0] == [];
    }
  }

  lemma PortRoundTrip(port: u16)
    ensures ParseU16(Decimal(port)) == Some(port)
  {
    ParseDecimal(port);
    assert IsDigit(Decimal(port)[0]);
  }

  /** A number is read back, with a plus sign or without, exactly when it fits 16 bits. */
  lemma ReadsWhatFits(n: nat)
    ensures ParseU16(Decimal(n)) == if n < 0x1_0000 then Some(n) else None
    ensures ParseU16("+" + Decimal(n)) == if n < 0x1_0000 then Some(n) else None
  {
    ParseDecimal(n);
    assert IsDigit(Decimal(n)[0]);
    assert ("+" + Decimal(n))[1..] == Decimal(n);
  }

  /** Digits come most significant first. */
  lemma DecimalSample()
    ensures Decimal(5712) == "5712"
  {
    assert Decimal(5) == "5" && Decimal(57) == "57" && Decimal(571) == "571";
  }

  // ---- the file -----------------------------------------------------------------------------

  datatype FileError = MissingPort(line: nat) | ExtraField(line: nat) | BadPort(line: nat)

  datatype LineMeaning = Skip | Means(entry: Entry) | Wrong(error: FileError)

  /** One line. Trimming it first, as the program does, removes nothing that splitting
      would keep: a blank line has no words, a comment's first word starts with #. */
  function ReadLine(line: string, number: nat): LineMeaning {
    var words := Words(line);
    if words == [] || words[0][0] == '#' then Skip
    else if |words| == 1 then Wrong(MissingPort(number))
    else if |words| > 2 then Wrong(ExtraField(number))
    else
      match ParseU16(words[1])
      case None => Wrong(BadPort(number))
      case Some(port) => Means(Entry(words[0], port))
  }

  function ReadLines(lines: seq<string>, number: nat): Result<seq<Entry>, FileError> {
    if lines == [] then Ok([])
    else
      match ReadLine(lines[0], number)
      case Wrong(e) => Err(e)
      case Skip => ReadLines(lines[1..], number + 1)
      case Means(entry) =>
        match ReadLines(lines[1..], number + 1)
        case Err(e) => Err(e)
        case Ok(es) => Ok([entry] + es)
  }

  /** What the file says; a missing file says nothing. */
  function Parse(file: Option<string>): Result<seq<Entry>, FileError> {
    match file
    case None => Ok([])
    case Some(text) => ReadLines(Lines(text), 1)
  }

  function PrintEntry(e: Entry): string { e.name + ['\t'] + Decimal(e.port) }

  function Print(es: seq<Entry>): string {
    if es == [] then [] else PrintEntry(es[0]) + ['\n'] + Print(es[1..])
  }

  /** A name that survives the file: something, without white space, not a comment. */
  predicate Clean(name: string) { IsWord(name) && name[0] != '#' }

  predicate AllClean(es: seq<Entry>) { forall i | 0 <= i < |es| :: Clean(es[i].name) }

  lemma EntryRoundTrip(e: Entry, number: nat)
    requires Clean(e.name)
    ensures ReadLine(PrintEntry(e), number) == Means(e)
    ensures forall i | 0 <= i < |PrintEntry(e)| :: PrintEntry(e)[i] != '\n'
  {
    assert IsWord(Decimal(e.port)) by {
      forall i | 0 <= i < |Decimal(e.port)|
        ensures !IsSpace(Decimal(e.port)[i])
      {
        assert IsDigit(Decimal(e.port)[i]);
      }
    }
    TwoWords(e.name, Decimal(e.port));
    PortRoundTrip(e.port);
    hide Decimal, Words, ParseU16;
    forall i | 0 <= i < |PrintEntry(e)|
      ensures PrintEntry(e)[i] != '\n'
    {
      assert i < |e.name| ==> !IsSpace(e.name[i]);
      assert i > |e.name| ==> !IsSpace(Decimal(e.port)[i - |e.name| - 1]);
    }
  }

  lemma {:induction false} CleanFileParses(es: seq<Entry>, number: nat)
    requires AllClean(es)
    ensures ReadLines(Lines(Print(es)), number) == Ok(es)
    decreases |es|
  {
    if es != [] {
      hide Words, Decimal, PrintEntry;
      EntryRoundTrip(es[0], number);
      LineThenRest(PrintEntry(es[0]), Print(es[1..]));
      CleanFileParses(es[1..], number + 1);
      var lines := Lines(Print(es));
      assert lines[0] == PrintEntry(es[0]) && lines[1..] == Lines(Print(es[1..]));
      assert es == [es[0]] + es[1..];
    }
  }

  lemma {:induction false} ParsedNamesAreClean(lines: seq<string>, number: nat)
    requires ReadLines(lines, number).Ok?
    ensures AllClean(ReadLines(lines, number).value)
    decreases |lines|
  {
    if lines != [] {
      hide Words, ParseU16;
      ParsedNamesAreClean(lines[1..], number + 1);
    }
  }

  /** A printed list reads back as itself if and only if every name in it is clean. */
  lemma PrintParse(es: seq<Entry>)
    ensures Parse(Some(Print(es))) == Ok(es) <==> AllClean(es)
  {
    hide ReadLines, Lines, Print;
    if AllClean(es) {
      CleanFileParses(es, 1);
    }
    if Parse(Some(Print(es))) == Ok(es) {
      ParsedNamesAreClean(Lines(Print(es)), 1);
    }
  }

  /** The whole outcome is what was read so far and the outcome of the rest. */
  predicate Joins(whole: Result<seq<Entry>, FileError>, sofar: seq<Entry>, rest: Result<seq<Entry>, FileError>) {
    match rest
    case Ok(es) => whole == Ok(sofar + es)
    case Err(e) => whole == Err(e)
  }

  /** Parses line by line, as the program does. */
  method ReadInstancePorts(file: Option<string>) returns (r: Result<seq<Entry>, FileError>)
    ensures r == Parse(file)
  {
    hide ReadLine, Lines;
    if file.None? { return Ok([]); }
    var lines := Lines(file.value);
    var entries: seq<Entry> := [];
    assert lines[0..] == lines;
    ghost var whole := ReadLines(lines, 1);
    assert whole.Ok? ==> [] + whole.value == whole.value;
    for i := 0 to |lines|
      invariant Joins(Parse(file), entries, ReadLines(lines[i..], i + 1))
    {
      match ReadLine(lines[i], i + 1) {
        case Wrong(e) => return Err(e);
        case Skip =>
        case Means(entry) =>
          ghost var rest := ReadLines(lines[i + 1..], i + 2);
          assert rest.Ok? ==> entries + ([entry] + rest.value) == (entries + [entry]) + rest.value;
          entries := entries + [entry];
      }
      assert lines[i..][1..] == lines[i + 1..];
    }
    assert entries + [] == entries;
    return Ok(entries);
  }

  /** Builds the text entry by entry. */
  method WriteInstancePorts(entries: seq<Entry>) returns (text: string)
    ensures text == Print(entries)
  {
    text := "";
    for i := 0 to |entries|
      invariant text + Print(entries[i..]) == Print(entries)
    {
      assert entries[i..][1..] == entries[i + 1..];
      assert text + (PrintEntry(entries[i]) + ['\n'] + Print(entries[i + 1..]))
          == text + PrintEntry(entries[i]) + ['\n'] + Print(entries[i + 1..]);
      text := text + PrintEntry(entries[i]) + ['\n'];
    }
    assert text + [] == text;
  }

  // ---- names from identifiers --------------------------------------------------------------

  function Dashed(value: string): (s: string)
    ensures |s| == |value|
    ensures forall i | 0 <= i < |s| :: s[i] == if IsAlnum(value[i]) then value[i] else '-'
  {
    if value == [] then [] else [if IsAlnum(value[0]) then value[0] else '-'] + Dashed(value[1..])
  }

  function TrimStart(s: string): string {
    if s != [] && s[0] == '-' then TrimStart(s[1..]) else s
  }

  function TrimEnd(s: string): string {
    if s != [] && s[|s| - 1] == '-' then TrimEnd(s[..|s| - 1]) else s
  }

  function SanitizeId(value: string): string { TrimEnd(TrimStart(Dashed(value))) }

  predicate DashOrAlnum(s: string) { forall i | 0 <= i < |s| :: IsAlnum(s[i]) || s[i] == '-' }

  predicate HasAlnum(s: string) { exists i :: 0 <= i < |s| && IsAlnum(s[i]) }

  lemma {:induction false} TrimStartKeeps(s: string)
    requires DashOrAlnum(s)
    ensures DashOrAlnum(TrimStart(s)) && (HasAlnum(TrimStart(s)) <==> HasAlnum(s))
    ensures TrimStart(s) != [] ==> IsAlnum(TrimStart(s)[0])
    decreases |s|
  {
    if s != [] && s[0] == '-' {
      TrimStartKeeps(s[1..]);
      if HasAlnum(s) {
        var i :| 0 <= i < |s| && IsAlnum(s[i]);
        assert s[1..][i - 1] == s[i];
      }
    }
  }

  lemma {:induction false} TrimEndKeeps(s: string)
    requires DashOrAlnum(s)
    ensures DashOrAlnum(TrimEnd(s)) && (HasAlnum(TrimEnd(s)) <==> HasAlnum(s))
    ensures TrimEnd(s) <= s
    decreases |s|
  {
    if s != [] && s[|s| - 1] == '-' {
      var init := s[..|s| - 1];
      TrimEndKeeps(init);
      if HasAlnum(s) {
        var i :| 0 <= i < |s| && IsAlnum(s[i]);
        assert init[i] == s[i];
      }
    }
  }

  /** A sanitized identifier is a clean name exactly when the identifier has an ASCII
      letter or digit; otherwise it is empty. */
  lemma SanitizedIsCleanIff(value: string)
    ensures Clean(SanitizeId(value)) <==> HasAlnum(value)
    ensures SanitizeId(value) == [] <==> !HasAlnum(value)
  {
    var dashed := Dashed(value);
    assert DashOrAlnum(dashed);
    assert HasAlnum(dashed) <==> HasAlnum(value) by {
      if HasAlnum(value) {
        var i :| 0 <= i < |value| && IsAlnum(value[i]);
        assert IsAlnum(dashed[i]);
      }
    }
    TrimStartKeeps(dashed);
    TrimEndKeeps(TrimStart(dashed));
    hide Dashed, TrimStart, TrimEnd;
  }

  lemma {:induction false} TrimStartTo(s: string, i: nat)
    requires i < |s| && s[i] != '-' && forall k | 0 <= k < i :: s[k] == '-'
    ensures TrimStart(s) == s[i..]
  {
    if i > 0 {
      TrimStartTo(s[1..], i - 1);
      assert s[1..][i - 1..] == s[i..];
    }
  }

  lemma {:induction false} TrimEndTo(s: string, j: nat)
    requires j < |s| && s[j] != '-' && forall k | j < k < |s| :: s[k] == '-'
    ensures TrimEnd(s) == s[..j + 1]
    decreases |s|
  {
    if j < |s| - 1 {
      TrimEndTo(s[..|s| - 1], j);
    }
  }

  /** The sanitized identifier is the stretch from the first to the last ASCII letter or
      digit, with a dash for every other character in it. */
  lemma SanitizedIs(value: string, i: nat, j: nat)
    requires i <= j < |value| && IsAlnum(value[i]) && IsAlnum(value[j])
    requires (forall k | 0 <= k < i :: !IsAlnum(value[k])) && (forall k | j < k < |value| :: !IsAlnum(value[k]))
    ensures |SanitizeId(value)| == j - i + 1
    ensures forall k | 0 <= k <= j - i ::
              SanitizeId(value)[k] == if IsAlnum(value[i + k]) then value[i + k] else '-'
  {
    hide Dashed, TrimStart, TrimEnd;
    var dashed := Dashed(value);
    assert |dashed| == |value|;
    TrimStartTo(dashed, i);
    TrimEndTo(dashed[i..], j - i);
  }
}
