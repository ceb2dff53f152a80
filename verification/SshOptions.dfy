/** The ssh options the CLI decides on once and hands to two back ends: the argument
    vector of a spawned process, and a command line for a shell to split. */
module SshOptions {
  import opened MachineInts
  import opened Wrappers
  import opened Strings
  import opened Shell

  // ---- operating-system strings -----------------------------------------------------------

  /** A character, or a run of bytes that is not UTF-8 (one maximal ill-formed subpart). */
  datatype Unit = Ch(c: char) | Ill(bytes: Bytes)

  type OsString = seq<Unit>

  predicate IsUnicode(v: OsString) { forall i | 0 <= i < |v| :: v[i].Ch? }

  /** What is not UTF-8 becomes the replacement character. */
  function Lossy(v: OsString): string {
    seq(|v|, i requires 0 <= i < |v| => if v[i].Ch? then v[i].c else '\U{FFFD}')
  }

  function Os(s: string): OsString { seq(|s|, i requires 0 <= i < |s| => Ch(s[i])) }

  lemma LossyKeepsIff(v: OsString)
    ensures Os(Lossy(v)) == v <==> IsUnicode(v)
  {
    if Os(Lossy(v)) == v {
      forall i | 0 <= i < |v|
        ensures v[i].Ch?
      {
        assert Os(Lossy(v))[i] == v[i];
      }
    }
  }

  lemma OsBack(s: string)
    ensures Lossy(Os(s)) == s && IsUnicode(Os(s))
  {
  }

  // ---- the options ----------------------------------------------------------------------------

  datatype Options = Options(flags: seq<(string, OsString)>, env: seq<(string, OsString)>)

  datatype Creds = Creds(identityFile: Option<OsString>, keychainAccount: Option<string>)

  function BuildOptions(creds: Creds, askpassHelper: Option<OsString>, displaySet: bool): Options {
    var identity :=
      if creds.identityFile.None? then []
      else [("-i", creds.identityFile.value), ("-o", Os("IdentitiesOnly=yes"))];
    if creds.keychainAccount.None? || askpassHelper.None? then Options(identity, [])
    else
      Options(
        identity
        + [("-o", Os("PreferredAuthentications=password,keyboard-interactive,publickey")),
           ("-o", Os("NumberOfPasswordPrompts=1")),
           ("-o", Os("PubkeyAuthentication=no"))],
        [("SSH_ASKPASS", askpassHelper.value),
         ("SSH_ASKPASS_REQUIRE", Os("force")),
         ("VBOX_ASKPASS_ACCOUNT", Os(creds.keychainAccount.value))]
        + (if displaySet then [] else [("DISPLAY", Os(":0"))]))
  }

  predicate IsEnvName(k: string) {
    k != [] && !IsDigit(k[0]) && forall i | 0 <= i < |k| :: IsAlnum(k[i]) || k[i] == '_'
  }

  predicate IsBareWord(w: string) { w != [] && forall i | 0 <= i < |w| :: IsPlain(w[i]) && w[i] != '=' }

  /** The names a caller may use: the program writes them out, unquoted. */
  predicate WellNamed(o: Options) {
    && (forall i | 0 <= i < |o.env| :: IsEnvName(o.env[i].0))
    && (forall i | 0 <= i < |o.flags| :: IsBareWord(o.flags[i].0))
  }

  lemma OptionNames()
    ensures IsEnvName("SSH_ASKPASS") && IsEnvName("SSH_ASKPASS_REQUIRE") && IsEnvName("VBOX_ASKPASS_ACCOUNT")
        && IsEnvName("DISPLAY")
    ensures IsBareWord("-i") && IsBareWord("-o") && IsBareWord("ssh")
  {
  }

  lemma BuiltOptionsWellNamed(creds: Creds, askpassHelper: Option<OsString>, displaySet: bool)
    ensures WellNamed(BuildOptions(creds, askpassHelper, displaySet))
  {
    hide Os, IsEnvName, IsBareWord;
    OptionNames();
  }

  // ---- the first back end: a process ------------------------------------------------------------

  function FlagArgs(flags: seq<(string, OsString)>): seq<OsString> {
    if flags == [] then [] else [Os(flags[0].0), flags[0].1] + FlagArgs(flags[1..])
  }

  /** Setting variables one after the other; a later value replaces an earlier one. */
  function SetAll(env: map<string, OsString>, vars: seq<(string, OsString)>): map<string, OsString>
    decreases |vars|
  {
    if vars == [] then env else SetAll(env[vars[0].0 := vars[0].1], vars[1..])
  }

  class ProcessCommand {
    const program: string
    var env: map<string, OsString>
    var args: seq<OsString>

    constructor (program: string, env: map<string, OsString>)
      ensures this.program == program && this.env == env && args == []
    {
      this.program, this.env, args := program, env, [];
    }

    method Env(key: string, value: OsString)
      modifies this`env
      ensures env == old(env)[key := value]
    {
      env := env[key := value];
    }

    method Arg(value: OsString)
      modifies this`args
      ensures args == old(args) + [value]
    {
      args := args + [value];
    }
  }

  method ApplyToCommand(o: Options, cmd: ProcessCommand)
    modifies cmd
    ensures cmd.env == SetAll(old(cmd.env), o.env)
    ensures cmd.args == old(cmd.args) + FlagArgs(o.flags)
  {
    for i := 0 to |o.env|
      invariant SetAll(cmd.env, o.env[i..]) == SetAll(old(cmd.env), o.env)
      invariant cmd.args == old(cmd.args)
    {
      assert o.env[i..][0] == o.env[i] && o.env[i..][1..] == o.env[i + 1..];
      cmd.Env(o.env[i].0, o.env[i].1);
    }
    for i := 0 to |o.flags|
      invariant cmd.env == SetAll(old(cmd.env), o.env)
      invariant cmd.args + FlagArgs(o.flags[i..]) == old(cmd.args) + FlagArgs(o.flags)
    {
      ghost var before := cmd.args;
      assert o.flags[i..][0] == o.flags[i] && o.flags[i..][1..] == o.flags[i + 1..];
      cmd.Arg(Os(o.flags[i].0));
      cmd.Arg(o.flags[i].1);
      assert cmd.args + FlagArgs(o.flags[i + 1..]) == before + FlagArgs(o.flags[i..]);
    }
  }

  /** The variables ssh finds: with an account and a helper those that make it ask the
      helper, and a display if there was none; nothing else differs from `before`. */
  ghost predicate AskpassEnv(
    before: map<string, OsString>, after: map<string, OsString>, helper: OsString, account: string, displaySet: bool)
  {
    && "SSH_ASKPASS" in after && after["SSH_ASKPASS"] == helper
    && "SSH_ASKPASS_REQUIRE" in after && after["SSH_ASKPASS_REQUIRE"] == Os("force")
    && "VBOX_ASKPASS_ACCOUNT" in after && after["VBOX_ASKPASS_ACCOUNT"] == Os(account)
    && (!displaySet ==> "DISPLAY" in after && after["DISPLAY"] == Os(":0"))
    && forall k | k !in ["SSH_ASKPASS", "SSH_ASKPASS_REQUIRE", "VBOX_ASKPASS_ACCOUNT"]
                  && (k != "DISPLAY" || displaySet) ::
         (k in after <==> k in before) && (k in before ==> after[k] == before[k])
  }

  /** What the process back end makes of the built options: the key file and nothing but
      it when there is one; no environment and no more without both an account and a
      helper; with both, passwords only, asked for once, through the helper. */
  lemma BuiltCommand(creds: Creds, askpassHelper: Option<OsString>, displaySet: bool, before: map<string, OsString>)
    ensures var o := BuildOptions(creds, askpassHelper, displaySet);
            var after := SetAll(before, o.env);
            var args := FlagArgs(o.flags);
            var k := if creds.identityFile.Some? then 4 else 0;
            && |args| >= k
            && (creds.identityFile.Some? ==>
                 args[..4] == [Os("-i"), creds.identityFile.value, Os("-o"), Os("IdentitiesOnly=yes")])
            && if creds.keychainAccount.None? || askpassHelper.None? then args[k..] == [] && after == before
               else
                 && args[k..] == [Os("-o"), Os("PreferredAuthentications=password,keyboard-interactive,publickey"),
                                  Os("-o"), Os("NumberOfPasswordPrompts=1"),
                                  Os("-o"), Os("PubkeyAuthentication=no")]
                 && AskpassEnv(before, after, askpassHelper.value, creds.keychainAccount.value, displaySet)
  {
    hide Os, SetAll;
    var o := BuildOptions(creds, askpassHelper, displaySet);
    if creds.keychainAccount.Some? && askpassHelper.Some? {
      AskpassSet(before, askpassHelper.value, creds.keychainAccount.value, displaySet);
      var k := if creds.identityFile.Some? then 2 else 0;
      assert o.flags[k..] == [("-o", Os("PreferredAuthentications=password,keyboard-interactive,publickey")),
                              ("-o", Os("NumberOfPasswordPrompts=1")), ("-o", Os("PubkeyAuthentication=no"))];
      ThreeFlags(o.flags[k..]);
      IdentityFlags(o.flags, k);
    } else {
      NoneSet(before);
      IdentityFlags(o.flags, |o.flags|);
    }
  }

  lemma NoneSet(before: map<string, OsString>)
    ensures SetAll(before, []) == before
  {
  }

  lemma ThreeFlags(flags: seq<(string, OsString)>)
    requires |flags| == 3
    ensures FlagArgs(flags)
         == [Os(flags[0].0), flags[0].1, Os(flags[1].0), flags[1].1, Os(flags[2].0), flags[2].1]
  {
    hide Os;
    assert FlagArgs(flags[1..][1..][1..]) == [];
    assert FlagArgs(flags[1..][1..]) == [Os(flags[2].0), flags[2].1];
    assert FlagArgs(flags[1..]) == [Os(flags[1].0), flags[1].1] + FlagArgs(flags[1..][1..]);
  }

  lemma IdentityFlags(flags: seq<(string, OsString)>, k: nat)
    requires k <= |flags| && (k == 0 || k == 2)
    ensures |FlagArgs(flags)| >= 2 * k && FlagArgs(flags)[2 * k..] == FlagArgs(flags[k..])
    ensures k == 2 ==> FlagArgs(flags)[..4] == [Os(flags[0].0), flags[0].1, Os(flags[1].0), flags[1].1]
  {
    hide Os;
    if k == 0 {
      assert flags[0..] == flags;
    } else {
      assert flags[1..][1..] == flags[2..];
      assert FlagArgs(flags[1..]) == [Os(flags[1].0), flags[1].1] + FlagArgs(flags[2..]);
    }
  }

  lemma AskpassSet(before: map<string, OsString>, helper: OsString, account: string, displaySet: bool)
    ensures var env := [("SSH_ASKPASS", helper), ("SSH_ASKPASS_REQUIRE", Os("force")),
                        ("VBOX_ASKPASS_ACCOUNT", Os(account))]
                       + (if displaySet then [] else [("DISPLAY", Os(":0"))]);
            AskpassEnv(before, SetAll(before, env), helper, account, displaySet)
  {
    hide Os;
    var env := [("SSH_ASKPASS", helper), ("SSH_ASKPASS_REQUIRE", Os("force")), ("VBOX_ASKPASS_ACCOUNT", Os(account))]
      + (if displaySet then [] else [("DISPLAY", Os(":0"))]);
    var e1 := before["SSH_ASKPASS" := helper];
    var e2 := e1["SSH_ASKPASS_REQUIRE" := Os("force")];
    var e3 := e2["VBOX_ASKPASS_ACCOUNT" := Os(account)];
    assert SetAll(before, env) == SetAll(e1, env[1..]);
    assert SetAll(e1, env[1..]) == SetAll(e2, env[2..]) by { assert env[1..][1..] == env[2..]; }
    assert SetAll(e2, env[2..]) == SetAll(e3, env[3..]) by { assert env[2..][1..] == env[3..]; }
    if displaySet {
      assert env[3..] == [] && SetAll(before, env) == e3;
    } else {
      var e4 := e3["DISPLAY" := Os(":0")];
      assert env[3..] == [("DISPLAY", Os(":0"))];
      assert SetAll(e3, env[3..]) == SetAll(e4, env[3..][1..]) && env[3..][1..] == [];
      assert SetAll(before, env) == e4;
    }
  }

  // ---- the second back end: a command line --------------------------------------------------------

  function ShellQuote(v: OsString): string { Quote(Lossy(v)) }

  function EnvPrefix(env: seq<(string, OsString)>): string {
    if env == [] then "" else env[0].0 + "=" + ShellQuote(env[0].1) + " " + EnvPrefix(env[1..])
  }

  function FlagText(flags: seq<(string, OsString)>): string {
    if flags == [] then "" else " " + flags[0].0 + " " + ShellQuote(flags[0].1) + FlagText(flags[1..])
  }

  function ShellString(o: Options, program: string): string { EnvPrefix(o.env) + program + FlagText(o.flags) }

  lemma FlagTextStep(opts: string, flag: string, value: string, rest: string)
    ensures opts + (" " + flag + " " + value + rest) == opts + " " + flag + " " + value + rest
  {
  }

  method ToShellString(o: Options, program: string) returns (s: string)
    ensures s == ShellString(o, program)
  {
    hide ShellQuote;
    var envPrefix := EnvPrefix(o.env);
    var opts := "";
    for i := 0 to |o.flags|
      invariant opts + FlagText(o.flags[i..]) == FlagText(o.flags)
    {
      ghost var rest := FlagText(o.flags[i + 1..]);
      assert o.flags[i..][1..] == o.flags[i + 1..];
      var (flag, value) := (o.flags[i].0, ShellQuote(o.flags[i].1));
      FlagTextStep(opts, flag, value, rest);
      assert FlagText(o.flags[i..]) == " " + flag + " " + value + rest;
      opts := opts + " " + flag + " " + value;
    }
    assert opts + "" == opts;
    s := envPrefix + program + opts;
  }

  // ---- they mean the same ------------------------------------------------------------------------

  function EnvWord(v: (string, OsString)): Word { Marked(v.0 + "=", false) + Marked(Lossy(v.1), true) }

  function EnvWords(env: seq<(string, OsString)>): seq<Word> {
    if env == [] then [] else [EnvWord(env[0])] + EnvWords(env[1..])
  }

  function FlagWords(flags: seq<(string, OsString)>): seq<Word> {
    if flags == [] then [] else [Marked(flags[0].0, false), Marked(Lossy(flags[0].1), true)] + FlagWords(flags[1..])
  }

  function Tokens(words: seq<Word>): seq<Token> { seq(|words|, i requires 0 <= i < |words| => W(words[i])) }

  function Prepend(ts: seq<Token>, rest: Option<seq<Token>>): Option<seq<Token>> {
    match rest case None => None case Some(more) => Some(ts + more)
  }

  lemma LexEnvVar(v: (string, OsString), rest: string)
    requires IsEnvName(v.0)
    ensures Lex(v.0 + "=" + ShellQuote(v.1) + " " + rest, None) == Emit(Some(EnvWord(v)), Lex(rest, None))
  {
    hide Lex, Marked, Quote;
    var name := v.0 + "=";
    var value := Lossy(v.1);
    assert v.0 + "=" + ShellQuote(v.1) + " " + rest == name + (Quote(value) + (" " + rest));
    LexPlain(name, Quote(value) + (" " + rest), None);
    LexQuoted(value, " " + rest, Add(None, Marked(name, false)));
    LexSpace(rest, Some(EnvWord(v)));
    assert [] + Marked(name, false) == Marked(name, false);
  }

  lemma {:induction false} LexEnvPrefix(env: seq<(string, OsString)>, rest: string)
    requires forall i | 0 <= i < |env| :: IsEnvName(env[i].0)
    ensures Lex(EnvPrefix(env) + rest, None) == Prepend(Tokens(EnvWords(env)), Lex(rest, None))
    decreases |env|
  {
    hide Lex, EnvWord, ShellQuote, IsEnvName;
    if env == [] {
      assert EnvPrefix(env) + rest == rest;
      assert Lex(rest, None).Some? ==> [] + Lex(rest, None).value == Lex(rest, None).value;
    } else {
      assert EnvPrefix(env) + rest == env[0].0 + "=" + ShellQuote(env[0].1) + " " + (EnvPrefix(env[1..]) + rest);
      LexEnvVar(env[0], EnvPrefix(env[1..]) + rest);
      LexEnvPrefix(env[1..], rest);
      assert Tokens(EnvWords(env)) == [W(EnvWord(env[0]))] + Tokens(EnvWords(env[1..]));
      assert Lex(rest, None).Some? ==>
          [W(EnvWord(env[0]))] + (Tokens(EnvWords(env[1..])) + Lex(rest, None).value)
          == Tokens(EnvWords(env)) + Lex(rest, None).value;
    }
  }

  lemma LexWordSpace(w: string, rest: string)
    requires IsBareWord(w)
    ensures Lex(w + " " + rest, None) == Emit(Some(Marked(w, false)), Lex(rest, None))
  {
    hide Lex, Marked;
    assert w + " " + rest == w + (" " + rest);
    LexPlain(w, " " + rest, None);
    assert [] + Marked(w, false) == Marked(w, false);
    LexSpace(rest, Some(Marked(w, false)));
  }

  lemma LexFlag(flag: string, value: string, rest: string, word: Word)
    requires IsBareWord(flag)
    ensures Lex(" " + flag + " " + Quote(value) + rest, Some(word))
         == Emit(Some(word), Emit(Some(Marked(flag, false)), Lex(rest, Some(Marked(value, true)))))
  {
    hide Lex, Marked, Quote, Emit;
    assert " " + flag + " " + Quote(value) + rest == " " + (flag + " " + (Quote(value) + rest));
    LexSpace(flag + " " + (Quote(value) + rest), Some(word));
    LexWordSpace(flag, Quote(value) + rest);
    LexQuoted(value, rest, None);
    assert [] + Marked(value, true) == Marked(value, true);
  }

  lemma {:induction false} LexFlags(flags: seq<(string, OsString)>, word: Word)
    requires forall i | 0 <= i < |flags| :: IsBareWord(flags[i].0)
    ensures Lex(FlagText(flags), Some(word)) == Some([W(word)] + Tokens(FlagWords(flags)))
    decreases |flags|
  {
    if flags == [] {
      assert Tokens(FlagWords(flags)) == [];
    } else {
      hide Lex, Marked, Quote, IsBareWord, Lossy;
      var (flag, value) := (flags[0].0, Lossy(flags[0].1));
      assert FlagText(flags) == " " + flag + " " + Quote(value) + FlagText(flags[1..]);
      LexFlag(flag, value, FlagText(flags[1..]), word);
      LexFlags(flags[1..], Marked(value, true));
      hide Emit, FlagText;
      var others := Tokens(FlagWords(flags[1..]));
      EmitThree(W(word), W(Marked(flag, false)), W(Marked(value, true)), others);
      assert Tokens(FlagWords(flags)) == [W(Marked(flag, false)), W(Marked(value, true))] + others;
    }
  }

  lemma EmitThree(a: Token, b: Token, c: Token, ts: seq<Token>)
    requires a.W? && b.W?
    ensures Emit(Some(a.word), Emit(Some(b.word), Some([c] + ts))) == Some([a] + ([b, c] + ts))
  {
    assert [b] + ([c] + ts) == [b, c] + ts;
  }

  lemma {:induction false} CommandsOfWords(words: seq<Word>, sofar: seq<Word>)
    requires words != [] || sofar != []
    ensures Commands(Tokens(words), sofar) == Some([SimpleCommand(sofar + words)])
    decreases |words|
  {
    hide SimpleCommand;
    if words == [] {
      assert sofar + words == sofar;
    } else {
      assert Tokens(words)[1..] == Tokens(words[1..]);
      CommandsOfWords(words[1..], sofar + [words[0]]);
      assert sofar + [words[0]] + words[1..] == sofar + words;
    }
  }

  function Pairs(env: seq<(string, OsString)>): seq<(string, string)> {
    seq(|env|, i requires 0 <= i < |env| => (env[i].0, Lossy(env[i].1)))
  }

  lemma NameEnds(w: Word, k: nat)
    requires k <= |w| && (forall i | 0 <= i < k :: IsNameChar(w[i])) && (k < |w| ==> !IsNameChar(w[k]))
    ensures NameLength(w) == k
  {
  }

  lemma EnvWordAssigns(v: (string, OsString))
    requires IsEnvName(v.0)
    ensures var w := EnvWord(v);
            IsAssignment(w) && Bare(w[..NameLength(w)]) == v.0 && Bare(w[NameLength(w) + 1..]) == Lossy(v.1)
  {
    var w := EnvWord(v);
    NameEnds(w, |v.0|);
    assert Bare(w[..|v.0|]) == v.0;
    assert w[|v.0| + 1..] == Marked(Lossy(v.1), true);
    BareMarked(Lossy(v.1), true);
  }

  lemma {:induction false} EnvComesFirst(env: seq<(string, OsString)>, words: seq<Word>)
    requires forall i | 0 <= i < |env| :: IsEnvName(env[i].0)
    ensures SimpleCommand(EnvWords(env) + words)
         == Command(Pairs(env) + SimpleCommand(words).env, SimpleCommand(words).argv)
    decreases |env|
  {
    hide SimpleCommand, EnvWord, IsEnvName, Pairs;
    var rest := SimpleCommand(words);
    PairsStep(env, rest.env);
    if env == [] {
      assert EnvWords(env) + words == words;
    } else {
      assert EnvWords(env) + words == [EnvWord(env[0])] + (EnvWords(env[1..]) + words);
      EnvComesFirst(env[1..], words);
      OneAssignment(env[0], EnvWords(env[1..]) + words);
    }
  }

  lemma PairsStep(env: seq<(string, OsString)>, more: seq<(string, string)>)
    ensures env == [] ==> Pairs(env) + more == more
    ensures env != [] ==> Pairs(env) + more == [(env[0].0, Lossy(env[0].1))] + (Pairs(env[1..]) + more)
  {
    hide Lossy;
    if env != [] {
      assert Pairs(env) == [(env[0].0, Lossy(env[0].1))] + Pairs(env[1..]);
    }
  }

  lemma OneAssignment(v: (string, OsString), words: seq<Word>)
    requires IsEnvName(v.0)
    ensures SimpleCommand([EnvWord(v)] + words)
         == Command([(v.0, Lossy(v.1))] + SimpleCommand(words).env, SimpleCommand(words).argv)
  {
    EnvWordAssigns(v);
    hide EnvWord, IsAssignment, IsEnvName, NameLength, Bare, Lossy;
    assert ([EnvWord(v)] + words)[1..] == words;
  }

  function FlagStrings(flags: seq<(string, OsString)>): seq<string> {
    if flags == [] then [] else [flags[0].0, Lossy(flags[0].1)] + FlagStrings(flags[1..])
  }

  lemma BareWordIsNoAssignment(p: string)
    requires IsBareWord(p)
    ensures !IsAssignment(Marked(p, false))
  {
  }

  lemma {:induction false} FlagWordsBare(flags: seq<(string, OsString)>)
    ensures |FlagWords(flags)| == |FlagStrings(flags)|
    ensures forall i | 0 <= i < |FlagWords(flags)| :: Bare(FlagWords(flags)[i]) == FlagStrings(flags)[i]
    decreases |flags|
  {
    if flags != [] {
      FlagWordsBare(flags[1..]);
      BareMarked(flags[0].0, false);
      BareMarked(Lossy(flags[0].1), true);
      hide Bare, Marked;
    }
  }

  lemma ProgramComesNext(program: string, flags: seq<(string, OsString)>)
    requires IsBareWord(program)
    ensures SimpleCommand([Marked(program, false)] + FlagWords(flags)) == Command([], [program] + FlagStrings(flags))
  {
    BareWordIsNoAssignment(program);
    BareMarked(program, false);
    FlagWordsBare(flags);
    hide IsAssignment, Bare, Marked, FlagWords, FlagStrings;
  }

  /** What a shell makes of the command line: the environment and the arguments, in
      order, each value read back with what was not UTF-8 replaced. */
  lemma ShellMeaning(o: Options, program: string)
    requires WellNamed(o) && IsBareWord(program)
    ensures Interpret(ShellString(o, program)) == Some([Command(Pairs(o.env), [program] + FlagStrings(o.flags))])
  {
    hide Lex, Marked, EnvPrefix, FlagText, EnvWords, FlagWords, SimpleCommand, Commands, FlagStrings, IsEnvName;
    var words := [Marked(program, false)] + FlagWords(o.flags);
    assert ShellString(o, program) == EnvPrefix(o.env) + (program + FlagText(o.flags));
    LexEnvPrefix(o.env, program + FlagText(o.flags));
    LexPlain(program, FlagText(o.flags), None);
    assert [] + Marked(program, false) == Marked(program, false);
    LexFlags(o.flags, Marked(program, false));
    assert Tokens(EnvWords(o.env)) + ([W(Marked(program, false))] + Tokens(FlagWords(o.flags)))
        == Tokens(EnvWords(o.env) + words);
    CommandsOfWords(EnvWords(o.env) + words, []);
    assert [] + (EnvWords(o.env) + words) == EnvWords(o.env) + words;
    EnvComesFirst(o.env, words);
    ProgramComesNext(program, o.flags);
    assert Pairs(o.env) + [] == Pairs(o.env);
  }

  /** A command as the operating system sees it. */
  datatype OsCommand = OsCommand(env: seq<(string, OsString)>, argv: seq<OsString>)

  function AsOs(c: Command): OsCommand {
    OsCommand(seq(|c.env|, i requires 0 <= i < |c.env| => (c.env[i].0, Os(c.env[i].1))),
              seq(|c.argv|, i requires 0 <= i < |c.argv| => Os(c.argv[i])))
  }

  /** What the process back end sets, in the order it sets it. */
  function Applied(o: Options, program: string): OsCommand { OsCommand(o.env, [Os(program)] + FlagArgs(o.flags)) }

  predicate AllUnicode(o: Options) {
    && (forall i | 0 <= i < |o.env| :: IsUnicode(o.env[i].1))
    && (forall i | 0 <= i < |o.flags| :: IsUnicode(o.flags[i].1))
  }

  lemma {:induction false} FlagsAgreeIff(flags: seq<(string, OsString)>)
    ensures |FlagStrings(flags)| == |FlagArgs(flags)|
    ensures (forall i | 0 <= i < |FlagArgs(flags)| :: Os(FlagStrings(flags)[i]) == FlagArgs(flags)[i])
            <==> (forall i | 0 <= i < |flags| :: IsUnicode(flags[i].1))
    decreases |flags|
  {
    if flags != [] {
      hide IsUnicode, Os, Lossy;
      FlagsAgreeIff(flags[1..]);
      LossyKeepsIff(flags[0].1);
      var (texts, args) := (FlagStrings(flags), FlagArgs(flags));
      assert args[0] == Os(flags[0].0) && args[1] == flags[0].1 && args[2..] == FlagArgs(flags[1..]);
      assert texts[0] == flags[0].0 && texts[1] == Lossy(flags[0].1) && texts[2..] == FlagStrings(flags[1..]);
      assert flags[0] == flags[0];
      FlagsAgreeStep(flags, texts, args);
    }
  }

  lemma FlagsAgreeStep(flags: seq<(string, OsString)>, texts: seq<string>, args: seq<OsString>)
    requires flags != [] && |texts| == |args| >= 2
    requires Os(texts[0]) == args[0]
    requires Os(texts[1]) == args[1] <==> IsUnicode(flags[0].1)
    requires (forall i | 0 <= i < |args[2..]| :: Os(texts[2..][i]) == args[2..][i])
             <==> (forall i | 0 <= i < |flags[1..]| :: IsUnicode(flags[1..][i].1))
    ensures (forall i | 0 <= i < |args| :: Os(texts[i]) == args[i])
        <==> (forall i | 0 <= i < |flags| :: IsUnicode(flags[i].1))
  {
    hide IsUnicode, Os;
    if forall i | 0 <= i < |args| :: Os(texts[i]) == args[i] {
      forall i | 0 <= i < |args[2..]|
        ensures Os(texts[2..][i]) == args[2..][i]
      {
        assert Os(texts[i + 2]) == args[i + 2];
      }
      forall i | 0 <= i < |flags|
        ensures IsUnicode(flags[i].1)
      {
        assert i > 0 ==> flags[i] == flags[1..][i - 1];
      }
    }
    if forall i | 0 <= i < |flags| :: IsUnicode(flags[i].1) {
      forall i | 0 <= i < |flags[1..]|
        ensures IsUnicode(flags[1..][i].1)
      {
        assert flags[1..][i] == flags[i + 1];
      }
      forall i | 0 <= i < |args|
        ensures Os(texts[i]) == args[i]
      {
        assert i >= 2 ==> Os(texts[2..][i - 2]) == args[2..][i - 2];
      }
    }
  }

  /** The two back ends mean the same command, with the same environment in the same
      order, if and only if every value is Unicode. Spaces, quotes and any other
      character make no difference; a file name that is not UTF-8 does. */
  lemma BackEndsAgree(o: Options, program: string)
    requires WellNamed(o) && IsBareWord(program)
    ensures var meant := Interpret(ShellString(o, program));
            meant.Some? && |meant.value| == 1 && (AsOs(meant.value[0]) == Applied(o, program) <==> AllUnicode(o))
  {
    ShellMeaning(o, program);
    FlagsAgreeIff(o.flags);
    hide ShellString, Interpret, WellNamed, IsBareWord, FlagStrings, FlagArgs;
    CommandsAgreeIff(o, program);
  }

  lemma CommandsAgreeIff(o: Options, program: string)
    requires |FlagStrings(o.flags)| == |FlagArgs(o.flags)|
    requires (forall i | 0 <= i < |FlagArgs(o.flags)| :: Os(FlagStrings(o.flags)[i]) == FlagArgs(o.flags)[i])
             <==> (forall i | 0 <= i < |o.flags| :: IsUnicode(o.flags[i].1))
    ensures AsOs(Command(Pairs(o.env), [program] + FlagStrings(o.flags))) == Applied(o, program) <==> AllUnicode(o)
  {
    hide FlagStrings, FlagArgs, IsUnicode, Os, Lossy;
    var texts := FlagStrings(o.flags);
    var meant := AsOs(Command(Pairs(o.env), [program] + texts));
    var args := FlagArgs(o.flags);
    assert meant.argv == [Os(program)] + args <==> forall i | 0 <= i < |args| :: Os(texts[i]) == args[i] by {
      SameTail(Os(program), meant.argv, texts, args);
    }
    EnvAgreesIff(o.env);
  }

  lemma SameTail(head: OsString, argv: seq<OsString>, texts: seq<string>, args: seq<OsString>)
    requires |texts| == |args| && |argv| == |args| + 1 && argv[0] == head
    requires forall i | 0 <= i < |texts| :: argv[i + 1] == Os(texts[i])
    ensures argv == [head] + args <==> forall i | 0 <= i < |args| :: Os(texts[i]) == args[i]
  {
    hide Os;
    if argv == [head] + args {
      forall i | 0 <= i < |args|
        ensures Os(texts[i]) == args[i]
      {
        assert argv[i + 1] == ([head] + args)[i + 1];
      }
    }
  }

  lemma EnvAgreesIff(env: seq<(string, OsString)>)
    ensures AsOs(Command(Pairs(env), [])).env == env <==> forall i | 0 <= i < |env| :: IsUnicode(env[i].1)
  {
    hide IsUnicode, Os, Lossy;
    var meant := AsOs(Command(Pairs(env), [])).env;
    forall i | 0 <= i < |env|
      ensures meant[i] == env[i] <==> IsUnicode(env[i].1)
    {
      LossyKeepsIff(env[i].1);
    }
  }

  // ---- scripts sent to the guest ---------------------------------------------------------------------

  /** What ssh passes to the guest's login shell for a script. */
  function RemoteLine(script: OsString): string { "bash -lc " + ShellQuote(script) }

  function BuildGuestScript(dir: OsString): string {
    "cd" + " " + (ShellQuote(dir) + (" && " + CargoLine()))
  }

  function CargoWords(): seq<string> { ["cargo", "build", "--release", "-p", "vbox-server", "-p"] }

  /** The words of the build command, one space between them. */
  function CargoLine(): string { Spaced(CargoWords(), "vbox-controld") }

  /** A line of bare words followed by more of the line. */
  function Spaced(words: seq<string>, rest: string): string {
    if words == [] then rest else words[0] + " " + Spaced(words[1..], rest)
  }

  lemma SpacedTwo(a: string, b: string, rest: string)
    ensures Spaced([a, b], rest) == a + " " + b + " " + rest
  {
    assert [a, b][1..] == [b] && [b][1..] == [];
    assert Spaced([b], rest) == b + " " + rest;
    assert a + " " + (b + " " + rest) == a + " " + b + " " + rest;
  }

  function BareWords(words: seq<string>): seq<Word> {
    seq(|words|, i requires 0 <= i < |words| => Marked(words[i], false))
  }

  lemma {:induction false} LexSpaced(words: seq<string>, rest: string)
    requires forall i | 0 <= i < |words| :: IsBareWord(words[i])
    ensures Lex(Spaced(words, rest), None) == Prepend(Tokens(BareWords(words)), Lex(rest, None))
    decreases |words|
  {
    hide Lex, Marked, IsBareWord;
    var after := Lex(rest, None);
    if words == [] {
      assert after.Some? ==> [] + after.value == after.value;
    } else {
      LexWordSpace(words[0], Spaced(words[1..], rest));
      LexSpaced(words[1..], rest);
      var (first, others) := ([W(Marked(words[0], false))], Tokens(BareWords(words[1..])));
      assert Tokens(BareWords(words)) == first + others;
      assert after.Some? ==> first + (others + after.value) == first + others + after.value;
    }
  }

  /** A command of bare words with a quoted one at the end. */
  lemma BareCommand(words: seq<string>, last: Word)
    requires words != [] && forall i | 0 <= i < |words| :: IsBareWord(words[i])
    ensures SimpleCommand(BareWords(words) + [last]) == Command([], words + [Bare(last)])
  {
    var all := BareWords(words) + [last];
    BareWordIsNoAssignment(words[0]);
    forall i | 0 <= i < |words|
      ensures Bare(all[i]) == words[i]
    {
      BareMarked(words[i], false);
    }
    hide IsAssignment, Bare, Marked;
  }

  /** The login shell hands bash one script: the one sent, whatever characters are in it,
      if and only if it is Unicode. */
  lemma ScriptArrives(script: OsString)
    ensures Interpret(RemoteLine(script)) == Some([Command([], ["bash", "-lc", Lossy(script)])])
    ensures Os(Lossy(script)) == script <==> IsUnicode(script)
  {
    LossyKeepsIff(script);
    var text := Lossy(script);
    var words := BareWords(["bash", "-lc"]) + [Marked(text, true)];
    assert IsBareWord("bash") && IsBareWord("-lc");
    QuoteIsOneWord(text);
    BareCommand(["bash", "-lc"], Marked(text, true));
    hide Lex, Marked, Quote, IsBareWord, Bare, SimpleCommand, Lossy, Commands;
    SpacedTwo("bash", "-lc", Quote(text));
    assert "bash -lc " == "bash" + " " + "-lc" + " ";
    LexSpaced(["bash", "-lc"], Quote(text));
    assert Tokens(BareWords(["bash", "-lc"])) + [W(Marked(text, true))] == Tokens(words);
    CommandsOfWords(words, []);
    assert [] + words == words;
    assert ["bash", "-lc"] + [text] == ["bash", "-lc", text];
  }

  lemma {:induction false} CommandsThen(words: seq<Word>, sofar: seq<Word>, more: seq<Token>)
    requires sofar + words != [] && Commands(more, []).Some?
    ensures Commands(Tokens(words) + [AndIf] + more, sofar)
         == Some([SimpleCommand(sofar + words)] + Commands(more, []).value)
    decreases |words|
  {
    hide SimpleCommand;
    var all := Tokens(words) + [AndIf] + more;
    if words == [] {
      assert all[1..] == more && sofar + words == sofar;
    } else {
      assert all[1..] == Tokens(words[1..]) + [AndIf] + more;
      CommandsThen(words[1..], sofar + [words[0]], more);
      assert sofar + [words[0]] + words[1..] == sofar + words;
    }
  }

  lemma LexAndIf(rest: string)
    ensures Lex("&& " + rest, None) == Prepend([AndIf], Lex(rest, None))
  {
    assert ("&& " + rest)[2..] == " " + rest;
    LexSpace(rest, None);
  }

  lemma LexAnd(rest: string, word: Word)
    ensures Lex(" && " + rest, Some(word)) == Prepend([W(word), AndIf], Lex(rest, None))
  {
    hide Lex;
    assert " && " + rest == " " + ("&& " + rest);
    LexSpace("&& " + rest, Some(word));
    LexAndIf(rest);
    var after := Lex(rest, None);
    assert after.Some? ==> [W(word)] + ([AndIf] + after.value) == [W(word), AndIf] + after.value;
  }

  /** A bare word, a quoted word, and a second command. */
  lemma LexTwoCommands(first: string, text: string, line: string, ts: seq<Token>)
    requires IsBareWord(first) && Lex(line, None) == Some(ts)
    ensures Lex(first + " " + (Quote(text) + (" && " + line)), None)
         == Some(Tokens([Marked(first, false), Marked(text, true)]) + [AndIf] + ts)
  {
    hide IsBareWord, Lex, Marked, Quote;
    LexWordSpace(first, Quote(text) + (" && " + line));
    LexQuoted(text, " && " + line, None);
    assert [] + Marked(text, true) == Marked(text, true);
    LexAnd(line, Marked(text, true));
    assert [W(Marked(first, false))] + ([W(Marked(text, true)), AndIf] + ts)
        == Tokens([Marked(first, false), Marked(text, true)]) + [AndIf] + ts;
  }

  lemma LexLastWord(w: string)
    requires IsBareWord(w)
    ensures Lex(w, None) == Some([W(Marked(w, false))])
  {
    LexPlain(w, [], None);
    assert w + [] == w;
    assert [] + Marked(w, false) == Marked(w, false);
    hide Marked;
    assert [W(Marked(w, false))] + [] == [W(Marked(w, false))];
  }

  lemma CargoWordsBare()
    ensures CargoWords() != [] && forall i | 0 <= i < |CargoWords()| :: IsBareWord(CargoWords()[i])
    ensures IsBareWord("vbox-controld")
  {
    assert IsBareWord("cargo");
    assert IsBareWord("build");
    assert IsBareWord("--release");
    assert IsBareWord("-p");
    assert IsBareWord("vbox-server");
    assert IsBareWord("vbox-controld");
    hide IsBareWord;
  }

  function CargoTokens(): seq<Word> { BareWords(CargoWords()) + [Marked("vbox-controld", false)] }

  lemma CargoMeaning()
    ensures Lex(CargoLine(), None) == Some(Tokens(CargoTokens()))
    ensures Commands(Tokens(CargoTokens()), []) == Some([Command([], CargoWords() + ["vbox-controld"])])
  {
    CargoWordsBare();
    BareMarked("vbox-controld", false);
    hide IsBareWord, Lex, Marked, Bare, Commands, SimpleCommand, CargoWords, Spaced, BareWords;
    var last := Marked("vbox-controld", false);
    LexSpaced(CargoWords(), "vbox-controld");
    LexLastWord("vbox-controld");
    assert Tokens(BareWords(CargoWords())) + [W(last)] == Tokens(CargoTokens());
    BareCommand(CargoWords(), last);
    CommandsOfWords(CargoTokens(), []);
    assert [] + CargoTokens() == CargoTokens();
  }

  /** What bash makes of the script: a change to exactly that directory, and the build
      only if that succeeded. */
  lemma BuildGuestMeaning(dir: OsString)
    ensures Interpret(BuildGuestScript(dir))
         == Some([Command([], ["cd", Lossy(dir)]), Command([], CargoWords() + ["vbox-controld"])])
  {
    var words := [Marked("cd", false), Marked(Lossy(dir), true)];
    assert IsBareWord("cd");
    CargoMeaning();
    CdCommand(Lossy(dir));
    hide IsBareWord, Lex, Marked, Quote, CargoLine, CargoTokens, CargoWords, Commands, Lossy, SimpleCommand, Tokens;
    LexTwoCommands("cd", Lossy(dir), CargoLine(), Tokens(CargoTokens()));
    CommandsThen(words, [], Tokens(CargoTokens()));
    assert [] + words == words;
    assert [Command([], ["cd", Lossy(dir)])] + [Command([], CargoWords() + ["vbox-controld"])]
        == [Command([], ["cd", Lossy(dir)]), Command([], CargoWords() + ["vbox-controld"])];
  }

  lemma CdCommand(dir: string)
    ensures SimpleCommand([Marked("cd", false), Marked(dir, true)]) == Command([], ["cd", dir])
  {
    assert IsBareWord("cd");
    BareCommand(["cd"], Marked(dir, true));
    BareMarked(dir, true);
    hide IsBareWord, Marked, Bare, SimpleCommand;
    assert BareWords(["cd"]) + [Marked(dir, true)] == [Marked("cd", false), Marked(dir, true)];
  }

  /** Two levels of quoting: the directory is quoted inside the script, and the script,
      quotes and all, is quoted again for the login shell. The inner shell still gets one
      directory, and it is the one meant if and only if that is Unicode. */
  lemma NestedQuoting(dir: OsString)
    ensures var outer := Interpret(RemoteLine(Os(BuildGuestScript(dir))));
            && outer.Some? && |outer.value| == 1 && |outer.value[0].argv| == 3
            && outer.value[0].argv[..2] == ["bash", "-lc"]
            && Interpret(outer.value[0].argv[2])
               == Some([Command([], ["cd", Lossy(dir)]), Command([], CargoWords() + ["vbox-controld"])])
    ensures Os(Lossy(dir)) == dir <==> IsUnicode(dir)
  {
    LossyKeepsIff(dir);
    hide Interpret, RemoteLine, BuildGuestScript, Os, Lossy, CargoWords;
    ScriptArrives(Os(BuildGuestScript(dir)));
    OsBack(BuildGuestScript(dir));
    BuildGuestMeaning(dir);
  }
}
