/** As much of the POSIX shell as the program's quoting relies on: how a string splits
    into words, which words are assignments, and what quoting means (sections 2.2, 2.3
    and 2.9.1 of the POSIX.1-2017 Shell Command Language). A string that uses anything
    else of the language unquoted has no meaning here. */
module Shell {
  import opened Wrappers
  import opened Strings

  /** A character of a word, and whether a quote protected it. */
  datatype QChar = QChar(c: char, quoted: bool)

  type Word = seq<QChar>

  datatype Token = W(word: Word) | AndIf

  /** Characters that mean themselves without quotes, everywhere in a word. */
  predicate IsPlain(c: char) {
    IsAlnum(c) || c == '_' || c == '-' || c == '.' || c == '/' || c == '=' || c == ':' || c == '@' || c == ','
  }

  predicate IsQuote(c: char) { c == '\'' }

  function Marked(s: string, quoted: bool): Word { seq(|s|, i requires 0 <= i < |s| => QChar(s[i], quoted)) }

  function Add(sofar: Option<Word>, more: Word): Option<Word> {
    Some((if sofar.Some? then sofar.value else []) + more)
  }

  function Emit(sofar: Option<Word>, rest: Option<seq<Token>>): Option<seq<Token>> {
    match rest
    case None => None
    case Some(ts) => Some(if sofar.Some? then [W(sofar.value)] + ts else ts)
  }

  /** Splits into tokens; `sofar` is the word under construction. */
  function Lex(s: string, sofar: Option<Word>): Option<seq<Token>>
    decreases |s|
  {
    if s == [] then Emit(sofar, Some([]))
    else if s[0] == ' ' then Emit(sofar, Lex(s[1..], None))
    else if s[0] == '\'' then
      var k := Until(s[1..], IsQuote);
      if k == |s| - 1 then None else Lex(s[k + 2..], Add(sofar, Marked(s[1..k + 1], true)))
    else if s[0] == '\\' then
      if |s| == 1 then None
      else if s[1] == '\n' then Lex(s[2..], sofar)
      else Lex(s[2..], Add(sofar, [QChar(s[1], true)]))
    else if s[0] == '&' then
      if |s| == 1 || s[1] != '&' then None
      else
        (match Lex(s[2..], None)
         case None => None
         case Some(ts) => Emit(sofar, Some([AndIf] + ts)))
    else if IsPlain(s[0]) then Lex(s[1..], Add(sofar, [QChar(s[0], false)]))
    else None
  }

  // ---- commands ----------------------------------------------------------------------

  datatype Command = Command(env: seq<(string, string)>, argv: seq<string>)

  function Bare(w: Word): string { seq(|w|, i requires 0 <= i < |w| => w[i].c) }

  predicate IsNameChar(q: QChar) { !q.quoted && (IsAlnum(q.c) || q.c == '_') }

  function NameLength(w: Word): (k: nat)
    ensures k <= |w|
    ensures forall i | 0 <= i < k :: IsNameChar(w[i])
    ensures k < |w| ==> !IsNameChar(w[k])
  {
    if w == [] || !IsNameChar(w[0]) then 0 else 1 + NameLength(w[1..])
  }

  /** An assignment word: an unquoted name, then an unquoted equals sign. */
  predicate IsAssignment(w: Word) {
    var k := NameLength(w);
    0 < k < |w| && w[k] == QChar('=', false) && !IsDigit(w[0].c)
  }

  /** A simple command: the assignments in front, then the words. */
  function SimpleCommand(words: seq<Word>): Command {
    if words == [] then Command([], [])
    else if IsAssignment(words[0]) then
      var rest := SimpleCommand(words[1..]);
      var k := NameLength(words[0]);
      Command([(Bare(words[0][..k]), Bare(words[0][k + 1..]))] + rest.env, rest.argv)
    else Command([], seq(|words|, i requires 0 <= i < |words| => Bare(words[i])))
  }

  /** The commands of a list joined by `&&`; none of them may be empty. `sofar` holds the
      words of the command under construction. */
  function Commands(ts: seq<Token>, sofar: seq<Word>): Option<seq<Command>>
    decreases |ts|
  {
    if ts == [] then if sofar == [] then None else Some([SimpleCommand(sofar)])
    else if ts[0].W? then Commands(ts[1..], sofar + [ts[0].word])
    else if sofar == [] then None
    else
      match Commands(ts[1..], [])
      case None => None
      case Some(cs) => Some([SimpleCommand(sofar)] + cs)
  }

  /** What a shell makes of a script. */
  function Interpret(script: string): Option<seq<Command>> {
    match Lex(script, None)
    case None => None
    case Some(ts) => Commands(ts, [])
  }

  // ---- quoting ------------------------------------------------------------------------

  /** Every single quote leaves the quotes, is escaped by itself, and enters them again. */
  function Escaped(s: string): string {
    if s == [] then []
    else if s[0] == '\'' then "'\\''" + Escaped(s[1..])
    else [s[0]] + Escaped(s[1..])
  }

  function Quote(s: string): string { "'" + Escaped(s) + "'" }

  lemma {:induction false} EscapedPlain(a: string, b: string)
    requires forall i | 0 <= i < |a| :: a[i] != '\''
    ensures Escaped(a + b) == a + Escaped(b)
  {
    if a == [] {
      assert a + b == b;
    } else {
      EscapedPlain(a[1..], b);
      assert (a + b)[1..] == a[1..] + b;
    }
  }

  lemma LexSegment(a: string, rest: string, sofar: Option<Word>)
    requires forall i | 0 <= i < |a| :: a[i] != '\''
    ensures Lex("'" + a + "'" + rest, sofar) == Lex(rest, Add(sofar, Marked(a, true)))
  {
    var s := "'" + a + "'" + rest;
    assert s[1..] == a + ("'" + rest);
    UntilFirst(s[1..], IsQuote, |a|);
    assert s[1..|a| + 1] == a && s[|a| + 2..] == rest;
  }

  lemma AddTwice(sofar: Option<Word>, a: Word, b: Word)
    ensures Add(Add(sofar, a), b) == Add(sofar, a + b)
  {
    var start := if sofar.Some? then sofar.value else [];
    assert start + a + b == start + (a + b);
  }

  lemma LexEscapedQuote(rest: string, sofar: Option<Word>)
    ensures Lex("\\'" + rest, sofar) == Lex(rest, Add(sofar, [QChar('\'', true)]))
  {
    assert ("\\'" + rest)[2..] == rest;
  }

  lemma LexUnquotable(v: string, rest: string, sofar: Option<Word>)
    requires forall i | 0 <= i < |v| :: v[i] != '\''
    ensures Lex(Quote(v) + rest, sofar) == Lex(rest, Add(sofar, Marked(v, true)))
  {
    hide Lex, Marked, Add;
    assert v + [] == v;
    EscapedPlain(v, []);
    LexSegment(v, rest, sofar);
    assert Quote(v) + rest == "'" + v + "'" + rest;
  }

  /** A stretch without a quote, one quote, and what follows. */
  lemma LexQuotedStep(a: string, b: string, rest: string, sofar: Option<Word>)
    requires forall i | 0 <= i < |a| :: a[i] != '\''
    ensures Lex(Quote(a + ("'" + b)) + rest, sofar)
         == Lex(Quote(b) + rest, Add(sofar, Marked(a, true) + [QChar('\'', true)]))
  {
    hide Lex, Marked;
    EscapedPlain(a, "'" + b);
    assert ("'" + b)[1..] == b;
    QuoteStep(a + ("'" + b), a, b, rest);
    LexSegment(a, "\\'" + (Quote(b) + rest), sofar);
    LexEscapedQuote(Quote(b) + rest, Add(sofar, Marked(a, true)));
    AddTwice(sofar, Marked(a, true), [QChar('\'', true)]);
  }

  lemma MarkedSplit(a: string, b: string)
    ensures Marked(a + ("'" + b), true) == Marked(a, true) + [QChar('\'', true)] + Marked(b, true)
  {
  }

  /** Quoting is undone by the shell: whatever the string holds, wherever the quoted form
      stands in a word, the shell reads back exactly its characters, all protected. */
  lemma {:induction false} LexQuoted(v: string, rest: string, sofar: Option<Word>)
    ensures Lex(Quote(v) + rest, sofar) == Lex(rest, Add(sofar, Marked(v, true)))
    decreases |v|
  {
    hide Lex, Quote, Add, Marked;
    var k := Until(v, IsQuote);
    if k == |v| {
      LexUnquotable(v, rest, sofar);
    } else {
      var (a, b) := (v[..k], v[k + 1..]);
      assert v == a + ("'" + b);
      LexQuotedStep(a, b, rest, sofar);
      var first := Marked(a, true) + [QChar('\'', true)];
      LexQuoted(b, rest, Add(sofar, first));
      AddTwice(sofar, first, Marked(b, true));
      MarkedSplit(a, b);
    }
  }

  lemma QuoteStep(v: string, a: string, b: string, rest: string)
    requires Escaped(v) == a + ("'\\''" + Escaped(b))
    ensures Quote(v) + rest == "'" + a + "'" + ("\\'" + (Quote(b) + rest))
  {
    hide Escaped;
    assert "'\\''" == "'" + "\\'" + "'";
  }

  lemma {:induction false} LexPlain(p: string, rest: string, sofar: Option<Word>)
    requires p != [] && forall i | 0 <= i < |p| :: IsPlain(p[i])
    ensures Lex(p + rest, sofar) == Lex(rest, Add(sofar, Marked(p, false)))
    decreases |p|
  {
    assert (p + rest)[1..] == p[1..] + rest;
    if |p| == 1 {
      assert p[1..] + rest == rest;
      assert Marked(p, false) == [QChar(p[0], false)];
    } else {
      LexPlain(p[1..], rest, Add(sofar, [QChar(p[0], false)]));
      AddTwice(sofar, [QChar(p[0], false)], Marked(p[1..], false));
      assert Marked(p, false) == [QChar(p[0], false)] + Marked(p[1..], false);
    }
  }

  lemma LexSpace(rest: string, sofar: Option<Word>)
    ensures Lex(" " + rest, sofar) == Emit(sofar, Lex(rest, None))
  {
    assert (" " + rest)[1..] == rest;
  }

  lemma BareMarked(s: string, quoted: bool)
    ensures Bare(Marked(s, quoted)) == s
  {
  }

  /** A quoted string is one word, with the string as its value, even when empty. */
  lemma QuoteIsOneWord(v: string)
    ensures Lex(Quote(v), None) == Some([W(Marked(v, true))]) && Bare(Marked(v, true)) == v
  {
    LexQuoted(v, [], None);
    assert Quote(v) + [] == Quote(v);
    assert [] + Marked(v, true) == Marked(v, true);
    assert [W(Marked(v, true))] + [] == [W(Marked(v, true))];
  }
}
