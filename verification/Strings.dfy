/** Characters, lines and words, as Rust's string methods see them. */
module Strings {
  predicate IsDigit(c: char) { '0' <= c <= '9' }

  predicate IsLetter(c: char) { 'a' <= c <= 'z' || 'A' <= c <= 'Z' }

  predicate IsAlnum(c: char) { IsLetter(c) || IsDigit(c) }

  /** Unicode White_Space, which trimming and splitting both use. */
  predicate IsSpace(c: char) {
    || '\t' <= c <= '\r' || c == ' ' || c == '\U{85}' || c == '\U{A0}' || c == '\U{1680}'
    || '\U{2000}' <= c <= '\U{200A}' || c == '\U{2028}' || c == '\U{2029}' || c == '\U{202F}'
    || c == '\U{205F}' || c == '\U{3000}'
  }

  /** The index of the first character that satisfies `stop`, or the length. */
  function Until(s: string, stop: char -> bool): (k: nat)
    ensures k <= |s|
    ensures forall i | 0 <= i < k :: !stop(s[i])
    ensures k < |s| ==> stop(s[k])
  {
    if s == [] || stop(s[0]) then 0 else 1 + Until(s[1..], stop)
  }

  predicate IsNewline(c: char) { c == '\n' }

  function Lines(text: string): seq<string>
    decreases |text|
  {
    if text == [] then []
    else
      var k := Until(text, IsNewline);
      if k == |text| then [text] else [text[..k]] + Lines(text[k + 1..])
  }

  function Words(line: string): (words: seq<string>)
    ensures forall i | 0 <= i < |words| :: IsWord(words[i])
    decreases |line|
  {
    if line == [] then []
    else if IsSpace(line[0]) then Words(line[1..])
    else
      var k := Until(line, IsSpace);
      [line[..k]] + Words(line[k..])
  }

  predicate IsWord(w: string) { w != [] && forall i | 0 <= i < |w| :: !IsSpace(w[i]) }

  lemma UntilFirst(s: string, stop: char -> bool, k: nat)
    requires k <= |s| && (forall i | 0 <= i < k :: !stop(s[i])) && (k < |s| ==> stop(s[k]))
    ensures Until(s, stop) == k
  {
  }

  lemma LineThenRest(line: string, rest: string)
    requires forall i | 0 <= i < |line| :: line[i] != '\n'
    ensures Lines(line + ['\n'] + rest) == [line] + Lines(rest)
  {
    var text := line + ['\n'] + rest;
    UntilFirst(text, IsNewline, |line|);
    assert text[..|line|] == line && text[|line| + 1..] == rest;
  }

  lemma TwoWords(a: string, b: string)
    requires IsWord(a) && IsWord(b)
    ensures Words(a + ['\t'] + b) == [a, b]
  {
    var line := a + ['\t'] + b;
    UntilFirst(line, IsSpace, |a|);
    assert line[..|a|] == a && line[|a|..] == ['\t'] + b;
    assert (['\t'] + b)[1..] == b;
    UntilFirst(b, IsSpace, |b|);
    assert b[..|b|] == b && b[|b|..] == [];
    assert Words(b) == [b] + Words([]) == [b];
    assert Words(['\t'] + b) == Words(b);
    assert line[0] == a[0];
    assert Words(line) == [a] + Words(['\t'] + b);
  }
}
