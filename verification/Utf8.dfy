/** What a text may hold: the byte strings that spell Unicode scalar values. */
module Utf8 {
  import opened Arith
  import opened MachineInts
  import opened Postcard

  /** A code point that is not a surrogate. */
  type Scalar = c: nat | c < 0x11_0000 && !(0xD800 <= c < 0xE000) witness 0

  /** One to four bytes: a lead byte that tells how many, then six bits at a time. */
  function Spell(c: Scalar): Bytes {
    if c < 0x80 then [c]
    else if c < 0x800 then [0xC0 + c / 0x40, 0x80 + c % 0x40]
    else if c < 0x1_0000 then [0xE0 + c / 0x1000, 0x80 + c / 0x40 % 0x40, 0x80 + c % 0x40]
    else [0xF0 + c / 0x4_0000, 0x80 + c / 0x1000 % 0x40, 0x80 + c / 0x40 % 0x40, 0x80 + c % 0x40]
  }

  function SpellAll(cs: seq<Scalar>): Bytes { if cs == [] then [] else Spell(cs[0]) + SpellAll(cs[1..]) }

  lemma SpelledIsValid(c: Scalar, rest: Bytes)
    requires ValidUtf8(rest)
    ensures ValidUtf8(Spell(c) + rest)
  {
    var bytes := Spell(c) + rest;
    assert bytes[|Spell(c)|..] == rest;
    if 0x800 <= c < 0x1_0000 {
      assert c / 0x1000 == 0 ==> c / 0x40 % 0x40 >= 0x20;
      assert c / 0x1000 == 0xD ==> c / 0x40 % 0x40 < 0x20;
    }
  }

  lemma {:induction false} AllSpelledIsValid(cs: seq<Scalar>)
    ensures ValidUtf8(SpellAll(cs))
  {
    if cs != [] {
      AllSpelledIsValid(cs[1..]);
      SpelledIsValid(cs[0], SpellAll(cs[1..]));
    }
  }

  /** How many bytes the first character of a text takes. */
  function FirstLength(bytes: Bytes): (n: nat)
    requires bytes != [] && ValidUtf8(bytes)
    ensures 1 <= n <= |bytes| && ValidUtf8(bytes[n..])
  {
    if bytes[0] < 0x80 then 1 else if bytes[0] < 0xE0 then 2 else if bytes[0] < 0xF0 then 3 else 4
  }

  /** Four groups of six bits, the last one least. */
  function Point(a: nat, b: nat, c: nat, d: nat): nat { 0x4_0000 * a + 0x1000 * b + 0x40 * c + d }

  lemma SixBits(a: nat, b: nat, c: nat, d: nat)
    requires b < 0x40 && c < 0x40 && d < 0x40
    ensures var n := Point(a, b, c, d);
            && n % 0x40 == d && n / 0x40 % 0x40 == c && n / 0x1000 % 0x40 == b && n / 0x4_0000 == a
            && n / 0x1000 == 0x40 * a + b && n / 0x40 == 0x1000 * a + 0x40 * b + c
  {
    var n := Point(a, b, c, d);
    var k := 0x40 * a + b;
    var m := 0x40 * k + c;
    DivIs(n, 0x1000, k);
    DivIs(n, 0x4_0000, a);
    LastDigit(a, b);
    LastDigit(k, c);
    LastDigit(m, d);
  }

  lemma LastDigit(q: nat, r: nat)
    requires r < 0x40
    ensures (0x40 * q + r) / 0x40 == q && (0x40 * q + r) % 0x40 == r
  {
  }

  /** The first character of a text. */
  function FirstScalar(bytes: Bytes): (c: Scalar)
    requires bytes != [] && ValidUtf8(bytes)
  {
    if bytes[0] < 0x80 then Point(0, 0, 0, bytes[0])
    else if bytes[0] < 0xE0 then Point(0, 0, bytes[0] - 0xC0, bytes[1] - 0x80)
    else if bytes[0] < 0xF0 then Point(0, bytes[0] - 0xE0, bytes[1] - 0x80, bytes[2] - 0x80)
    else Point(bytes[0] - 0xF0, bytes[1] - 0x80, bytes[2] - 0x80, bytes[3] - 0x80)
  }

  /** Spelling a character of two, three or four groups gives its groups back. */
  lemma SpellsGroups(a: nat, b: nat, c: nat, d: nat)
    requires a < 8 && b < 0x40 && c < 0x40 && d < 0x40
    requires Point(a, b, c, d) < 0x11_0000 && !(0xD800 <= Point(a, b, c, d) < 0xE000)
    ensures var n := Point(a, b, c, d);
            && (0x80 <= n < 0x800 ==> a == 0 && b == 0 && Spell(n) == [0xC0 + c, 0x80 + d])
            && (0x800 <= n < 0x1_0000 ==> a == 0 && Spell(n) == [0xE0 + b, 0x80 + c, 0x80 + d])
            && (0x1_0000 <= n ==> Spell(n) == [0xF0 + a, 0x80 + b, 0x80 + c, 0x80 + d])
  {
    PointIs(a, b, c, d);
    SixBits(a, b, c, d);
    hide Point;
  }

  lemma FirstIsSpelled(bytes: Bytes)
    requires bytes != [] && ValidUtf8(bytes)
    ensures Spell(FirstScalar(bytes)) == bytes[..FirstLength(bytes)]
  {
    hide Spell;
    if bytes[0] < 0x80 {
      OneByte(bytes[0]);
    } else if bytes[0] < 0xE0 {
      SpellsGroups(0, 0, bytes[0] - 0xC0, bytes[1] - 0x80);
    } else if bytes[0] < 0xF0 {
      SpellsGroups(0, bytes[0] - 0xE0, bytes[1] - 0x80, bytes[2] - 0x80);
    } else {
      SpellsGroups(bytes[0] - 0xF0, bytes[1] - 0x80, bytes[2] - 0x80, bytes[3] - 0x80);
    }
  }

  lemma OneByte(b: u8)
    requires b < 0x80
    ensures Spell(b) == [b]
  {
  }

  lemma PointIs(a: nat, b: nat, c: nat, d: nat)
    ensures Point(a, b, c, d) == 0x4_0000 * a + 0x1000 * b + 0x40 * c + d
  {
  }

  lemma {:induction false} ValidIsSpelled(bytes: Bytes)
    requires ValidUtf8(bytes)
    ensures exists cs: seq<Scalar> :: SpellAll(cs) == bytes
    decreases |bytes|
  {
    hide ValidUtf8, Spell, FirstScalar;
    if bytes == [] {
      assert SpellAll([]) == bytes;
    } else {
      var n := FirstLength(bytes);
      ValidIsSpelled(bytes[n..]);
      var cs: seq<Scalar> :| SpellAll(cs) == bytes[n..];
      FirstIsSpelled(bytes);
      var all := [FirstScalar(bytes)] + cs;
      assert all[1..] == cs;
      assert SpellAll(all) == bytes[..n] + bytes[n..] == bytes;
    }
  }

  /** The bytes a text may hold are exactly those that spell characters: no surrogate, no
      longer spelling than needed, nothing above U+10FFFF, nothing cut short. */
  lemma ValidIffSpelled(bytes: Bytes)
    ensures ValidUtf8(bytes) <==> exists cs: seq<Scalar> :: SpellAll(cs) == bytes
  {
    hide ValidUtf8, SpellAll;
    if ValidUtf8(bytes) {
      ValidIsSpelled(bytes);
    }
    forall cs: seq<Scalar> | SpellAll(cs) == bytes
      ensures ValidUtf8(bytes)
    {
      AllSpelledIsValid(cs);
    }
  }
}
