/** The few facts about products, quotients and sizes the proofs lean on, each proved
    alone so that no larger proof has to reason about them. */
module Arith {
  lemma DivMod(n: nat, d: nat)
    requires d > 0
    ensures n == (n / d) * d + n % d && 0 <= n % d < d
  {
  }

  /** The quotient is the only number that fits. */
  lemma DivIs(n: nat, d: nat, q: nat)
    requires d > 0 && q * d <= n < q * d + d
    ensures n / d == q
  {
    DivMod(n, d);
    var p := n / d;
    if p < q {
      MulMono(p + 1, q, d);
      Distribute(p, d);
    } else if p > q {
      MulMono(q + 1, p, d);
      Distribute(q, d);
    }
  }

  lemma Distribute(a: int, d: int)
    ensures (a + 1) * d == a * d + d
    ensures (a - 1) * d == a * d - d
  {
  }

  lemma MulMono(a: int, b: int, d: nat)
    requires a <= b
    ensures a * d <= b * d
  {
  }

  lemma MulStrict(a: int, b: int, d: nat)
    requires a < b && d > 0
    ensures a * d < b * d
  {
  }

  lemma MulNonNegative(a: nat, b: nat)
    ensures 0 <= a * b
  {
  }

  lemma MulAtLeast(a: nat, d: nat)
    requires d > 0
    ensures a <= a * d
  {
  }

  /** The four base-256 digits of a number, least significant first. */
  lemma ByteDigits(a: nat, b: nat, c: nat, d: nat)
    requires a < 0x100 && b < 0x100 && c < 0x100 && d < 0x100
    ensures var n := a + 0x100 * b + 0x1_0000 * c + 0x100_0000 * d;
            && n % 0x100 == a && n / 0x100 % 0x100 == b && n / 0x1_0000 % 0x100 == c
            && n / 0x100_0000 == d
  {
    var n := a + 0x100 * b + 0x1_0000 * c + 0x100_0000 * d;
    var high := b + 0x100 * c + 0x1_0000 * d;
    var higher := c + 0x100 * d;
    DivIs(n, 0x100, high);
    DivIs(n, 0x1_0000, higher);
    DivIs(n, 0x100_0000, d);
    assert n == 0x100 * high + a && high == 0x100 * higher + b;
  }

  /** A subset is no larger. */
  lemma SubsetSize<T>(a: set<T>, b: set<T>)
    requires a <= b
    ensures |a| <= |b|
    decreases a
  {
    if a != {} {
      var x :| x in a;
      SubsetSize(a - {x}, b - {x});
    }
  }
}
