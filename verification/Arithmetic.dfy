// Powers of two and the word arithmetic the collections are written in.
module Arithmetic {

  const MAX_I32: nat := 0x7fffffff

  function Pow2(n: nat): (p: nat)
    ensures p > 0
  {
    if n == 0 then 1 else 2 * Pow2(n - 1)
  }

  lemma Pow2Five(n: nat)
    ensures Pow2(n + 5) == 32 * Pow2(n)
  {
    assert Pow2(n + 5) == 2 * Pow2(n + 4) == 4 * Pow2(n + 3) == 8 * Pow2(n + 2) == 16 * Pow2(n + 1);
  }

  lemma Pow2Values()
    ensures Pow2(5) == 32 && Pow2(31) == 0x8000_0000 && Pow2(32) == 0x1_0000_0000
  {
    assert Pow2(1) == 2;
    Pow2Five(1);
    Pow2Five(6);
    Pow2Five(11);
    Pow2Five(16);
    Pow2Five(21);
    Pow2Five(26);
  }

  lemma {:induction false} Pow2Monotone(a: nat, b: nat)
    requires a <= b
    ensures Pow2(a) <= Pow2(b)
  {
    if a < b { Pow2Monotone(a, b - 1); }
  }

  /** The logical right shift of an unsigned word. */
  function Shr(x: nat, n: nat): nat {
    if n == 0 then x else Shr(x, n - 1) / 2
  }

  lemma {:induction false} ShrIsDivision(x: nat, n: nat)
    ensures Shr(x, n) == x / Pow2(n)
  {
    if n > 0 {
      ShrIsDivision(x, n - 1);
      HalveQuotient(x, Pow2(n - 1));
    }
  }

  lemma HalveQuotient(x: nat, p: nat)
    requires p > 0
    ensures x / p / 2 == x / (2 * p)
  {
    var q, r := x / p, x % p;
    var a, b := q / 2, q % 2;
    assert x == q * p + r;
    assert q * p == a * (2 * p) + b * p by {
      assert (2 * a + b) * p == a * (2 * p) + b * p;
    }
    assert b == 0 || b == 1;
    ModulusUnique(x, 2 * p, a, b * p + r);
  }

  function Min(a: int, b: int): int { if a < b then a else b }

  /** `a` clamped to the interval from zero to `hi`. */
  function Clamp(a: int, hi: nat): nat { if a < 0 then 0 else if a > hi then hi else a }

  lemma Multiples(k: int, d: int)
    requires d > 0
    ensures k >= 1 ==> k * d >= d
    ensures k <= -1 ==> k * d <= -d
  {
    if k >= 1 {
      assert (k - 1) * d >= 0;
    } else if k <= -1 {
      assert (-1 - k) * d >= 0;
    }
  }

  lemma ModulusUnique(x: nat, d: nat, q: nat, r: nat)
    requires d > 0 && r < d && x == q * d + r
    ensures x / d == q && x % d == r
  {
    var k := x / d - q;
    assert k * d == (x / d) * d - q * d;
    Multiples(k, d);
  }

  /** Dividing by p leaves a base-32 digit and a rest that together are the
      remainder modulo 32p. */
  lemma DivisionSplit(x: nat, p: nat)
    requires p > 0
    ensures x % (32 * p) == ((x / p) % 32) * p + x % p
  {
    var q, r := x / p, x % p;
    var a, b := q / 32, q % 32;
    assert q * p == a * (32 * p) + b * p by {
      assert q == 32 * a + b;
      Distribute(a, b, p);
    }
    assert b * p + r < 32 * p by { Multiples(32 - b, p); Subtract(b, p); }
    assert 0 <= b * p;
    ModulusUnique(x, 32 * p, a, b * p + r);
  }

  lemma Distribute(a: int, b: int, p: int)
    ensures (32 * a + b) * p == a * (32 * p) + b * p
  {}

  lemma Subtract(b: int, p: int)
    ensures (32 - b) * p == 32 * p - b * p
  {}
}
