// 64-bit integers: what arithmetic in them gives, and how to tell that it was not exact.
module WispArithmetic {

  const HALF: int := 0x8000_0000_0000_0000

  type Long = n: int | -0x8000_0000_0000_0000 <= n < 0x8000_0000_0000_0000

  predicate InLong(n: int) { -0x8000_0000_0000_0000 <= n < 0x8000_0000_0000_0000 }

  /** The low 64 bits of a number, with their sign. */
  function Wrap(n: int): Long { (n + 0x8000_0000_0000_0000) % 0x1_0000_0000_0000_0000 - 0x8000_0000_0000_0000 }

  function Absolute(n: int): nat { if n < 0 then -n else n }

  /** Division toward zero, and what it leaves. */
  function Quotient(x: int, y: int): int
    requires y != 0
  {
    if (x >= 0) == (y > 0) then Absolute(x) / Absolute(y) else -(Absolute(x) / Absolute(y))
  }

  function Remainder(x: int, y: int): int
    requires y != 0
  {
    x - y * Quotient(x, y)
  }

  lemma Signs(a: int, b: int)
    ensures (-a) * b == -(a * b) && a * (-b) == -(a * b) && (-a) * (-b) == a * b
  {}

  lemma AtLeast(a: int, b: int)
    requires a >= 1 && b >= 0
    ensures a * b >= b
  {
    assert (a - 1) * b >= 0;
    assert a * b == (a - 1) * b + b;
  }

  lemma AtLeastTwice(a: int, b: int)
    requires a >= 2 && b >= 0
    ensures a * b >= 2 * b
  {
    AtLeast(a - 1, b);
    assert a * b == (a - 1) * b + b;
  }

  lemma Wraps(n: int) returns (m: int)
    ensures n == Wrap(n) + m * 0x1_0000_0000_0000_0000
    ensures InLong(n) <==> Wrap(n) == n
  {
    m := (n + 0x8000_0000_0000_0000) / 0x1_0000_0000_0000_0000;
  }

  /** A quotient leaves less than its divisor. */
  lemma QuotientLeaves(x: int, y: int)
    requires y != 0
    ensures Absolute(Remainder(x, y)) < Absolute(y)
  {
    var a: int, b: int := Absolute(x), Absolute(y);
    var k := a / b;
    assert a == b * k + a % b && 0 <= a % b < b;
    Signs(b, k);
  }

  lemma QuotientSize(a: nat, b: nat)
    requires b > 0
    ensures 0 <= a / b <= a
    ensures b > 1 && a > 0 ==> a / b < a
    ensures b == 1 ==> a / b == a
  {
    var k: int := a / b;
    assert a == b * k + a % b;
    assert k >= 0;
    AtLeast(b, k);
    if b > 1 { AtLeastTwice(b, k); }
  }

  /** The one quotient of 64-bit integers that is not one is the smallest over -1. */
  lemma QuotientFits(x: Long, y: Long)
    requires y != 0
    ensures InLong(Quotient(x, y)) <==> !(x == -HALF && y == -1)
    ensures InLong(Remainder(x, y))
  {
    QuotientLeaves(x, y);
    var a, b := Absolute(x), Absolute(y);
    QuotientSize(a, b);
    assert Absolute(Quotient(x, y)) == a / b;
    assert Absolute(Remainder(x, y)) < b <= 0x8000_0000_0000_0000;
    if b == 1 { assert y == 1 || y == -1; }
    if b > 1 && a > 0 { assert a / b < 0x8000_0000_0000_0000; }
  }

  lemma Larger(y: int, d: int)
    requires d != 0
    ensures Absolute(y * d) >= Absolute(y)
  {
    var a: int, b: int := Absolute(y), Absolute(d);
    Signs(a, b);
    assert Absolute(y * d) == a * b;
    AtLeast(b, a);
    assert a * b == b * a;
  }

  lemma ProductDivides(x: int, y: int)
    requires y != 0
    ensures Quotient(x * y, y) == x
  {
    QuotientLeaves(x * y, y);
    var q := Quotient(x * y, y);
    Factored(x, y, q);
    if q != x { Larger(y, x - q); }
  }

  lemma Factored(x: int, y: int, q: int)
    ensures x * y - y * q == y * (x - q)
  {}

  /** Dividing a wrapped product by one factor gives the other exactly when nothing was
      lost. */
  lemma ProductShows(x: Long, y: Long)
    requires y != 0
    ensures Quotient(Wrap(x * y), y) == x <==> InLong(x * y)
    ensures y == -1 && Wrap(x * y) == -HALF ==> x == -HALF
  {
    hide Quotient, Wrap;
    var z := Wrap(x * y);
    var m := Wraps(x * y);
    QuotientLeaves(z, y);
    assert y * x == x * y;
    if InLong(x * y) { ProductDivides(x, y); }
  }

  /** A sum or a difference that wraps comes out on the wrong side. */
  lemma SumShows(x: Long, y: Long)
    ensures var z := Wrap(x + y);
      ((y > 0 && z < x) || (y < 0 && z > x)) <==> !InLong(x + y)
    ensures var z := Wrap(x - y);
      ((y < 0 && z < x) || (y > 0 && z > x)) <==> !InLong(x - y)
  {
    var m := Wraps(x + y);
    var n := Wraps(x - y);
    assert -1 <= m <= 1 && -1 <= n <= 1;
  }
}
