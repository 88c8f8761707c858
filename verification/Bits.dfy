// Unsigned 32-bit words as numbers: bitwise operations, single bits, and counts
// of set bits.
module Bits {
  import opened Arithmetic

  const WORD: nat := 0x1_0000_0000

  function And(x: nat, y: nat): nat
    decreases x
  {
    if x == 0 || y == 0 then 0 else 2 * And(x / 2, y / 2) + (if x % 2 == 1 && y % 2 == 1 then 1 else 0)
  }

  function Or(x: nat, y: nat): nat
    decreases x + y
  {
    if x == 0 && y == 0 then 0 else 2 * Or(x / 2, y / 2) + (if x % 2 == 1 || y % 2 == 1 then 1 else 0)
  }

  function Xor(x: nat, y: nat): nat
    decreases x + y
  {
    if x == 0 && y == 0 then 0 else 2 * Xor(x / 2, y / 2) + (if x % 2 != y % 2 then 1 else 0)
  }

  /** The number of one bits of a word. */
  function PopCount(x: nat): nat {
    if x == 0 then 0 else PopCount(x / 2) + x % 2
  }

  /** Whether bit `i` of `x` is set. */
  predicate Has(x: nat, i: nat) {
    if i == 0 then x % 2 == 1 else Has(x / 2, i - 1)
  }

  /** How many of the bits below `i` are set. */
  function Rank(x: nat, i: nat): (r: nat)
    ensures r <= i
  {
    if i == 0 then 0 else Rank(x, i - 1) + (if Has(x, i - 1) then 1 else 0)
  }

  // -------------------------------------------------- what the operations do

  lemma {:induction false} HasZero(i: nat)
    ensures !Has(0, i)
  {
    if i > 0 { HasZero(i - 1); }
  }

  lemma {:induction false} HasAnd(x: nat, y: nat, i: nat)
    ensures Has(And(x, y), i) <==> Has(x, i) && Has(y, i)
    decreases i
  {
    if x == 0 || y == 0 {
      HasZero(i);
    } else if i > 0 {
      HasAnd(x / 2, y / 2, i - 1);
    }
  }

  lemma {:induction false} HasOr(x: nat, y: nat, i: nat)
    ensures Has(Or(x, y), i) <==> Has(x, i) || Has(y, i)
    decreases i
  {
    if x == 0 && y == 0 {
      HasZero(i);
    } else if i > 0 {
      HasOr(x / 2, y / 2, i - 1);
    }
  }

  lemma {:induction false} HasXor(x: nat, y: nat, i: nat)
    ensures Has(Xor(x, y), i) <==> Has(x, i) != Has(y, i)
    decreases i
  {
    if x == 0 && y == 0 {
      HasZero(i);
    } else if i > 0 {
      HasXor(x / 2, y / 2, i - 1);
    }
  }

  lemma {:induction false} HasPow2(n: nat, i: nat)
    ensures Has(Pow2(n), i) <==> i == n
  {
    if n == 0 {
      if i > 0 { HasZero(i - 1); }
    } else if i > 0 {
      HasPow2(n - 1, i - 1);
    }
  }

  lemma {:induction false} HasBelow(n: nat, i: nat)
    ensures Has(Pow2(n) - 1, i) <==> i < n
  {
    if n == 0 {
      HasZero(i);
    } else {
      assert (Pow2(n) - 1) / 2 == Pow2(n - 1) - 1;
      if i > 0 { HasBelow(n - 1, i - 1); }
    }
  }

  // ----------------------------------------------------------------- bounds

  lemma {:induction false} AndBound(x: nat, y: nat)
    ensures And(x, y) <= y
    decreases x
  {
    if x != 0 && y != 0 { AndBound(x / 2, y / 2); }
  }

  lemma {:induction false} OrBound(x: nat, y: nat, n: nat)
    requires x < Pow2(n) && y < Pow2(n)
    ensures Or(x, y) < Pow2(n)
    decreases n
  {
    if !(x == 0 && y == 0) { OrBound(x / 2, y / 2, n - 1); }
  }

  lemma {:induction false} XorBound(x: nat, y: nat, n: nat)
    requires x < Pow2(n) && y < Pow2(n)
    ensures Xor(x, y) < Pow2(n)
    decreases n
  {
    if !(x == 0 && y == 0) { XorBound(x / 2, y / 2, n - 1); }
  }

  // ---------------------------------------------------------------- counting

  lemma {:induction false} RankHalf(x: nat, n: nat)
    requires n > 0
    ensures Rank(x, n) == Rank(x / 2, n - 1) + x % 2
  {
    if n > 1 { RankHalf(x, n - 1); }
  }

  lemma {:induction false} PopCountIsRank(x: nat, n: nat)
    requires x < Pow2(n)
    ensures PopCount(x) == Rank(x, n)
    decreases n
  {
    if n > 0 {
      PopCountIsRank(x / 2, n - 1);
      RankHalf(x, n);
    }
  }

  lemma {:induction false} RankAgrees(x: nat, y: nat, n: nat)
    requires forall i | 0 <= i < n :: Has(x, i) == Has(y, i)
    ensures Rank(x, n) == Rank(y, n)
  {
    if n > 0 { RankAgrees(x, y, n - 1); }
  }

  lemma {:induction false} RankMonotone(x: nat, i: nat, j: nat)
    requires i < j && Has(x, i)
    ensures Rank(x, i) < Rank(x, j)
    decreases j
  {
    if i + 1 < j { RankMonotone(x, i, j - 1); }
  }

  /** Masking with the bits below one bit and counting gives the rank of that bit. */
  lemma MaskedCount(x: nat, n: nat)
    ensures PopCount(And(x, Pow2(n) - 1)) == Rank(x, n)
  {
    AndBound(x, Pow2(n) - 1);
    PopCountIsRank(And(x, Pow2(n) - 1), n);
    forall i | 0 <= i < n ensures Has(And(x, Pow2(n) - 1), i) == Has(x, i) {
      HasAnd(x, Pow2(n) - 1, i);
      HasBelow(n, i);
    }
    RankAgrees(And(x, Pow2(n) - 1), x, n);
  }

  /** Testing one bit with a mask. */
  lemma MaskedTest(x: nat, n: nat)
    ensures And(x, Pow2(n)) == 0 <==> !Has(x, n)
  {
    HasAnd(x, Pow2(n), n);
    HasPow2(n, n);
    HasZero(n);
    if !Has(x, n) {
      forall i ensures !Has(And(x, Pow2(n)), i) {
        HasAnd(x, Pow2(n), i);
        HasPow2(n, i);
      }
      NoBits(And(x, Pow2(n)));
    }
  }

  lemma {:induction false} NoBits(x: nat)
    requires forall i: nat :: !Has(x, i)
    ensures x == 0
  {
    if x != 0 {
      assert !Has(x, 0);
      forall i: nat ensures !Has(x / 2, i) {
        assert !Has(x, i + 1);
      }
      NoBits(x / 2);
    }
  }

  /** The rank of every bit after one bit has been switched on. */
  lemma {:induction false} RankAfterSet(x: nat, y: nat, b: nat, n: nat)
    requires !Has(x, b) && forall i: nat :: Has(y, i) <==> Has(x, i) || i == b
    ensures Rank(y, n) == Rank(x, n) + if b < n then 1 else 0
  {
    if n > 0 { RankAfterSet(x, y, b, n - 1); }
  }

  // ------------------------------------------------- the bits still to be read

  /** Two words agree on their low `s` bits. */
  ghost predicate Agree(x: nat, y: nat, s: nat) {
    forall i: nat | i < s && i < 32 :: Has(x, i) == Has(y, i)
  }

  lemma {:induction false} HasShr(x: nat, s: nat, i: nat)
    ensures Has(Shr(x, s), i) <==> Has(x, s + i)
  {
    if s > 0 {
      HasShr(x, s - 1, i + 1);
    }
  }

  lemma HalfOfRemainder(x: nat, p: nat)
    requires p > 0
    ensures x % (2 * p) % 2 == x % 2 && x % (2 * p) / 2 == x / 2 % p
  {
    var q, r := x / (2 * p), x % (2 * p);
    assert x == 2 * (q * p) + r by { Twice(q, p); }
    assert x / 2 == q * p + r / 2;
    assert r / 2 < p;
    ModulusUnique(x / 2, p, q, r / 2);
  }

  lemma Twice(q: int, p: int)
    ensures q * (2 * p) == 2 * (q * p)
  {}

  /** The low bits of a word are the bits of its remainder. */
  lemma {:induction false} HasMod(x: nat, n: nat, i: nat)
    requires i < n
    ensures Has(x % Pow2(n), i) == Has(x, i)
    decreases n
  {
    HalfOfRemainder(x, Pow2(n - 1));
    if i > 0 { HasMod(x / 2, n - 1, i - 1); }
  }

  lemma {:induction false} BitsDetermine(x: nat, y: nat, n: nat)
    requires x < Pow2(n) && y < Pow2(n)
    requires forall i: nat | i < n :: Has(x, i) == Has(y, i)
    ensures x == y
    decreases n
  {
    if n > 0 {
      assert Has(x, 0) == Has(y, 0);
      forall i: nat | i < n - 1 ensures Has(x / 2, i) == Has(y / 2, i) {
        assert Has(x, i + 1) == Has(y, i + 1);
      }
      BitsDetermine(x / 2, y / 2, n - 1);
    }
  }

  /** The branch a hash takes at a level: `(hash >> shift) & 31`, where a shift
      count is taken modulo the word size. */
  function Branch(hash: nat, shift: nat): (b: nat)
    ensures b < 32
  {
    Shr(hash, shift % 32) % 32
  }

  /** Words that agree so far and take the same branch agree five bits further. */
  lemma {:induction false} AgreeStep(x: nat, y: nat, s: nat)
    requires Agree(x, y, s) && Branch(x, s) == Branch(y, s)
    ensures Agree(x, y, s + 5)
  {
    Pow2Values();
    forall i: nat | i < s + 5 && i < 32 ensures Has(x, i) == Has(y, i) {
      if i >= s {
        HasShr(x, s, i - s);
        HasShr(y, s, i - s);
        HasMod(Shr(x, s), 5, i - s);
        HasMod(Shr(y, s), 5, i - s);
      }
    }
  }

  /** Different words that agree so far still have bits to be told apart by. */
  lemma AgreeBound(x: nat, y: nat, s: nat)
    requires Agree(x, y, s) && x != y && x < WORD && y < WORD
    ensures s < 32
  {
    if s >= 32 {
      Pow2Values();
      BitsDetermine(x, y, 32);
    }
  }
}
