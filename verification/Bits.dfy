/** Bits of natural numbers: enough of `&`, `|` and `<<` for the flags and masks of the
    driver. */
module Bits {

  function Pow2(k: nat): (r: nat)
    ensures r > 0
  {
    if k == 0 then 1 else 2 * Pow2(k - 1)
  }

  /** Bit `k` of `x`. */
  predicate Bit(x: nat, k: nat) {
    if k == 0 then x % 2 == 1 else Bit(x / 2, k - 1)
  }

  function Or(x: nat, y: nat): nat
    decreases x + y
  {
    if x == 0 && y == 0 then 0
    else 2 * Or(x / 2, y / 2) + if x % 2 == 1 || y % 2 == 1 then 1 else 0
  }

  function And(x: nat, y: nat): nat
    decreases x + y
  {
    if x == 0 || y == 0 then 0
    else 2 * And(x / 2, y / 2) + if x % 2 == 1 && y % 2 == 1 then 1 else 0
  }

  lemma {:induction false} NoBits(k: nat)
    ensures !Bit(0, k)
  {
    if k > 0 { NoBits(k - 1); }
  }

  lemma Halves(q: nat, b: nat)
    requires b < 2
    ensures (2 * q + b) / 2 == q && (2 * q + b) % 2 == b
  {
  }

  lemma {:induction false} OrBits(x: nat, y: nat, k: nat)
    ensures Bit(Or(x, y), k) <==> Bit(x, k) || Bit(y, k)
    decreases k
  {
    NoBits(k);
    if x != 0 || y != 0 { Halves(Or(x / 2, y / 2), if x % 2 == 1 || y % 2 == 1 then 1 else 0); }
    if k > 0 { OrBits(x / 2, y / 2, k - 1); }
  }

  lemma {:induction false} AndBits(x: nat, y: nat, k: nat)
    ensures Bit(And(x, y), k) <==> Bit(x, k) && Bit(y, k)
    decreases k
  {
    NoBits(k);
    if x != 0 && y != 0 { Halves(And(x / 2, y / 2), if x % 2 == 1 && y % 2 == 1 then 1 else 0); }
    if k > 0 { AndBits(x / 2, y / 2, k - 1); }
  }

  lemma {:induction false} AndAtMost(x: nat, y: nat)
    ensures And(x, y) <= x
    decreases x + y
  {
    if x != 0 && y != 0 { AndAtMost(x / 2, y / 2); }
  }

  lemma {:induction false} Pow2Bits(d: nat, k: nat)
    ensures Bit(Pow2(d), k) <==> k == d
  {
    if d > 0 {
      assert Pow2(d) / 2 == Pow2(d - 1);
      if k > 0 { Pow2Bits(d - 1, k - 1); }
    } else if k > 0 {
      NoBits(k - 1);
    }
  }

  lemma {:induction false} Pow2Monotone(i: nat, j: nat)
    requires i <= j
    ensures Pow2(i) <= Pow2(j)
  {
    if i < j { Pow2Monotone(i, j - 1); }
  }

  lemma WordIsPow2()
    ensures Pow2(64) == 0x1_0000_0000_0000_0000
  {
    assert Pow2(4) == 16;
    hide Pow2;
    Pow2Sum(4, 4);
    Pow2Sum(8, 8);
    Pow2Sum(16, 16);
    Pow2Sum(32, 32);
  }

  lemma {:induction false} Pow2Sum(i: nat, j: nat)
    ensures Pow2(i + j) == Pow2(i) * Pow2(j)
  {
    if i > 0 { Pow2Sum(i - 1, j); }
  }

  /** Masking with the complement of `2^k - 1` in a word of `n` bits clears the low bits:
      what is left is the multiple of 2^k at or below. */
  lemma {:induction false} MaskLowBits(x: nat, k: nat, n: nat)
    requires k <= n && x < Pow2(n)
    ensures Pow2(k) <= Pow2(n)
    ensures And(x, Pow2(n) - Pow2(k)) == x - x % Pow2(k)
    decreases n
  {
    hide And, Pow2;
    Pow2Monotone(k, n);
    Doubles(n);
    Doubles(k);
    if n == 0 {
      MaskNone(x, Pow2(n), Pow2(k));
    } else if k == 0 {
      HalfBelow(x, Pow2(n - 1));
      MaskLowBits(x / 2, k, n - 1);
      MaskNothing(x, Pow2(n - 1), Pow2(n), Pow2(k));
    } else {
      HalfBelow(x, Pow2(n - 1));
      MaskLowBits(x / 2, k - 1, n - 1);
      MaskDoubles(x, Pow2(n - 1), Pow2(k - 1), Pow2(n), Pow2(k));
    }
  }

  lemma HalfBelow(x: nat, m: nat)
    requires x < 2 * m
    ensures x / 2 < m
  {
  }

  lemma MaskNone(x: nat, m: nat, d: nat)
    requires x < m == d == 1
    ensures And(x, m - d) == x - x % d
  {
    AndZero(0);
  }

  lemma MaskNothing(x: nat, half: nat, m: nat, d: nat)
    requires 0 < half && m == 2 * half && d == 1 && And(x / 2, half - d) == x / 2 - x / 2 % d
    ensures And(x, m - d) == x - x % d
  {
    hide And;
    AndHalves(x, half - 1, 1);
  }

  lemma MaskDoubles(x: nat, half: nat, p: nat, m: nat, d: nat)
    requires 0 < p <= half && m == 2 * half && d == 2 * p && And(x / 2, half - p) == x / 2 - x / 2 % p
    ensures And(x, m - d) == x - x % d
  {
    hide And;
    AndHalves(x, half - p, 0);
    HalfModulo(x, p);
  }

  lemma Doubles(k: nat)
    ensures Pow2(k) == if k == 0 then 1 else 2 * Pow2(k - 1)
  {
  }

  lemma AndZero(y: nat)
    ensures And(0, y) == 0
  {
  }

  /** Bit `k` is the binary digit of 2^k. */
  lemma {:induction false} BitIsDigit(x: nat, k: nat)
    ensures Bit(x, k) <==> x / Pow2(k) % 2 == 1
  {
    hide Pow2;
    Doubles(k);
    if k > 0 {
      BitIsDigit(x / 2, k - 1);
      HalfQuotient(x, Pow2(k - 1));
    }
  }

  lemma HalfQuotient(x: nat, d: nat)
    requires d > 0
    ensures x / (2 * d) == x / 2 / d
  {
    var (q, r) := (x / 2 / d, x / 2 % d);
    assert x == 2 * d * q + (2 * r + x % 2);
    DivModUnique(x, 2 * d, q, 2 * r + x % 2);
  }

  /** The lowest bits, and the rest, are masked separately. */
  lemma AndHalves(x: nat, m: nat, b: nat)
    requires b < 2
    ensures And(x, 2 * m + b) == 2 * And(x / 2, m) + if b == 1 then x % 2 else 0
  {
    Halves(m, b);
  }

  lemma HalfModulo(x: nat, p: nat)
    requires p > 0
    ensures x % (2 * p) == 2 * (x / 2 % p) + x % 2
  {
    var (q, r) := (x / 2 / p, x / 2 % p);
    assert x == 2 * p * q + (2 * r + x % 2);
    DivModUnique(x, 2 * p, q, 2 * r + x % 2);
  }

  lemma DivModUnique(x: nat, d: nat, q: nat, r: nat)
    requires r < d && x == d * q + r
    ensures x / d == q && x % d == r
  {
    var (q', r') := (x / d, x % d);
    DivMod(x, d);
    if q < q' { Times(d, q + 1, q'); }
    if q' < q { Times(d, q' + 1, q); }
  }

  lemma DivMod(x: nat, d: nat)
    requires d > 0
    ensures x == d * (x / d) + x % d
  {
  }

  lemma {:induction false} Times(d: nat, i: nat, j: nat)
    requires i <= j
    ensures d * i <= d * j && d * i == d * (i - 1) + d
  {
    assert d * j - d * i == d * (j - i);
  }
}
