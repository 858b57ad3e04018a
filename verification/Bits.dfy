/** Bitwise operations on unbounded naturals, bit by bit, and the laws the masks and shifts rely on. */
module Bits {
  function Pow2(n: nat): (p: nat)
    ensures p >= 1
  {
    if n == 0 then 1 else 2 * Pow2(n - 1)
  }

  predicate Bit(a: nat, i: nat) {
    if i == 0 then a % 2 == 1 else Bit(a / 2, i - 1)
  }

  function BitAnd(a: nat, b: nat): nat {
    if a == 0 then 0
    else (if a % 2 == 1 && b % 2 == 1 then 1 else 0) + 2 * BitAnd(a / 2, b / 2)
  }

  function BitOr(a: nat, b: nat): nat
    decreases a + b
  {
    if a == 0 then b
    else (if a % 2 == 1 || b % 2 == 1 then 1 else 0) + 2 * BitOr(a / 2, b / 2)
  }

  /** a with every bit of b cleared (Go's `a &^ b`, or `a & ^b`). */
  function BitClear(a: nat, b: nat): nat {
    if a == 0 then 0
    else (if a % 2 == 1 && b % 2 == 0 then 1 else 0) + 2 * BitClear(a / 2, b / 2)
  }

  lemma ZeroHasNoBits(i: nat)
    ensures !Bit(0, i)
  {
  }

  lemma HalfOfSum(low: nat, high: nat)
    requires low <= 1
    ensures (low + 2 * high) / 2 == high && (low + 2 * high) % 2 == low
  {
  }

  lemma HalfOfAnd(a: nat, b: nat)
    requires a != 0
    ensures BitAnd(a, b) / 2 == BitAnd(a / 2, b / 2) && (BitAnd(a, b) % 2 == 1 <==> a % 2 == 1 && b % 2 == 1)
  {
    HalfOfSum(if a % 2 == 1 && b % 2 == 1 then 1 else 0, BitAnd(a / 2, b / 2));
  }

  lemma {:induction false} BitOfAnd(a: nat, b: nat, i: nat)
    ensures Bit(BitAnd(a, b), i) <==> Bit(a, i) && Bit(b, i)
    decreases i
  {
    if a == 0 {
      ZeroHasNoBits(i);
    } else {
      HalfOfAnd(a, b);
      if i > 0 { BitOfAnd(a / 2, b / 2, i - 1); }
    }
  }

  lemma HalfOfOr(a: nat, b: nat)
    requires a != 0
    ensures BitOr(a, b) / 2 == BitOr(a / 2, b / 2) && (BitOr(a, b) % 2 == 1 <==> a % 2 == 1 || b % 2 == 1)
  {
    HalfOfSum(if a % 2 == 1 || b % 2 == 1 then 1 else 0, BitOr(a / 2, b / 2));
  }

  lemma {:induction false} BitOfOr(a: nat, b: nat, i: nat)
    ensures Bit(BitOr(a, b), i) <==> Bit(a, i) || Bit(b, i)
    decreases i
  {
    if a == 0 {
      ZeroHasNoBits(i);
    } else {
      HalfOfOr(a, b);
      if i > 0 { BitOfOr(a / 2, b / 2, i - 1); }
    }
  }

  lemma HalfOfClear(a: nat, b: nat)
    requires a != 0
    ensures BitClear(a, b) / 2 == BitClear(a / 2, b / 2) && (BitClear(a, b) % 2 == 1 <==> a % 2 == 1 && b % 2 == 0)
  {
    HalfOfSum(if a % 2 == 1 && b % 2 == 0 then 1 else 0, BitClear(a / 2, b / 2));
  }

  lemma {:induction false} BitOfClear(a: nat, b: nat, i: nat)
    ensures Bit(BitClear(a, b), i) <==> Bit(a, i) && !Bit(b, i)
    decreases i
  {
    if a == 0 {
      ZeroHasNoBits(i);
    } else {
      HalfOfClear(a, b);
      if i > 0 { BitOfClear(a / 2, b / 2, i - 1); }
    }
  }

  /** Naturals with the same bits are equal. */
  lemma {:induction false} SameBitsSameNumber(a: nat, b: nat)
    requires forall i: nat :: Bit(a, i) <==> Bit(b, i)
    ensures a == b
    decreases a + b
  {
    assert Bit(a, 0) <==> Bit(b, 0);
    if a + b > 0 {
      forall i: nat
        ensures Bit(a / 2, i) <==> Bit(b / 2, i)
      {
        assert Bit(a, i + 1) <==> Bit(b, i + 1);
      }
      SameBitsSameNumber(a / 2, b / 2);
    }
  }

  /** A power of two has exactly one bit. */
  lemma {:induction false} BitOfPow2(n: nat, i: nat)
    ensures Bit(Pow2(n), i) <==> i == n
    decreases i
  {
    if n == 0 {
      if i > 0 { ZeroHasNoBits(i - 1); }
    } else if i > 0 {
      BitOfPow2(n - 1, i - 1);
      assert Pow2(n) / 2 == Pow2(n - 1);
    }
  }

  /** Go's single-flag test `a & p == p` looks at exactly bit n. */
  lemma MaskTestsOneBit(a: nat, n: nat)
    ensures BitAnd(a, Pow2(n)) == Pow2(n) <==> Bit(a, n)
    ensures BitAnd(a, Pow2(n)) != 0 <==> Bit(a, n)
  {
    BitOfPow2(n, n);
    BitOfAnd(a, Pow2(n), n);
    if Bit(a, n) {
      forall i: nat
        ensures Bit(BitAnd(a, Pow2(n)), i) <==> Bit(Pow2(n), i)
      {
        BitOfAnd(a, Pow2(n), i);
        BitOfPow2(n, i);
      }
      SameBitsSameNumber(BitAnd(a, Pow2(n)), Pow2(n));
    } else {
      forall i: nat
        ensures Bit(BitAnd(a, Pow2(n)), i) <==> Bit(0, i)
      {
        BitOfAnd(a, Pow2(n), i);
        BitOfPow2(n, i);
        ZeroHasNoBits(i);
      }
      SameBitsSameNumber(BitAnd(a, Pow2(n)), 0);
    }
  }

  /** Or-ing a number into the n clear low bits of a shifted one is addition. */
  lemma {:induction false} OrOfDisjointIsSum(high: nat, low: nat, n: nat)
    requires low < Pow2(n)
    ensures BitOr(high * Pow2(n), low) == high * Pow2(n) + low
    decreases n
  {
    if n == 0 {
      assert BitOr(high, 0) == high by { OrWithZero(high); }
    } else {
      var p := Pow2(n - 1);
      assert high * Pow2(n) == 2 * (high * p);
      if high * Pow2(n) != 0 {
        OrOfDisjointIsSum(high, low / 2, n - 1);
        assert high * Pow2(n) / 2 == high * p;
      }
    }
  }

  lemma {:induction false} OrWithZero(a: nat)
    ensures BitOr(a, 0) == a
  {
    if a != 0 { OrWithZero(a / 2); }
  }

  lemma {:induction false} Pow2Sum(m: nat, n: nat)
    ensures Pow2(m + n) == Pow2(m) * Pow2(n)
  {
    if m > 0 { Pow2Sum(m - 1, n); }
  }

  lemma MultipleIsFar(d: int, m: int)
    requires m >= 0
    ensures d >= 1 ==> d * m >= m
    ensures d <= -1 ==> d * m <= -m
  {
    if d >= 1 {
      assert (d - 1) * m >= 0;
    } else if d <= -1 {
      assert (-d - 1) * m >= 0;
    }
  }

  lemma DivModUnique(a: int, m: int, q: int, r: int)
    requires 0 <= r < m && a == q * m + r
    ensures a / m == q && a % m == r
  {
    var d := a / m - q;
    assert a == a / m * m + a % m;
    assert d * m == r - a % m;
    MultipleIsFar(d, m);
  }

  lemma QuotientIsNatural(a: nat, m: nat)
    requires m > 0
    ensures a / m >= 0
  {
    assert a == a / m * m + a % m;
    MultipleIsFar(a / m, m);
  }

  lemma DoubledRemainder(a: nat, p: nat)
    requires p > 0
    ensures a % (2 * p) == 2 * (a / 2 % p) + a % 2
  {
    var q, r := a / 2 / p, a / 2 % p;
    assert a / 2 == q * p + r;
    assert a == q * (2 * p) + (2 * r + a % 2);
    DivModUnique(a, 2 * p, q, 2 * r + a % 2);
  }

  lemma AndStep(a: nat, m: nat)
    requires m % 2 == 1
    ensures BitAnd(a, m) == a % 2 + 2 * BitAnd(a / 2, m / 2)
  {
  }

  lemma HalfOfLowMask(n: nat)
    requires n > 0
    ensures (Pow2(n) - 1) / 2 == Pow2(n - 1) - 1 && (Pow2(n) - 1) % 2 == 1
  {
  }

  /** Masking with n low ones is the remainder by 2^n. */
  lemma {:induction false} AndLowMask(a: nat, n: nat)
    ensures BitAnd(a, Pow2(n) - 1) == a % Pow2(n)
    decreases n
  {
    if n == 0 {
      AndWithZero(a);
    } else {
      AndLowMask(a / 2, n - 1);
      HalfOfLowMask(n);
      AndStep(a, Pow2(n) - 1);
      DoubledRemainder(a, Pow2(n - 1));
    }
  }

  lemma {:induction false} AndWithZero(a: nat)
    ensures BitAnd(a, 0) == 0
  {
    if a > 0 { AndWithZero(a / 2); }
  }
}
