/** Bitwise arithmetic on unsigned integers, one bit at a time. */
module Bits {

  function Pow2(i: nat): (p: nat)
    ensures p > 0
  {
    if i == 0 then 1 else 2 * Pow2(i - 1)
  }

  /** Bit `i` of `n`, bit 0 being the least significant. */
  predicate Bit(n: nat, i: nat) {
    if i == 0 then n % 2 == 1 else Bit(n / 2, i - 1)
  }

  function BitOr(a: nat, b: nat): nat
    decreases a + b
  {
    if a == 0 && b == 0 then 0
    else (if a % 2 == 1 || b % 2 == 1 then 1 else 0) + 2 * BitOr(a / 2, b / 2)
  }

  function BitAnd(a: nat, b: nat): nat {
    if a == 0 then 0
    else (if a % 2 == 1 && b % 2 == 1 then 1 else 0) + 2 * BitAnd(a / 2, b / 2)
  }

  /** `a & !b`. */
  function AndNot(a: nat, b: nat): nat {
    if a == 0 then 0
    else (if a % 2 == 1 && b % 2 == 0 then 1 else 0) + 2 * AndNot(a / 2, b / 2)
  }

  lemma {:induction false} BitOfZero(i: nat)
    ensures !Bit(0, i)
  {
    if i > 0 {
      BitOfZero(i - 1);
    }
  }

  lemma {:induction false} BitOrBits(a: nat, b: nat, i: nat)
    ensures Bit(BitOr(a, b), i) == (Bit(a, i) || Bit(b, i))
  {
    if a == 0 && b == 0 {
      BitOfZero(i);
    } else if i > 0 {
      BitOrBits(a / 2, b / 2, i - 1);
      OrHalves(a, b);
    } else {
      OrHalves(a, b);
    }
  }

  lemma OrHalves(a: nat, b: nat)
    ensures BitOr(a, b) / 2 == BitOr(a / 2, b / 2)
    ensures BitOr(a, b) % 2 == if a % 2 == 1 || b % 2 == 1 then 1 else 0
  {
  }

  lemma {:induction false} AndNotBits(a: nat, b: nat, i: nat)
    ensures Bit(AndNot(a, b), i) == (Bit(a, i) && !Bit(b, i))
  {
    if a == 0 {
      BitOfZero(i);
    } else if i > 0 {
      AndNotBits(a / 2, b / 2, i - 1);
      assert AndNot(a, b) / 2 == AndNot(a / 2, b / 2);
    }
  }

  lemma {:induction false} Pow2Bits(i: nat, j: nat)
    ensures Bit(Pow2(i), j) == (i == j)
  {
    if i > 0 && j > 0 {
      Pow2Bits(i - 1, j - 1);
    } else if i == 0 && j > 0 {
      BitOfZero(j - 1);
    }
  }

  /** Numbers with the same bits are equal. */
  lemma {:induction false} SameBits(a: nat, b: nat)
    requires forall i: nat :: Bit(a, i) == Bit(b, i)
    ensures a == b
    decreases a + b
  {
    if a != 0 || b != 0 {
      assert Bit(a, 0) == Bit(b, 0);
      forall i: nat
        ensures Bit(a / 2, i) == Bit(b / 2, i)
      {
        assert Bit(a, i + 1) == Bit(b, i + 1);
      }
      SameBits(a / 2, b / 2);
    }
  }

  lemma {:induction false} HighBitsClear(n: nat, width: nat, i: nat)
    requires n < Pow2(width) && width <= i
    ensures !Bit(n, i)
  {
    if width == 0 {
      BitOfZero(i);
    } else {
      HighBitsClear(n / 2, width - 1, i - 1);
    }
  }

  lemma {:induction false} BitOrBound(a: nat, b: nat, width: nat)
    requires a < Pow2(width) && b < Pow2(width)
    ensures BitOr(a, b) < Pow2(width)
  {
    if width > 0 {
      BitOrBound(a / 2, b / 2, width - 1);
    }
  }

  lemma {:induction false} Pow2Grows(i: nat, j: nat)
    requires i < j
    ensures Pow2(i) < Pow2(j)
  {
    if i > 0 {
      Pow2Grows(i - 1, j - 1);
    }
  }

  /** `n << k`. */
  function ShiftLeft(n: nat, k: nat): nat {
    if k == 0 then n else 2 * ShiftLeft(n, k - 1)
  }

  lemma {:induction false} ShiftSum(a: nat, b: nat, k: nat)
    ensures ShiftLeft(a + b, k) == ShiftLeft(a, k) + ShiftLeft(b, k)
  {
    if k > 0 {
      ShiftSum(a, b, k - 1);
    }
  }

  /** Shifting four places further multiplies by sixteen. */
  lemma {:induction false} ShiftDigit(n: nat, k: nat)
    ensures ShiftLeft(n, k + 4) == ShiftLeft(16 * n, k)
    ensures Pow2(k + 4) == 16 * Pow2(k)
  {
    if k > 0 {
      ShiftDigit(n, k - 1);
    } else {
      assert ShiftLeft(n, 1) == 2 * n && ShiftLeft(n, 2) == 4 * n && ShiftLeft(n, 3) == 8 * n;
      assert Pow2(2) == 4 && Pow2(4) == 16;
    }
  }

  lemma {:induction false} ShiftBound(n: nat, width: nat, k: nat)
    requires n < Pow2(width)
    ensures ShiftLeft(n, k) < Pow2(width + k)
  {
    if k > 0 {
      ShiftBound(n, width, k - 1);
    }
  }

  /** Setting bits below a shifted number adds them. */
  lemma {:induction false} OrDisjoint(a: nat, k: nat, b: nat)
    requires b < Pow2(k)
    ensures BitOr(ShiftLeft(a, k), b) == ShiftLeft(a, k) + b
  {
    if k == 0 {
      OrZero(a);
    } else {
      OrDisjoint(a, k - 1, b / 2);
      OrHalf(ShiftLeft(a, k - 1), b / 2, b % 2);
    }
  }

  lemma OrHalf(x: nat, y: nat, bit: nat)
    requires bit < 2
    ensures BitOr(2 * x, 2 * y + bit) == 2 * BitOr(x, y) + bit
  {
    assert (2 * x) / 2 == x && (2 * y + bit) / 2 == y;
    if x == 0 && y == 0 && bit == 0 {
      assert BitOr(0, 0) == 0;
    }
  }

  lemma {:induction false} OrZero(a: nat)
    ensures BitOr(a, 0) == a
  {
    if a != 0 {
      OrZero(a / 2);
    }
  }

  lemma {:induction false} AndZero(a: nat)
    ensures BitAnd(a, 0) == 0
  {
    if a != 0 {
      AndZero(a / 2);
    }
  }

  lemma AndHalf(x: nat, d: nat, m: nat, n: nat)
    requires d < 2 && n < 2
    ensures BitAnd(2 * x + d, 2 * m + n) == 2 * BitAnd(x, m) + if d == 1 && n == 1 then 1 else 0
  {
    assert (2 * x + d) / 2 == x && (2 * m + n) / 2 == m;
  }

  /** Low bits under a mask of ones are kept, under a mask of zeros cleared. */
  lemma {:induction false} AndLowBits(x: nat, d: nat, m: nat, k: nat)
    requires d < Pow2(k)
    ensures BitAnd(ShiftLeft(x, k) + d, ShiftLeft(m, k) + (Pow2(k) - 1)) == ShiftLeft(BitAnd(x, m), k) + d
    ensures BitAnd(ShiftLeft(x, k) + d, ShiftLeft(m, k)) == ShiftLeft(BitAnd(x, m), k)
  {
    if k > 0 {
      AndLowBits(x, d / 2, m, k - 1);
      AndHalf(ShiftLeft(x, k - 1) + d / 2, d % 2, ShiftLeft(m, k - 1) + (Pow2(k - 1) - 1), 1);
      AndHalf(ShiftLeft(x, k - 1) + d / 2, d % 2, ShiftLeft(m, k - 1), 0);
    }
  }

  lemma {:induction false} AndNotBound(a: nat, b: nat)
    ensures AndNot(a, b) <= a
  {
    if a != 0 {
      AndNotBound(a / 2, b / 2);
    }
  }
}
