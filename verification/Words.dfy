/** Unsigned words held as natural numbers, taken apart one binary digit at a time. */
module Words {

  function Pow2(n: nat): (p: nat)
    ensures p > 0
  {
    if n == 0 then 1 else 2 * Pow2(n - 1)
  }

  /** Shift right by s. */
  function Shr(x: nat, s: nat): nat {
    if s == 0 then x else Shr(x / 2, s - 1)
  }

  /** Shift left by s. */
  function Shl(x: nat, s: nat): nat {
    if s == 0 then x else 2 * Shl(x, s - 1)
  }

  /** The low n bits. */
  function Low(x: nat, n: nat): (r: nat)
    ensures r < Pow2(n)
  {
    if n == 0 then 0 else x % 2 + 2 * Low(x / 2, n - 1)
  }

  /** Bits lo (included) to hi (excluded). */
  function Bits(x: nat, lo: nat, hi: nat): (r: nat)
    requires lo <= hi
    ensures r < Pow2(hi - lo)
  {
    Low(Shr(x, lo), hi - lo)
  }

  predicate Bit(x: nat, i: nat) {
    Shr(x, i) % 2 == 1
  }

  /** masked, with a mask of s ones: the low s bits of b below the rest of a. */
  function Masked(a: nat, b: nat, s: nat): nat {
    if s == 0 then a else b % 2 + 2 * Masked(a / 2, b / 2, s - 1)
  }

  function Or(a: nat, b: nat): nat
    decreases a + b
  {
    if a == 0 then b else if b == 0 then a
    else (if a % 2 == 1 || b % 2 == 1 then 1 else 0) + 2 * Or(a / 2, b / 2)
  }

  function And(a: nat, b: nat): nat
    decreases a
  {
    if a == 0 then 0 else (if a % 2 == 1 && b % 2 == 1 then 1 else 0) + 2 * And(a / 2, b / 2)
  }

  /** Exclusive or of the low n bits. */
  function Xor(a: nat, b: nat, n: nat): (r: nat)
    ensures r < Pow2(n)
  {
    if n == 0 then 0 else (if a % 2 != b % 2 then 1 else 0) + 2 * Xor(a / 2, b / 2, n - 1)
  }

  /** n ones. */
  function Ones(n: nat): nat { Pow2(n) - 1 }

  lemma {:induction false} BitStep(x: nat, i: nat)
    ensures Bit(x, i) == if i == 0 then x % 2 == 1 else Bit(x / 2, i - 1)
  {
  }

  lemma {:induction false} BitCons(d: nat, x: nat, i: nat)
    requires d < 2
    ensures Bit(d + 2 * x, i) == if i == 0 then d == 1 else Bit(x, i - 1)
  {
    BitStep(d + 2 * x, i);
  }

  lemma {:induction false} BitZero(i: nat)
    ensures !Bit(0, i)
  {
    if i > 0 {
      BitZero(i - 1);
    }
  }

  lemma {:induction false} BitShr(x: nat, s: nat, i: nat)
    ensures Bit(Shr(x, s), i) == Bit(x, i + s)
  {
    if s > 0 {
      BitShr(x / 2, s - 1, i);
      BitStep(x, i + s);
    }
  }

  lemma {:induction false} BitShl(x: nat, s: nat, i: nat)
    ensures Bit(Shl(x, s), i) == (i >= s && Bit(x, i - s))
  {
    if s > 0 {
      BitStep(Shl(x, s), i);
      if i > 0 {
        BitShl(x, s - 1, i - 1);
      }
    }
  }

  lemma {:induction false} BitLow(x: nat, n: nat, i: nat)
    ensures Bit(Low(x, n), i) == (i < n && Bit(x, i))
  {
    if n == 0 {
      BitZero(i);
    } else {
      BitCons(x % 2, Low(x / 2, n - 1), i);
      BitStep(x, i);
      if i > 0 {
        BitLow(x / 2, n - 1, i - 1);
      }
    }
  }

  lemma {:induction false} BitOr(a: nat, b: nat, i: nat)
    ensures Bit(Or(a, b), i) == (Bit(a, i) || Bit(b, i))
    decreases a + b
  {
    if a == 0 || b == 0 {
      BitZero(i);
    } else {
      BitStep(a, i);
      BitStep(b, i);
      BitCons(if a % 2 == 1 || b % 2 == 1 then 1 else 0, Or(a / 2, b / 2), i);
      if i > 0 {
        BitOr(a / 2, b / 2, i - 1);
      }
    }
  }

  lemma {:induction false} BitAnd(a: nat, b: nat, i: nat)
    ensures Bit(And(a, b), i) == (Bit(a, i) && Bit(b, i))
    decreases a
  {
    if a == 0 {
      BitZero(i);
    } else {
      BitStep(a, i);
      BitStep(b, i);
      BitCons(if a % 2 == 1 && b % 2 == 1 then 1 else 0, And(a / 2, b / 2), i);
      if i > 0 {
        BitAnd(a / 2, b / 2, i - 1);
      }
    }
  }

  lemma {:induction false} BitXor(a: nat, b: nat, n: nat, i: nat)
    ensures Bit(Xor(a, b, n), i) == (i < n && Bit(a, i) != Bit(b, i))
  {
    if n == 0 {
      BitZero(i);
    } else {
      BitStep(a, i);
      BitStep(b, i);
      BitCons(if a % 2 != b % 2 then 1 else 0, Xor(a / 2, b / 2, n - 1), i);
      if i > 0 {
        BitXor(a / 2, b / 2, n - 1, i - 1);
      }
    }
  }

  lemma {:induction false} BitOnes(n: nat, i: nat)
    ensures Bit(Ones(n), i) == (i < n)
  {
    if n == 0 {
      BitZero(i);
    } else {
      BitCons(1, Ones(n - 1), i);
      if i > 0 {
        BitOnes(n - 1, i - 1);
      }
    }
  }

  /** masked: the low s bits from the second word, the others from the first. */
  lemma {:induction false} MaskedBits(a: nat, b: nat, s: nat, i: nat)
    ensures Bit(Masked(a, b, s), i) == if i < s then Bit(b, i) else Bit(a, i)
  {
    if s > 0 {
      BitStep(a, i);
      BitStep(b, i);
      BitCons(b % 2, Masked(a / 2, b / 2, s - 1), i);
      if i > 0 {
        MaskedBits(a / 2, b / 2, s - 1, i - 1);
      }
    }
  }

  /** Words of n bits with the same bits are the same. */
  lemma {:induction false} SameBits(a: nat, b: nat, n: nat)
    requires a < Pow2(n) && b < Pow2(n) && forall i :: 0 <= i < n ==> Bit(a, i) == Bit(b, i)
    ensures a == b
  {
    if n > 0 {
      BitStep(a, 0);
      BitStep(b, 0);
      assert Bit(a, 0) == Bit(b, 0);
      forall i | 0 <= i < n - 1
        ensures Bit(a / 2, i) == Bit(b / 2, i)
      {
        BitStep(a, i + 1);
        BitStep(b, i + 1);
        assert Bit(a, i + 1) == Bit(b, i + 1);
      }
      SameBits(a / 2, b / 2, n - 1);
    }
  }

  /** A field of n bits below the rest. */
  lemma {:induction false} BitBelow(lo: nat, rest: nat, n: nat, j: nat)
    requires lo < Pow2(n)
    ensures Bit(lo + Shl(rest, n), j) == if j < n then Bit(lo, j) else Bit(rest, j - n)
  {
    if n > 0 {
      BitCons(lo % 2, lo / 2 + Shl(rest, n - 1), j);
      BitStep(lo, j);
      if j > 0 {
        BitBelow(lo / 2, rest, n - 1, j - 1);
      }
    }
  }

  /** No bit from the n-th up is set in a number of n bits. */
  lemma {:induction false} BitHigh(x: nat, n: nat, i: nat)
    requires x < Pow2(n) && i >= n
    ensures !Bit(x, i)
  {
    BitStep(x, i);
    if n == 0 {
      BitZero(i);
    } else {
      BitHigh(x / 2, n - 1, i - 1);
    }
  }

  /** Bits lo to hi, as a number. */
  lemma BitBits(x: nat, lo: nat, hi: nat, i: nat)
    requires lo <= hi
    ensures Bit(Bits(x, lo, hi), i) == (i < hi - lo && Bit(x, lo + i))
  {
    BitLow(Shr(x, lo), hi - lo, i);
    BitShr(x, lo, i);
    hide Low, Shr, Bit;
  }

  /** A multiple other than zero is at least one step away. */
  lemma Multiple(d: nat, e: int)
    ensures e >= 1 ==> d * e >= d
    ensures e <= -1 ==> d * e + d <= 0
  {
    if e >= 1 {
      Product(d, e - 1);
      assert d * e == d * (e - 1) + d;
    } else if e <= -1 {
      Product(d, -1 - e);
      assert d * e + d == 0 - d * (-1 - e);
    }
  }

  lemma Product(x: nat, y: nat)
    ensures x * y >= 0
  {
  }

  /** Quotient and remainder are what they are. */
  lemma Divided(x: nat, d: nat, q: nat, r: nat)
    requires r < d && x == d * q + r
    ensures x / d == q && x % d == r
  {
    var p, t := x / d, x % d;
    SameQuotient(d, p, t, q, r);
  }

  lemma SameQuotient(d: nat, p: nat, t: nat, q: nat, r: nat)
    requires r < d && t < d && d * p + t == d * q + r
    ensures p == q && t == r
  {
    Multiple(d, p - q);
    assert d * (p - q) == d * p - d * q;
  }

  /** Shifting is dividing, and cutting is the remainder. */
  lemma {:induction false} ShiftAndCut(x: nat, n: nat)
    ensures Shr(x, n) == x / Pow2(n) && Low(x, n) == x % Pow2(n)
  {
    if n > 0 {
      ShiftAndCut(x / 2, n - 1);
      Halved(x, Pow2(n - 1), Shr(x / 2, n - 1), Low(x / 2, n - 1));
    } else {
      Divided(x, 1, x, 0);
    }
  }

  lemma Halved(x: nat, h: nat, q: nat, r: nat)
    requires h > 0 && q == (x / 2) / h && r == (x / 2) % h
    ensures q == x / (2 * h) && x % 2 + 2 * r == x % (2 * h)
  {
    assert x / 2 == h * q + r;
    assert 2 * h * q == 2 * (h * q);
    Divided(x, 2 * h, q, 2 * r + x % 2);
  }

  /** Shifting up is multiplying. */
  lemma {:induction false} ShlTimes(x: nat, n: nat)
    ensures Shl(x, n) == Pow2(n) * x
  {
    if n > 0 {
      ShlTimes(x, n - 1);
      assert 2 * Pow2(n - 1) * x == 2 * (Pow2(n - 1) * x);
    }
  }
}
