/** Rotates and masks of the rotate instructions; bits of a doubleword are numbered from the left. */
module RotateMask {
  import opened Words

  /** Rotate left, for a word length of 2 to the k bits; the amount is cut to k bits. */
  function Rotl(value: nat, bits: nat, k: nat): (r: nat)
    ensures r < Pow2(Pow2(k))
  {
    var b, w := Low(bits, k), Pow2(k);
    Low(Or(Shl(value, b), Shr(value, w - b)), w)
  }

  /** The 32-bit rotate of a doubleword with the word in both halves. */
  function Rotl32(value: nat, bits: nat): nat { Rotl(Or(value, Shl(value, 32)), bits, 6) }

  /** Complement in 64 bits. */
  function Not64(x: nat): nat { Xor(x, Ones(64), 64) }

  function Mask(x: nat, y: nat): nat
    requires x < 64 && y < 64
  {
    if x == y then Shl(1, 63 - x)
    else
      var maskA, ones := Low(Ones(64 - x), 64), Ones(63 - y);
      Xor(maskA, if x < y then Low(ones, 64) else Not64(ones), 64)
  }

  /** Bit i after a left rotation by b was this bit before. */
  function From(i: nat, b: nat, w: nat): nat
    requires b < w
  {
    if i >= b then i - b else i + w - b
  }

  /** Every bit of the result is the bit b places to the right, around the end. */
  lemma {:induction false} RotlBits(value: nat, bits: nat, k: nat, i: nat)
    requires value < Pow2(Pow2(k)) && i < Pow2(k)
    ensures Bit(Rotl(value, bits, k), i) == Bit(value, From(i, Low(bits, k), Pow2(k)))
  {
    var b, w := Low(bits, k), Pow2(k);
    BitLow(Or(Shl(value, b), Shr(value, w - b)), w, i);
    BitOr(Shl(value, b), Shr(value, w - b), i);
    BitShl(value, b, i);
    BitShr(value, w - b, i);
    if i >= b {
      BitAbove(value, w, i + w - b);
    }
    hide Bit, Shl, Shr, Or, Low;
  }

  /** A word has no bit beyond its length. */
  lemma {:induction false} BitAbove(x: nat, n: nat, i: nat)
    requires x < Pow2(n) && i >= n
    ensures !Bit(x, i)
  {
    if n == 0 {
      BitZero(i);
    } else {
      BitStep(x, i);
      BitAbove(x / 2, n - 1, i - 1);
    }
  }

  lemma LowCons(d: nat, x: nat, n: nat)
    requires d < 2
    ensures Low(d + 2 * x, n + 1) == d + 2 * Low(x, n)
  {
  }

  /** The cut sum, from the cut summands and a carry in. */
  predicate SumOk(a: nat, b: nat, c: nat, k: nat) {
    var sum := Low(a, k) + Low(b, k) + c;
    Low(a + b + c, k) == sum - (if sum >= Pow2(k) then Pow2(k) else 0)
  }

  lemma {:induction false} LowSum(a: nat, b: nat, c: nat, k: nat)
    requires c < 2
    ensures SumOk(a, b, c, k)
  {
    if k > 0 {
      LowSum(a / 2, b / 2, if a % 2 + b % 2 + c >= 2 then 1 else 0, k - 1);
      NextDigit(a % 2, a / 2, b % 2, b / 2, c, k - 1);
      hide SumOk;
      assert a == a % 2 + 2 * (a / 2) && b == b % 2 + 2 * (b / 2);
    }
  }

  lemma {:induction false} NextDigit(p: nat, a: nat, q: nat, b: nat, c: nat, k: nat)
    requires p < 2 && q < 2 && c < 2 && SumOk(a, b, if p + q + c >= 2 then 1 else 0, k)
    ensures SumOk(p + 2 * a, q + 2 * b, c, k + 1)
  {
    hide Low, Pow2;
    var carry := if p + q + c >= 2 then 1 else 0;
    var r := p + q + c - 2 * carry;
    assert p + 2 * a + (q + 2 * b) + c == r + 2 * (a + b + carry);
    Pow2Next(k);
    LowCons(p, a, k);
    LowCons(q, b, k);
    LowCons(r, a + b + carry, k);
    CarryOut(p, q, c, carry, Low(a, k), Low(b, k), Low(a + b + carry, k), Pow2(k));
  }

  lemma Pow2Next(k: nat)
    ensures Pow2(k + 1) == 2 * Pow2(k)
  {
  }

  lemma CarryOut(p: nat, q: nat, c: nat, carry: nat, x: nat, y: nat, z: nat, h: nat)
    requires p < 2 && q < 2 && c < 2 && carry == (if p + q + c >= 2 then 1 else 0)
    requires z == x + y + carry - (if x + y + carry >= h then h else 0)
    ensures var sum := p + 2 * x + q + 2 * y + c;
      p + q + c - 2 * carry + 2 * z == sum - (if sum >= 2 * h then 2 * h else 0)
  {
  }

  lemma {:induction false} LowSmall(x: nat, k: nat)
    ensures x < Pow2(k) ==> Low(x, k) == x
    ensures x == Pow2(k) ==> Low(x, k) == 0
  {
    if k > 0 {
      LowSmall(x / 2, k - 1);
      LowCons(x % 2, x / 2, k - 1);
    }
  }

  /** Rotations compose by adding their amounts. */
  lemma {:induction false} RotlAdds(value: nat, a: nat, b: nat, k: nat)
    requires value < Pow2(Pow2(k))
    ensures Rotl(Rotl(value, a, k), b, k) == Rotl(value, a + b, k)
  {
    hide Rotl, Bit;
    var w := Pow2(k);
    LowSum(a, b, 0, k);
    forall i | 0 <= i < w
      ensures Bit(Rotl(Rotl(value, a, k), b, k), i) == Bit(Rotl(value, a + b, k), i)
    {
      RotlBits(Rotl(value, a, k), b, k, i);
      RotlBits(value, a, k, From(i, Low(b, k), w));
      RotlBits(value, a + b, k, i);
    }
    SameBits(Rotl(Rotl(value, a, k), b, k), Rotl(value, a + b, k), w);
  }

  lemma {:induction false} RotlZero(value: nat, a: nat, k: nat)
    requires value < Pow2(Pow2(k)) && Low(a, k) == 0
    ensures Rotl(value, a, k) == value
  {
    hide Rotl, Bit;
    forall i | 0 <= i < Pow2(k)
      ensures Bit(Rotl(value, a, k), i) == Bit(value, i)
    {
      RotlBits(value, a, k, i);
    }
    SameBits(Rotl(value, a, k), value, Pow2(k));
  }

  /** A rotation is undone by rotating on to a full turn, so it is a bijection of the words. */
  lemma {:induction false} RotlBijective(u: nat, v: nat, a: nat, k: nat)
    requires u < Pow2(Pow2(k)) && v < Pow2(Pow2(k))
    ensures Rotl(Rotl(u, a, k), Pow2(k) - Low(a, k), k) == u
    ensures Rotl(Rotl(u, Pow2(k) - Low(a, k), k), a, k) == u
    ensures Rotl(u, a, k) == Rotl(v, a, k) ==> u == v
  {
    hide Rotl;
    FullTurn(a, k);
    RotlAdds(u, a, Pow2(k) - Low(a, k), k);
    RotlAdds(v, a, Pow2(k) - Low(a, k), k);
    RotlAdds(u, Pow2(k) - Low(a, k), a, k);
    RotlZero(u, a + (Pow2(k) - Low(a, k)), k);
    RotlZero(v, a + (Pow2(k) - Low(a, k)), k);
  }

  lemma {:induction false} FullTurn(a: nat, k: nat)
    ensures Low(a + (Pow2(k) - Low(a, k)), k) == 0
  {
    LowSum(a, Pow2(k) - Low(a, k), 0, k);
    LowSmall(Pow2(k) - Low(a, k), k);
    hide Low, Pow2;
  }

  /** Both halves of the doubled word's rotation are the word's own rotation. */
  lemma {:induction false} Rotl32Halves(value: nat, bits: nat)
    requires value < Pow2(32)
    ensures Low(Rotl32(value, bits), 32) == Rotl(value, bits, 5)
    ensures Low(Shr(Rotl32(value, bits), 32), 32) == Rotl(value, bits, 5)
  {
    hide Rotl, Rotl32, Bit, Low, Shr, Pow2;
    Sizes();
    forall i | 0 <= i < 32
      ensures Bit(Low(Rotl32(value, bits), 32), i) == Bit(Rotl(value, bits, 5), i)
      ensures Bit(Low(Shr(Rotl32(value, bits), 32), 32), i) == Bit(Rotl(value, bits, 5), i)
    {
      Doubled(value, bits, i, i);
      Doubled(value, bits, i, i + 32);
      BitLow(Rotl32(value, bits), 32, i);
      BitLow(Shr(Rotl32(value, bits), 32), 32, i);
      BitShr(Rotl32(value, bits), 32, i);
    }
    SameBits(Low(Rotl32(value, bits), 32), Rotl(value, bits, 5), 32);
    SameBits(Low(Shr(Rotl32(value, bits), 32), 32), Rotl(value, bits, 5), 32);
  }

  lemma {:induction false} Doubled(value: nat, bits: nat, i: nat, j: nat)
    requires value < Pow2(32) && i < 32 && (j == i || j == i + 32)
    ensures Bit(Rotl32(value, bits), j) == Bit(Rotl(value, bits, 5), i)
  {
    hide Rotl, Bit, Low, Or, Shl, Pow2;
    Sizes();
    DoubleFits(value);
    AmountTop(bits);
    RotlBits(Or(value, Shl(value, 32)), bits, 6, j);
    RotlBits(value, bits, 5, i);
    DoubleBit(value, From(j, Low(bits, 6), 64));
  }

  lemma {:induction false} DoubleBit(value: nat, f: nat)
    requires value < Pow2(32) && f < 64
    ensures Bit(Or(value, Shl(value, 32)), f) == Bit(value, if f >= 32 then f - 32 else f)
  {
    BitOr(value, Shl(value, 32), f);
    BitShl(value, 32, f);
    if f >= 32 {
      BitAbove(value, 32, f);
    }
    hide Bit, Or, Shl, Pow2;
  }

  /** The sixth bit of the amount adds half a turn. */
  lemma AmountTop(bits: nat)
    ensures Low(bits, 6) == Low(bits, 5) || Low(bits, 6) == Low(bits, 5) + 32
  {
    hide Low, Pow2;
    Sizes();
    LowTop(bits, 5);
  }

  lemma {:induction false} LowTop(x: nat, n: nat)
    ensures Low(x, n + 1) == Low(x, n) || Low(x, n + 1) == Low(x, n) + Pow2(n)
  {
    if n > 0 {
      LowTop(x / 2, n - 1);
    }
  }

  lemma Sizes()
    ensures Pow2(5) == 32 && Pow2(6) == 64
  {
  }

  lemma DoubleFits(value: nat)
    requires value < Pow2(32)
    ensures Or(value, Shl(value, 32)) < Pow2(64)
  {
    hide Pow2, Or, Shl;
    OrFits(value, Shl(value, 32), 64);
    ShlFits(value, 32, 32);
    Wider(value, 32, 64);
  }

  lemma {:induction false} Wider(x: nat, m: nat, n: nat)
    requires x < Pow2(m) && m <= n
    ensures x < Pow2(n)
  {
    if m < n {
      Wider(x, m, n - 1);
    }
  }

  lemma {:induction false} ShlFits(x: nat, m: nat, s: nat)
    requires x < Pow2(m)
    ensures Shl(x, s) < Pow2(m + s)
  {
    if s > 0 {
      ShlFits(x, m, s - 1);
    }
  }

  lemma {:induction false} OrFits(a: nat, b: nat, n: nat)
    ensures a < Pow2(n) && b < Pow2(n) ==> Or(a, b) < Pow2(n)
    decreases n
  {
    if n > 0 {
      OrFits(a / 2, b / 2, n - 1);
    }
  }

  lemma {:induction false} SingleBit(s: nat, i: nat)
    ensures Bit(Shl(1, s), i) <==> i == s
  {
    BitShl(1, s, i);
    if i >= s {
      BitCons(1, 0, i - s);
      if i > s {
        BitZero(i - s - 1);
      }
    }
  }

  /** The mask has exactly the bits x to y, counted from the left, going round the end if x comes after y. */
  lemma {:induction false} MaskBits(x: nat, y: nat, k: nat)
    requires x < 64 && y < 64 && k < 64
    ensures Bit(Mask(x, y), 63 - k) <==> if x <= y then x <= k <= y else k >= x || k <= y
  {
    hide Bit, Low, Ones, Xor, Shl;
    var i := 63 - k;
    if x == y {
      SingleBit(63 - x, i);
    } else {
      BitLow(Ones(64 - x), 64, i);
      BitOnes(64 - x, i);
      BitOnes(63 - y, i);
      BitOnes(64, i);
      BitLow(Ones(63 - y), 64, i);
      BitXor(Ones(63 - y), Ones(64), 64, i);
      BitXor(Low(Ones(64 - x), 64), if x < y then Low(Ones(63 - y), 64) else Not64(Ones(63 - y)), 64, i);
    }
  }

  /** exts: the low bits as a signed number of that width. */
  function Exts(value: nat, bits: nat): int
    requires bits > 0
  {
    Low(value, bits - 1) - (if Bit(value, bits - 1) then Pow2(bits - 1) else 0)
  }

  /** It is the one number of the signed range that agrees with the value in its low bits. */
  lemma {:induction false} ExtsIsSigned(value: nat, bits: nat)
    requires bits > 0
    ensures 0 - Pow2(bits - 1) <= Exts(value, bits) < Pow2(bits - 1)
    ensures Exts(value, bits) == Low(value, bits) - (if Low(value, bits) >= Pow2(bits - 1) then Pow2(bits) else 0)
  {
    TopBit(value, bits - 1);
  }

  lemma {:induction false} TopBit(x: nat, n: nat)
    ensures Low(x, n + 1) == Low(x, n) + (if Bit(x, n) then Pow2(n) else 0)
  {
    BitStep(x, n);
    if n > 0 {
      TopBit(x / 2, n - 1);
    }
  }
}
