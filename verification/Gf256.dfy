/** The field GF(256) of the erasure coder.

Addition is `Xor`, the bitwise exclusive or of two bytes. The reference product `Mul` is
polynomial multiplication over GF(2) reduced by the primitive polynomial
x^8 + x^4 + x^3 + x^2 + 1 (0x11D): it adds one shifted copy of `b` for every set bit of `a`.
Module GfTables shows that the coder's logarithm tables compute exactly this product.
*/
module Gf256 {
  import opened Bytes

  /** Bitwise exclusive or of two natural numbers. */
  function Xor(a: nat, b: nat): nat {
    if a == 0 then b
    else if b == 0 then a
    else 2 * Xor(a / 2, b / 2) + (if a % 2 == b % 2 then 0 else 1)
  }

  lemma XorStep(a: nat, b: nat)
    ensures Xor(a, b) / 2 == Xor(a / 2, b / 2)
    ensures Xor(a, b) % 2 == if a % 2 == b % 2 then 0 else 1
  {
  }

  lemma {:induction false} XorComm(a: nat, b: nat)
    ensures Xor(a, b) == Xor(b, a)
  {
    if a != 0 && b != 0 {
      XorComm(a / 2, b / 2);
    }
  }

  lemma {:induction false} XorAssoc(a: nat, b: nat, c: nat)
    ensures Xor(Xor(a, b), c) == Xor(a, Xor(b, c))
  {
    if a != 0 && b != 0 && c != 0 {
      XorAssoc(a / 2, b / 2, c / 2);
      XorStep(a, b);
      XorStep(b, c);
      XorStep(Xor(a, b), c);
      XorStep(a, Xor(b, c));
    }
  }

  lemma {:induction false} XorSelf(a: nat)
    ensures Xor(a, a) == 0
  {
    if a != 0 {
      XorSelf(a / 2);
    }
  }

  lemma Xor4(a: nat, b: nat, c: nat, d: nat)
    ensures Xor(Xor(a, b), Xor(c, d)) == Xor(Xor(a, c), Xor(b, d))
  {
    XorAssoc(a, b, Xor(c, d));
    XorAssoc(b, c, d);
    XorComm(b, c);
    XorAssoc(c, b, d);
    XorAssoc(a, c, Xor(b, d));
  }

  lemma XorCancel(a: nat, b: nat)
    ensures Xor(a, Xor(a, b)) == b
  {
    XorAssoc(a, a, b);
    XorSelf(a);
  }

  /** The exclusive or of n-bit numbers has n bits. */
  lemma {:induction false} XorBound(n: nat, a: nat, b: nat)
    requires a < Pow2(n) && b < Pow2(n)
    ensures Xor(a, b) < Pow2(n)
  {
    if n != 0 && a != 0 && b != 0 {
      XorBound(n - 1, a / 2, b / 2);
    }
  }

  /** Setting bit n of one argument sets bit n of the result. */
  lemma {:induction false} XorTopBit(n: nat, a: nat, b: nat)
    requires a < Pow2(n) && b < Pow2(n)
    ensures Xor(Pow2(n) + a, b) == Pow2(n) + Xor(a, b)
  {
    if n != 0 && b != 0 {
      var q := Pow2(n - 1);
      assert (2 * q + a) / 2 == q + a / 2 && (2 * q + a) % 2 == a % 2;
      XorTopBit(n - 1, a / 2, b / 2);
      XorStep(2 * q + a, b);
      XorStep(a, b);
    }
  }

  lemma XorTopBits(n: nat, a: nat, b: nat)
    requires a < Pow2(n) && b < Pow2(n)
    ensures Xor(Pow2(n) + a, Pow2(n) + b) == Xor(a, b)
  {
    XorTopBit(n, 0, a);
    XorTopBit(n, 0, b);
    Xor4(Pow2(n), a, Pow2(n), b);
    XorSelf(Pow2(n));
  }

  function Add(a: Byte, b: Byte): Byte {
    XorBound(8, a, b);
    assert Pow2(8) == 256;
    Xor(a, b)
  }

  lemma AddComm(a: Byte, b: Byte)
    ensures Add(a, b) == Add(b, a)
  {
    XorComm(a, b);
  }

  lemma AddAssoc(a: Byte, b: Byte, c: Byte)
    ensures Add(Add(a, b), c) == Add(a, Add(b, c))
  {
    XorAssoc(a, b, c);
  }

  lemma Add4(a: Byte, b: Byte, c: Byte, d: Byte)
    ensures Add(Add(a, b), Add(c, d)) == Add(Add(a, c), Add(b, d))
  {
    Xor4(a, b, c, d);
  }

  lemma AddSelf(a: Byte)
    ensures Add(a, a) == 0
  {
    XorSelf(a);
  }

  /** x^8 = x^4 + x^3 + x^2 + 1, the low byte of 0x11D. */
  const POLY: Byte := 0x1d
  const TOP: Byte := 0x80

  /** Multiplication by x: shift left, and reduce by 0x11D when the ninth bit is set. */
  function Double(a: Byte): Byte {
    if a < 128 then 2 * a else Add(2 * (a - 128), POLY)
  }

  function LowTerm(a: Byte, b: Byte): Byte {
    if a % 2 == 1 then b else 0
  }

  /** Polynomial multiplication modulo 0x11D. */
  function Mul(a: Byte, b: Byte): Byte {
    if a == 0 then 0 else Add(LowTerm(a, b), Mul(a / 2, Double(b)))
  }

  lemma XorDouble(a: nat, b: nat)
    ensures Xor(2 * a, 2 * b) == 2 * Xor(a, b)
  {
    XorStep(2 * a, 2 * b);
  }

  lemma XorSwap(a: nat, b: nat, c: nat)
    ensures Xor(Xor(a, b), c) == Xor(Xor(a, c), b)
  {
    XorAssoc(a, b, c);
    XorComm(b, c);
    XorAssoc(a, c, b);
  }

  lemma DoubleAdd(a: Byte, b: Byte)
    ensures Double(Add(a, b)) == Add(Double(a), Double(b))
  {
    if a < 128 && b < 128 {
      assert Pow2(7) == 128;
      XorBound(7, a, b);
      XorDouble(a, b);
    } else if a >= 128 && b >= 128 {
      DoubleAddBoth(a - 128, b - 128, POLY);
    } else if a >= 128 {
      DoubleAddTop(a - 128, b, POLY);
    } else {
      DoubleAddTop(b - 128, a, POLY);
      XorComm(a, b);
      XorComm(Double(a), Double(b));
    }
  }

  lemma DoubleAddTop(a: nat, b: nat, r: nat)
    requires a < 128 && b < 128
    ensures Xor(128 + a, b) == 128 + Xor(a, b) && Xor(a, b) < 128
    ensures Xor(2 * Xor(a, b), r) == Xor(Xor(2 * a, r), 2 * b)
  {
    assert Pow2(7) == 128;
    XorTopBit(7, a, b);
    XorBound(7, a, b);
    XorDouble(a, b);
    XorSwap(2 * a, 2 * b, r);
  }

  lemma DoubleAddBoth(a: nat, b: nat, r: nat)
    requires a < 128 && b < 128
    ensures Xor(128 + a, 128 + b) == Xor(a, b) < 128
    ensures 2 * Xor(a, b) == Xor(Xor(2 * a, r), Xor(2 * b, r))
  {
    assert Pow2(7) == 128;
    XorTopBits(7, a, b);
    XorBound(7, a, b);
    XorDouble(a, b);
    Xor4(2 * a, r, 2 * b, r);
    XorSelf(r);
  }

  lemma {:induction false} MulAddRight(a: Byte, b: Byte, c: Byte)
    ensures Mul(a, Add(b, c)) == Add(Mul(a, b), Mul(a, c))
    decreases a
  {
    if a != 0 {
      DoubleAdd(b, c);
      MulAddRight(a / 2, Double(b), Double(c));
      Xor4(LowTerm(a, b), Mul(a / 2, Double(b)), LowTerm(a, c), Mul(a / 2, Double(c)));
    }
  }

  lemma {:induction false} MulAddLeft(a: Byte, b: Byte, c: Byte)
    ensures Mul(Add(a, b), c) == Add(Mul(a, c), Mul(b, c))
    decreases a
  {
    if a != 0 && b != 0 {
      XorStep(a, b);
      MulAddLeft(a / 2, b / 2, Double(c));
      Xor4(LowTerm(a, c), Mul(a / 2, Double(c)), LowTerm(b, c), Mul(b / 2, Double(c)));
      XorSelf(c);
      assert Mul(Add(a, b), c) == Add(LowTerm(Add(a, b), c), Mul(Add(a, b) / 2, Double(c)));
    }
  }

  lemma {:induction false} MulDoubleRight(a: Byte, b: Byte)
    ensures Mul(a, Double(b)) == Double(Mul(a, b))
    decreases a
  {
    if a != 0 {
      MulDoubleRight(a / 2, Double(b));
      DoubleAdd(LowTerm(a, b), Mul(a / 2, Double(b)));
    }
  }

  /** `Iterate(n, b)` is b times x^n. */
  function Iterate(n: nat, b: Byte): Byte {
    if n == 0 then b else Double(Iterate(n - 1, b))
  }

  lemma {:induction false} IterateAdd(n: nat, b: Byte, c: Byte)
    ensures Iterate(n, Add(b, c)) == Add(Iterate(n, b), Iterate(n, c))
  {
    if n != 0 {
      IterateAdd(n - 1, b, c);
      DoubleAdd(Iterate(n - 1, b), Iterate(n - 1, c));
    }
  }

  lemma {:induction false} IterateSum(i: nat, j: nat, b: Byte)
    ensures Iterate(i, Iterate(j, b)) == Iterate(i + j, b)
  {
    if i != 0 {
      IterateSum(i - 1, j, b);
    }
  }

  /** A byte is its low bit plus x times the rest. */
  lemma SplitLowBit(b: Byte)
    ensures b == Add(b % 2, Double(b / 2))
  {
    if b / 2 != 0 {
      XorStep(b % 2, Double(b / 2));
    }
  }

  /** x^8 = x^4 + x^3 + x^2 + 1, the relation that 0x11D encodes, holds at every byte. */
  ghost predicate Reduces(b: Byte) {
    Iterate(8, b) == Add(Add(b, Iterate(2, b)), Add(Iterate(3, b), Iterate(4, b)))
  }

  lemma ReducesDouble(b: Byte)
    requires Reduces(b)
    ensures Reduces(Double(b))
  {
    DoubleAdd(Add(b, Iterate(2, b)), Add(Iterate(3, b), Iterate(4, b)));
    DoubleAdd(b, Iterate(2, b));
    DoubleAdd(Iterate(3, b), Iterate(4, b));
    IterateSum(8, 1, b);
    IterateSum(4, 1, b);
    IterateSum(3, 1, b);
    IterateSum(2, 1, b);
  }

  lemma ReducesAdd(b: Byte, c: Byte)
    requires Reduces(b) && Reduces(c)
    ensures Reduces(Add(b, c))
  {
    IterateAdd(8, b, c);
    IterateAdd(4, b, c);
    IterateAdd(3, b, c);
    IterateAdd(2, b, c);
    Xor4(b, c, Iterate(2, b), Iterate(2, c));
    Xor4(Iterate(3, b), Iterate(3, c), Iterate(4, b), Iterate(4, c));
    Xor4(Add(b, Iterate(2, b)), Add(c, Iterate(2, c)),
         Add(Iterate(3, b), Iterate(4, b)), Add(Iterate(3, c), Iterate(4, c)));
  }

  lemma {:induction false} ReducesAlways(b: Byte)
    ensures Reduces(b)
  {
    if b == 1 {
      assert Iterate(4, 1) == 16;
      assert Iterate(8, 1) == 0x1d;
    } else if b != 0 {
      ReducesAlways(b / 2);
      ReducesDouble(b / 2);
      ReducesAlways(b % 2);
      ReducesAdd(b % 2, Double(b / 2));
      SplitLowBit(b);
    }
  }

  lemma MulEven(low: nat, b: Byte)
    requires low < 128
    ensures Mul(2 * low, b) == Mul(low, Double(b))
  {
    assert 2 * low / 2 == low;
  }

  lemma SplitTopBit(a: Byte)
    requires a >= TOP
    ensures a == Add(TOP, a - TOP) && Double(a) == Add(2 * (a - TOP), POLY)
  {
    assert Pow2(7) == 128;
    XorTopBit(7, 0, a - TOP);
  }

  lemma MulDoubleLeft(a: Byte, b: Byte)
    ensures Mul(Double(a), b) == Double(Mul(a, b))
  {
    MulDoubleRight(a, b);
    if a < 128 {
      MulEven(a, b);
    } else {
      var low := a - TOP;
      SplitTopBit(a);
      MulEven(low, b);
      MulAddLeft(2 * low, POLY, b);
      MulAddLeft(TOP, low, Double(b));
      XorComm(Mul(POLY, b), Mul(low, Double(b)));
      MulReduction(b);
      hide Mul;
      hide Double;
      hide Xor;
    }
  }

  lemma MulReduction(b: Byte)
    ensures Mul(POLY, b) == Mul(TOP, Double(b))
  {
    hide Double;
    hide Add;
    ReducesAlways(b);
    MulTop(Double(b));
    IterateSum(7, 1, b);
    MulPoly(b);
  }

  lemma {:induction false} MulPowerOfTwo(n: nat, b: Byte)
    requires Pow2(n) < 256
    ensures Mul(Pow2(n), b) == Iterate(n, b)
  {
    if n == 0 {
      assert Mul(0, Double(b)) == 0;
    } else {
      assert Pow2(n) / 2 == Pow2(n - 1);
      MulPowerOfTwo(n - 1, Double(b));
      IterateSum(n - 1, 1, b);
    }
  }

  lemma MulTop(b: Byte)
    ensures Mul(TOP, b) == Iterate(7, b)
  {
    hide Double;
    assert TOP == Pow2(7);
    MulPowerOfTwo(7, b);
  }

  lemma MulAdd4(p: Byte, q: Byte, r: Byte, s: Byte, b: Byte)
    ensures Mul(Add(Add(p, q), Add(r, s)), b) == Add(Add(Mul(p, b), Mul(q, b)), Add(Mul(r, b), Mul(s, b)))
  {
    MulAddLeft(Add(p, q), Add(r, s), b);
    MulAddLeft(p, q, b);
    MulAddLeft(r, s, b);
  }

  lemma MulPoly(b: Byte)
    ensures Mul(POLY, b) == Add(Add(b, Iterate(2, b)), Add(Iterate(3, b), Iterate(4, b)))
  {
    var p0, p2, p3, p4 := Pow2(0), Pow2(2), Pow2(3), Pow2(4);
    assert p0 == 1 && p2 == 4 && p3 == 8 && p4 == 16;
    assert POLY == Add(Add(p0, p2), Add(p3, p4));
    hide Double;
    MulAdd4(p0, p2, p3, p4, b);
    MulPowerOfTwo(0, b);
    MulPowerOfTwo(2, b);
    MulPowerOfTwo(3, b);
    MulPowerOfTwo(4, b);
  }

  lemma MulOneLeft(b: Byte)
    ensures Mul(1, b) == b
  {
    assert Mul(0, Double(b)) == 0;
  }

  lemma {:induction false} MulOneRight(a: Byte)
    ensures Mul(a, 1) == a
  {
    if a != 0 {
      MulOneRight(a / 2);
      MulDoubleRight(a / 2, 1);
      SplitLowBit(a);
    }
  }

  lemma {:induction false} MulZeroRight(a: Byte)
    ensures Mul(a, 0) == 0
  {
    if a != 0 {
      MulZeroRight(a / 2);
    }
  }

  lemma {:induction false} MulComm(a: Byte, b: Byte)
    ensures Mul(a, b) == Mul(b, a)
    decreases a
  {
    MulZeroRight(b);
    if a != 0 {
      MulComm(a / 2, Double(b));
      MulDoubleLeft(b, a / 2);
      MulDoubleRight(b, a / 2);
      SplitLowBit(a);
      MulAddRight(b, a % 2, Double(a / 2));
      MulOneRight(b);
    }
  }

  lemma {:induction false} MulAssoc(a: Byte, b: Byte, c: Byte)
    ensures Mul(Mul(a, b), c) == Mul(a, Mul(b, c))
    decreases a
  {
    if a != 0 {
      MulAddLeft(LowTerm(a, b), Mul(a / 2, Double(b)), c);
      MulAssoc(a / 2, Double(b), c);
      MulDoubleLeft(b, c);
    }
  }
}
