/** The logarithm tables of the erasure coder, and the proof that table lookup computes the field
product and inverse of module Gf256. */
module GfTables {
  import opened Bytes
  import opened Gf256

  /** The i-th power of the generator x of the multiplicative group. */
  function Alpha(i: nat): Byte { Iterate(i, 1) }

  lemma {:induction false} MulAlpha(i: nat, b: Byte)
    ensures Mul(Alpha(i), b) == Iterate(i, b)
  {
    if i == 0 {
      MulOneLeft(b);
    } else {
      MulAlpha(i - 1, b);
      MulDoubleLeft(Alpha(i - 1), b);
    }
  }

  lemma AlphaSum(i: nat, j: nat)
    ensures Mul(Alpha(i), Alpha(j)) == Alpha(i + j)
  {
    MulAlpha(i, Alpha(j));
    IterateSum(i, j, 1);
  }

  // `Double` evaluates by arithmetic alone: flipping the bits of 0x1d in an even number adds each
  // clear bit and subtracts each set one.

  lemma XorHalves(a: nat, b: nat)
    ensures Xor(a, b) == 2 * Xor(a / 2, b / 2) + (if a % 2 == b % 2 then 0 else 1)
  {
    XorStep(a, b);
  }

  lemma ModFour(n: nat)
    ensures n % 4 == 2 * (n / 2 % 2) + n % 2
  {
  }

  lemma ModEight(n: nat)
    ensures n % 8 == 2 * (n / 2 % 4) + n % 2
  {
  }

  lemma ModSixteen(n: nat)
    ensures n % 16 == 2 * (n / 2 % 8) + n % 2
  {
  }

  lemma XorThree(n: nat)
    ensures Xor(n, 3) == n + 3 - 2 * (n % 4)
  {
    XorStep(n / 2, 1);
    assert Xor(n / 2, 1) == n / 2 + 1 - 2 * (n / 2 % 2);
    hide Xor;
    XorHalves(n, 3);
    ModFour(n);
  }

  lemma XorSeven(n: nat)
    ensures Xor(n, 7) == n + 7 - 2 * (n % 8)
  {
    hide Xor;
    XorThree(n / 2);
    XorHalves(n, 7);
    ModEight(n);
  }

  lemma XorFourteen(n: nat)
    ensures Xor(n, 14) == n + 14 - 2 * (n % 16) + 2 * (n % 2)
  {
    hide Xor;
    XorSeven(n / 2);
    XorHalves(n, 14);
    ModSixteen(n);
  }

  function Dbl(a: int): int {
    if a < 128 then 2 * a else 2 * (a - 128) + 29 - 4 * ((a - 128) % 16) + 4 * ((a - 128) % 2)
  }

  lemma DblIsDouble(a: Byte)
    ensures Dbl(a) == Double(a)
  {
    if a >= 128 {
      XorPoly(a - 128);
    }
  }

  lemma XorPoly(n: nat)
    ensures Xor(2 * n, POLY) == 2 * n + 29 - 4 * (n % 16) + 4 * (n % 2)
  {
    hide Xor;
    XorFourteen(n);
    XorHalves(2 * n, POLY);
  }

  lemma PowerStep(i: nat, a: Byte, b: Byte)
    requires Alpha(i) == a && Dbl(a) == b
    ensures Alpha(i + 1) == b
  {
    DblIsDouble(a);
  }

  lemma TableRow(i: nat, a: Byte, b: Byte, c: Byte, d: Byte, e: Byte, f: Byte)
    requires Alpha(i) == a
    requires Dbl(a) == b && Dbl(b) == c && Dbl(c) == d && Dbl(d) == e && Dbl(e) == f
    ensures Alpha(i + 5) == f
  {
    hide Dbl;
    PowerStep(i, a, b);
    PowerStep(i + 1, b, c);
    PowerStep(i + 2, c, d);
    PowerStep(i + 3, d, e);
    PowerStep(i + 4, e, f);
  }

  lemma PowerZero()
    ensures Alpha(0) == 1
  {
  }

  // The powers of x in order, five to a row.

  lemma PowersTo45()
    ensures Alpha(45) == 193 && Alpha(15) == 38
  {
    PowerZero();
    hide Iterate;
    TableRow(0, 1, 2, 4, 8, 16, 32);
    TableRow(5, 32, 64, 128, 29, 58, 116);
    TableRow(10, 116, 232, 205, 135, 19, 38);
    TableRow(15, 38, 76, 152, 45, 90, 180);
    TableRow(20, 180, 117, 234, 201, 143, 3);
    TableRow(25, 3, 6, 12, 24, 48, 96);
    TableRow(30, 96, 192, 157, 39, 78, 156);
    TableRow(35, 156, 37, 74, 148, 53, 106);
    TableRow(40, 106, 212, 181, 119, 238, 193);
  }

  lemma PowersTo85()
    ensures Alpha(85) == 214 && Alpha(51) == 10
  {
    PowersTo45();
    hide Iterate;
    TableRow(45, 193, 159, 35, 70, 140, 5);
    assert Alpha(51) == 10 by { PowerStep(50, 5, 10); }
    TableRow(50, 5, 10, 20, 40, 80, 160);
    TableRow(55, 160, 93, 186, 105, 210, 185);
    TableRow(60, 185, 111, 222, 161, 95, 190);
    TableRow(65, 190, 97, 194, 153, 47, 94);
    TableRow(70, 94, 188, 101, 202, 137, 15);
    TableRow(75, 15, 30, 60, 120, 240, 253);
    TableRow(80, 253, 231, 211, 187, 107, 214);
  }

  lemma PowersTo130()
    ensures Alpha(130) == 46
  {
    PowersTo85();
    hide Iterate;
    TableRow(85, 214, 177, 127, 254, 225, 223);
    TableRow(90, 223, 163, 91, 182, 113, 226);
    TableRow(95, 226, 217, 175, 67, 134, 17);
    TableRow(100, 17, 34, 68, 136, 13, 26);
    TableRow(105, 26, 52, 104, 208, 189, 103);
    TableRow(110, 103, 206, 129, 31, 62, 124);
    TableRow(115, 124, 248, 237, 199, 147, 59);
    TableRow(120, 59, 118, 236, 197, 151, 51);
    TableRow(125, 51, 102, 204, 133, 23, 46);
  }

  lemma PowersTo170()
    ensures Alpha(170) == 215
  {
    PowersTo130();
    hide Iterate;
    TableRow(130, 46, 92, 184, 109, 218, 169);
    TableRow(135, 169, 79, 158, 33, 66, 132);
    TableRow(140, 132, 21, 42, 84, 168, 77);
    TableRow(145, 77, 154, 41, 82, 164, 85);
    TableRow(150, 85, 170, 73, 146, 57, 114);
    TableRow(155, 114, 228, 213, 183, 115, 230);
    TableRow(160, 230, 209, 191, 99, 198, 145);
    TableRow(165, 145, 63, 126, 252, 229, 215);
  }

  lemma PowersTo215()
    ensures Alpha(215) == 239
  {
    PowersTo170();
    hide Iterate;
    TableRow(170, 215, 179, 123, 246, 241, 255);
    TableRow(175, 255, 227, 219, 171, 75, 150);
    TableRow(180, 150, 49, 98, 196, 149, 55);
    TableRow(185, 55, 110, 220, 165, 87, 174);
    TableRow(190, 174, 65, 130, 25, 50, 100);
    TableRow(195, 100, 200, 141, 7, 14, 28);
    TableRow(200, 28, 56, 112, 224, 221, 167);
    TableRow(205, 167, 83, 166, 81, 162, 89);
    TableRow(210, 89, 178, 121, 242, 249, 239);
  }

  lemma PowersTo255()
    ensures Alpha(255) == 1
  {
    PowersTo215();
    hide Iterate;
    TableRow(215, 239, 195, 155, 43, 86, 172);
    TableRow(220, 172, 69, 138, 9, 18, 36);
    TableRow(225, 36, 72, 144, 61, 122, 244);
    TableRow(230, 244, 245, 247, 243, 251, 235);
    TableRow(235, 235, 203, 139, 11, 22, 44);
    TableRow(240, 44, 88, 176, 125, 250, 233);
    TableRow(245, 233, 207, 131, 27, 54, 108);
    TableRow(250, 108, 216, 173, 71, 142, 1);
  }

  /** The order of x divides 255 and is none of its maximal proper divisors 15, 51 and 85. */
  lemma AlphaValues()
    ensures Alpha(255) == 1
    ensures Alpha(15) != 1 && Alpha(51) != 1 && Alpha(85) != 1
  {
    hide Iterate;
    PowersTo45();
    PowersTo85();
    PowersTo255();
  }

  lemma DoubleInjective(a: Byte, b: Byte)
    requires Double(a) == Double(b)
    ensures a == b
  {
    DoubleAdd(a, b);
    AddSelf(Double(a));
    var c := Add(a, b);
    if c >= 128 {
      XorStep(2 * (c - 128), POLY);
    }
    XorCancel(a, b);
  }

  lemma {:induction false} AlphaCancel(i: nat, j: nat)
    requires i <= j && Alpha(i) == Alpha(j)
    ensures Alpha(j - i) == 1
  {
    if i != 0 {
      DoubleInjective(Alpha(i - 1), Alpha(j - 1));
      AlphaCancel(i - 1, j - 1);
    }
  }

  lemma {:induction false} AlphaMultiple(d: nat, t: nat)
    requires Alpha(d) == 1
    ensures Alpha(d * t) == 1
  {
    if t == 0 {
      assert d * t == 0;
    } else {
      AlphaMultiple(d, t - 1);
      assert d * (t - 1) + d == d * t;
      AlphaSum(d * (t - 1), d);
      MulOneLeft(1);
    }
  }

  /** A proper divisor of 255 divides 15, 51 or 85. */
  lemma ProperDivisor(d: nat) returns (t: nat)
    requires 0 < d < 255 && 255 % d == 0
    ensures d * t == 15 || d * t == 51 || d * t == 85
  {
    var q := 255 / d;
    assert d * q == 255;
    if q >= 17 {
      assert d >= 16 ==> d * q >= 16 * q;
      assert d == 1 || d == 3 || d == 5 || d == 15 by {
        assert d == 1 || d == 2 || d == 3 || d == 4 || d == 5 || d == 6 || d == 7 || d == 8 || d == 9
          || d == 10 || d == 11 || d == 12 || d == 13 || d == 14 || d == 15;
      }
      t := 15 / d;
    } else {
      assert q == 3 || q == 5 || q == 15 by {
        assert q == 0 || q == 1 || q == 2 || q == 3 || q == 4 || q == 5 || q == 6 || q == 7 || q == 8 || q == 9
          || q == 10 || q == 11 || q == 12 || q == 13 || q == 14 || q == 15 || q == 16;
      }
      assert d == 85 || d == 51 || d == 17;
      t := if d == 17 then 3 else 1;
    }
  }

  lemma AlphaRemainder(d: nat, q: nat, r: nat)
    requires Alpha(d) == 1 && Alpha(d * q + r) == 1
    ensures Alpha(r) == 1
  {
    AlphaMultiple(d, q);
    AlphaSum(d * q, r);
    MulOneLeft(Alpha(r));
  }

  /** x has order exactly 255: it generates the multiplicative group. */
  lemma {:induction false} AlphaOrder(d: nat)
    requires 0 < d < 255
    ensures Alpha(d) != 1
  {
    hide Iterate;
    if Alpha(d) == 1 {
      AlphaValues();
      var q, r := 255 / d, 255 % d;
      assert 255 == d * q + r;
      AlphaRemainder(d, q, r);
      if r != 0 {
        AlphaOrder(r);
      } else {
        var t := ProperDivisor(d);
        AlphaMultiple(d, t);
      }
    }
  }

  lemma AlphaDistinct(i: nat, j: nat)
    requires i < j < 255
    ensures Alpha(i) != Alpha(j)
  {
    if Alpha(i) == Alpha(j) {
      AlphaCancel(i, j);
      AlphaOrder(j - i);
    }
  }

  lemma {:induction false} AlphaNonzero(i: nat)
    ensures Alpha(i) != 0
  {
    if i != 0 {
      AlphaNonzero(i - 1);
      if Alpha(i) == 0 {
        DoubleInjective(Alpha(i - 1), 0);
      }
    }
  }

  ghost function Powers(n: nat): set<int> { set i | 0 <= i < n :: Alpha(i) }

  lemma {:induction false} PowersSize(n: nat)
    requires n <= 255
    ensures |Powers(n)| == n
  {
    if n != 0 {
      PowersSize(n - 1);
      assert Powers(n) == Powers(n - 1) + {Alpha(n - 1)};
      forall i | 0 <= i < n - 1 ensures Alpha(i) != Alpha(n - 1) {
        AlphaDistinct(i, n - 1);
      }
    }
  }

  ghost function Range(n: nat): set<int> { if n == 0 then {} else Range(n - 1) + {n} }

  lemma {:induction false} RangeMember(n: nat, i: int)
    ensures i in Range(n) <==> 1 <= i <= n
  {
    if n != 0 {
      RangeMember(n - 1, i);
    }
  }

  lemma {:induction false} RangeSize(n: nat)
    ensures |Range(n)| == n
  {
    if n != 0 {
      RangeSize(n - 1);
      RangeMember(n - 1, n);
    }
  }

  lemma SubsetSameSize(a: set<int>, b: set<int>)
    requires a <= b && |a| == |b|
    ensures a == b
  {
    assert b == a + (b - a);
    assert |b| == |a| + |b - a|;
  }

  /** Every nonzero byte is a power of x below 255. */
  lemma AlphaOnto(a: Byte) returns (i: nat)
    requires a != 0
    ensures i < 255 && Alpha(i) == a
  {
    PowersSize(255);
    RangeSize(255);
    forall b | b in Powers(255) ensures b in Range(255) {
      var i :| 0 <= i < 255 && Alpha(i) == b;
      AlphaNonzero(i);
      RangeMember(255, b);
    }
    SubsetSameSize(Powers(255), Range(255));
    RangeMember(255, a);
    i :| 0 <= i < 255 && Alpha(i) == a;
  }

  datatype Tables = Tables(exp: seq<Byte>, log: seq<Byte>) {
    /** `exp` holds the powers of x over two periods and `log` inverts it on nonzero bytes. */
    ghost predicate Valid() {
      && |exp| == 512
      && |log| == 256
      && (forall i: nat :: i < 510 ==> exp[i] == Alpha(i))
      && (forall a: Byte :: a != 0 ==> log[a] < 255 && Alpha(log[a]) == a)
    }

    /** Field multiplication by table lookup. */
    function Mul(a: Byte, b: Byte): (r: Byte)
      requires Valid()
      ensures r == Gf256.Mul(a, b)
    {
      if a == 0 || b == 0 then
        MulZeroRight(a);
        0
      else
        AlphaSum(log[a], log[b]);
        exp[log[a] as int + log[b] as int]
    }

    /** Field inverse by table lookup. */
    function Inv(a: Byte): (r: Byte)
      requires Valid() && a != 0
      ensures Gf256.Mul(a, r) == 1
    {
      AlphaSum(log[a], 255 - log[a]);
      AlphaValues();
      exp[255 - log[a]]
    }
  }

  lemma AlphaNext(i: nat)
    ensures Alpha(i + 1) == Double(Alpha(i))
  {
  }

  /** One step of the table loop: shift the 16-bit word left and reduce it by 0x11d. */
  function NextPower(x: Byte): (r: Byte)
    ensures r == Double(x)
  {
    if 2 * x >= 0x100 then ShiftReduces(x); Xor(2 * x, 0x11d) else 2 * x
  }

  /** Fill both tables: `x` runs through the powers of the generator. */
  method BuildTables() returns (t: Tables)
    ensures t.Valid()
  {
    hide Iterate;
    hide Double;
    var exp := new Byte[512](_ => 0);
    var log := new Byte[256](_ => 0);
    var x: Byte := 1;
    PowerZero();
    for i := 0 to 255
      invariant x == Alpha(i)
      invariant forall j: nat :: j < i ==> exp[j] == Alpha(j)
      invariant forall j: nat :: j < i ==> log[Alpha(j)] == j
    {
      forall j: nat | j < i ensures Alpha(j) != x { AlphaDistinct(j, i); }
      exp[i] := x;
      log[x] := i;
      x := NextPower(x);
      AlphaNext(i);
    }
    for i := 0 to 255
      invariant forall j: nat :: j < 255 + i ==> exp[j] == Alpha(j)
      invariant forall j: nat :: j < 255 ==> log[Alpha(j)] == j
    {
      AlphaPeriod(i);
      exp[255 + i] := exp[i];
    }
    t := Tables(exp[..], log[..]);
    LogsComplete(t);
  }

  lemma LogsComplete(t: Tables)
    requires |t.exp| == 512 && |t.log| == 256
    requires forall j: nat :: j < 255 ==> t.log[Alpha(j)] == j
    ensures forall a: Byte :: a != 0 ==> t.log[a] < 255 && Alpha(t.log[a]) == a
  {
    hide Iterate;
    forall a: Byte | a != 0 ensures t.log[a] < 255 && Alpha(t.log[a]) == a {
      var k := AlphaOnto(a);
    }
  }

  lemma AlphaPeriod(i: nat)
    ensures Alpha(255 + i) == Alpha(i)
  {
    hide Iterate;
    AlphaValues();
    AlphaSum(255, i);
    MulOneLeft(Alpha(i));
  }

  lemma ShiftReduces(x: Byte)
    requires x >= 128
    ensures Xor(2 * x, 0x11d) == Double(x)
  {
    assert Pow2(8) == 256;
    XorTopBits(8, 2 * (x - 128), POLY);
  }

  /** x^e by repeated multiplication. */
  function Pow(x: Byte, e: nat): Byte {
    if e == 0 then 1 else Gf256.Mul(Pow(x, e - 1), x)
  }

  method TablePow(t: Tables, base: Byte, e: nat) returns (out: Byte)
    requires t.Valid()
    ensures out == Pow(base, e)
  {
    out := 1;
    for i := 0 to e
      invariant out == Pow(base, i)
    {
      out := t.Mul(out, base);
    }
  }
}
