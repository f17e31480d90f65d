/** Polynomials over GF(256) and the root bound behind the Vandermonde construction. */
module Polynomials {
  import opened Bytes
  import opened Gf256
  import opened GfTables
  import opened LinearAlgebra

  /** p[0] + p[1]·x + p[2]·x^2 + ... */
  function Eval(p: Row, x: Byte): Byte {
    if p == [] then 0 else Add(p[0], Mul(x, Eval(p[1..], x)))
  }

  /** One Vandermonde row: 1, x, x^2, ... */
  function PowerRow(x: Byte, k: nat): (v: Row)
    ensures |v| == k && forall c :: 0 <= c < k ==> v[c] == Pow(x, c)
  {
    seq(k, c requires 0 <= c < k => Pow(x, c))
  }

  lemma {:induction false} EvalIsDot(p: Row, x: Byte)
    ensures Dot(PowerRow(x, |p|), p, |p|) == Eval(p, x)
  {
    hide Add;
    hide Mul;
    var n := |p|;
    if n != 0 {
      var row := PowerRow(x, n);
      var low := PowerRow(x, n - 1);
      EvalIsDot(p[1..], x);
      DotSplit(row, p, 1, n);
      assert row[1..] == ScaleRow(low, x);
      DotScale(low, x, p[1..], n - 1);
      assert Dot(row, p, 1) == Add(Dot(row, p, 0), Mul(1, p[0]));
      MulOneLeft(p[0]);
      ZeroLaws(p[0]);
    }
  }

  /** The quotient of p - p(a) by x - a (synthetic division). */
  function Quotient(p: Row, a: Byte): (q: Row)
    requires p != []
    ensures |q| == |p| - 1
  {
    if |p| == 1 then [] else [Eval(p[1..], a)] + Quotient(p[1..], a)
  }

  /** p(b) = p(a) + (b - a)·q(b). */
  lemma {:induction false} Factor(p: Row, a: Byte, b: Byte)
    requires p != []
    ensures Eval(p, b) == Add(Eval(p, a), Mul(Add(b, a), Eval(Quotient(p, a), b)))
  {
    hide Add;
    hide Mul;
    var r := p[1..];
    if r == [] {
      assert Eval(r, a) == 0 && Eval(r, b) == 0;
      ZeroLaws(a);
      ZeroLaws(b);
      ZeroLaws(Add(b, a));
      ZeroLaws(Eval(p, a));
    } else {
      Factor(r, a, b);
      var q := Quotient(r, a);
      assert Quotient(p, a)[1..] == q;
      FactorStep(p[0], Eval(r, a), Eval(q, b), a, b);
    }
  }

  /** The algebra of one synthetic division step. */
  lemma FactorStep(c: Byte, ra: Byte, qb: Byte, a: Byte, b: Byte)
    ensures Add(c, Mul(b, Add(ra, Mul(Add(b, a), qb)))) ==
            Add(Add(c, Mul(a, ra)), Mul(Add(b, a), Add(ra, Mul(b, qb))))
  {
    hide Add;
    hide Mul;
    var s := Add(b, a);
    // left: c + b·ra + b·s·qb
    MulAddRight(b, ra, Mul(s, qb));
    MulAssoc(b, s, qb);
    MulComm(b, s);
    MulAssoc(s, b, qb);
    // right: c + a·ra + s·ra + s·b·qb, with s·ra = b·ra + a·ra
    MulAddRight(s, ra, Mul(b, qb));
    MulAddLeft(b, a, ra);
    var x, y, z := Mul(a, ra), Mul(b, ra), Mul(s, Mul(b, qb));
    Cancel(c, x, y, z);
  }

  lemma Cancel(c: Byte, x: Byte, y: Byte, z: Byte)
    ensures Add(Add(c, x), Add(Add(y, x), z)) == Add(c, Add(y, z))
  {
    hide Mul;
    AddComm(y, x);
    AddAssoc(x, y, z);
    AddAssoc(c, x, Add(x, Add(y, z)));
    XorCancel(x, Add(y, z));
  }

  lemma {:induction false} QuotientZero(p: Row, a: Byte)
    requires p != [] && Eval(p, a) == 0
    requires forall i :: 0 <= i < |p| - 1 ==> Quotient(p, a)[i] == 0
    ensures forall i :: 0 <= i < |p| ==> p[i] == 0
  {
    hide Mul;
    var r := p[1..];
    if r == [] {
      assert Eval(r, a) == 0;
    } else {
      var q := Quotient(p, a);
      assert q[0] == Eval(r, a) && q[1..] == Quotient(r, a);
      QuotientZero(r, a);
      assert forall i :: 1 <= i < |p| ==> p[i] == r[i - 1];
    }
    ZeroLaws(a);
    ZeroLaws(p[0]);
  }

  lemma InverseExists(a: Byte) returns (b: Byte)
    requires a != 0
    ensures Mul(a, b) == 1
  {
    var i := AlphaOnto(a);
    AlphaSum(i, 255 - i);
    AlphaValues();
    b := Alpha(255 - i);
  }

  ghost predicate Distinct(s: seq<Byte>) {
    forall i, j :: 0 <= i < j < |s| ==> s[i] != s[j]
  }

  /** A polynomial with at least as many distinct roots as coefficients is zero. */
  lemma {:induction false} RootBound(p: Row, roots: seq<Byte>)
    requires |roots| >= |p| && Distinct(roots)
    requires forall i :: 0 <= i < |roots| ==> Eval(p, roots[i]) == 0
    ensures !NonZero(p)
    decreases |p|
  {
    if p != [] {
      var a := roots[0];
      var q := Quotient(p, a);
      var rest := roots[1..];
      forall i | 0 <= i < |rest| ensures Eval(q, rest[i]) == 0 {
        RootOfQuotient(p, a, rest[i]);
      }
      RootBound(q, rest);
      QuotientZero(p, a);
    }
  }

  lemma RootOfQuotient(p: Row, a: Byte, b: Byte)
    requires p != [] && a != b && Eval(p, a) == 0 && Eval(p, b) == 0
    ensures Eval(Quotient(p, a), b) == 0
  {
    Factor(p, a, b);
    var s := Add(b, a);
    if s == 0 { AddIsZero(b, a); }
    var inv := InverseExists(s);
    ZeroLaws(Mul(s, Eval(Quotient(p, a), b)));
    NoZeroDivisor(s, Eval(Quotient(p, a), b), inv);
  }

  /** Vandermonde rows at distinct points form an injective matrix. */
  lemma VandermondeInjective(m: Matrix, points: seq<Byte>)
    requires |m| == |points| && Distinct(points)
    requires forall r :: 0 <= r < |m| ==> m[r] == PowerRow(points[r], |m|)
    ensures Injective(m, |m|)
  {
    forall v: Row | |v| == |m| && Kills(m, v) ensures !NonZero(v) {
      forall i | 0 <= i < |points| ensures Eval(v, points[i]) == 0 {
        EvalIsDot(v, points[i]);
        assert Dot(m[i], v, |v|) == 0;
      }
      RootBound(v, points);
    }
  }
}
