/** Vectors and matrices over GF(256), as sequences of rows. */
module LinearAlgebra {
  import opened Bytes
  import opened Gf256

  type Row = seq<Byte>
  type Matrix = seq<Row>

  ghost predicate IsMatrix(m: Matrix, rows: nat, cols: nat) {
    |m| == rows && forall r :: 0 <= r < rows ==> |m[r]| == cols
  }

  /** The sum of u[i]·v[i] over i < n. */
  function Dot(u: Row, v: Row, n: nat): Byte
    requires n <= |u| && n <= |v|
  {
    if n == 0 then 0 else Add(Dot(u, v, n - 1), Mul(u[n - 1], v[n - 1]))
  }

  function Col(m: Matrix, c: nat): (v: Row)
    requires forall r :: 0 <= r < |m| ==> c < |m[r]|
    ensures |v| == |m| && forall r :: 0 <= r < |m| ==> v[r] == m[r][c]
  {
    seq(|m|, r requires 0 <= r < |m| => m[r][c])
  }

  /** The column vector m·v. */
  function MatVec(m: Matrix, v: Row): (w: Row)
    requires IsMatrix(m, |m|, |v|)
    ensures |w| == |m| && forall r :: 0 <= r < |m| ==> w[r] == Dot(m[r], v, |v|)
  {
    seq(|m|, r requires 0 <= r < |m| => Dot(m[r], v, |v|))
  }

  /** The row vector u·m. */
  function VecMat(u: Row, m: Matrix, cols: nat): (w: Row)
    requires IsMatrix(m, |u|, cols)
    ensures |w| == cols && forall c :: 0 <= c < cols ==> w[c] == Dot(u, Col(m, c), |u|)
  {
    seq(cols, c requires 0 <= c < cols => Dot(u, Col(m, c), |u|))
  }

  function Unit(n: nat, r: nat): (v: Row)
    ensures |v| == n && forall c :: 0 <= c < n ==> v[c] == if c == r then 1 else 0
  {
    seq(n, c requires 0 <= c < n => if c == r then 1 else 0)
  }

  function Zeros(n: nat): (v: Row)
    ensures |v| == n && forall c :: 0 <= c < n ==> v[c] == 0
  {
    seq(n, _ => 0)
  }

  /** Dot is linear in its first argument: (x + f·y)·v = x·v + f·(y·v). */
  lemma {:induction false} DotLinear(w: Row, x: Row, f: Byte, y: Row, v: Row, n: nat)
    requires n <= |w| && n <= |x| && n <= |y| && n <= |v|
    requires forall i :: 0 <= i < n ==> w[i] == Add(x[i], Mul(f, y[i]))
    ensures Dot(w, v, n) == Add(Dot(x, v, n), Mul(f, Dot(y, v, n)))
  {
    hide Add;
    hide Mul;
    if n == 0 {
      ZeroLaws(f);
      ZeroLaws(0);
    } else {
      var i := n - 1;
      DotLinear(w, x, f, y, v, i);
      MulAddLeft(x[i], Mul(f, y[i]), v[i]);
      MulAssoc(f, y[i], v[i]);
      MulAddRight(f, Dot(y, v, i), Mul(y[i], v[i]));
      Add4(Dot(x, v, i), Mul(f, Dot(y, v, i)), Mul(x[i], v[i]), Mul(f, Mul(y[i], v[i])));
    }
  }

  lemma ZeroLaws(a: Byte)
    ensures Mul(a, 0) == 0 && Mul(0, a) == 0
    ensures Add(a, 0) == a && Add(0, a) == a
  {
    MulZeroRight(a);
  }

  lemma {:induction false} DotComm(u: Row, v: Row, n: nat)
    requires n <= |u| && n <= |v|
    ensures Dot(u, v, n) == Dot(v, u, n)
  {
    if n != 0 {
      DotComm(u, v, n - 1);
      MulComm(u[n - 1], v[n - 1]);
    }
  }

  /** Dot reads only the first n entries. */
  lemma {:induction false} DotExt(u: Row, u': Row, v: Row, v': Row, n: nat)
    requires n <= |u| && n <= |u'| && n <= |v| && n <= |v'|
    requires forall i :: 0 <= i < n ==> u[i] == u'[i] && v[i] == v'[i]
    ensures Dot(u, v, n) == Dot(u', v', n)
  {
    if n != 0 {
      DotExt(u, u', v, v', n - 1);
    }
  }

  lemma {:induction false} DotZero(u: Row, v: Row, n: nat)
    requires n <= |u| && n <= |v|
    requires forall i :: 0 <= i < n ==> u[i] == 0
    ensures Dot(u, v, n) == 0
  {
    if n != 0 {
      DotZero(u, v, n - 1);
    }
  }

  /** A vector with one nonzero entry selects that entry. */
  lemma {:induction false} DotSingle(u: Row, v: Row, n: nat, r: nat)
    requires r < n <= |u| && n <= |v|
    requires forall i :: 0 <= i < n && i != r ==> u[i] == 0
    ensures Dot(u, v, n) == Mul(u[r], v[r])
  {
    hide Add;
    hide Mul;
    ZeroLaws(v[n - 1]);
    ZeroLaws(Mul(u[r], v[r]));
    if r == n - 1 {
      DotZero(u, v, n - 1);
    } else {
      DotSingle(u, v, n - 1, r);
    }
  }

  lemma DotUnit(v: Row, n: nat, r: nat)
    requires r < n <= |v|
    ensures Dot(Unit(n, r), v, n) == v[r]
  {
    DotSingle(Unit(n, r), v, n, r);
    MulOneLeft(v[r]);
  }

  /** Exchanging the two sums: u·(A·d) = (u·A)·d. */
  lemma {:induction false} DotAssoc(u: Row, a: Matrix, d: Row, y: Row, w: Row, n: nat)
    requires n <= |u| && n <= |a| && n <= |y| && |w| == |d|
    requires forall r :: 0 <= r < |a| ==> |a[r]| == |d|
    requires forall r :: 0 <= r < n ==> y[r] == Dot(a[r], d, |d|)
    requires forall c :: 0 <= c < |d| ==> w[c] == Dot(u, Col(a, c), n)
    ensures Dot(u, y, n) == Dot(w, d, |d|)
    decreases n
  {
    if n == 0 {
      DotZero(w, d, |d|);
    } else {
      var x := seq(|d|, c requires 0 <= c < |d| => Dot(u, Col(a, c), n - 1));
      DotAssoc(u, a, d, y, x, n - 1);
      DotLinear(w, x, u[n - 1], a[n - 1], d, |d|);
    }
  }

  /** u·(A·d) = (u·A)·d. */
  lemma MulVecAssoc(u: Row, a: Matrix, d: Row)
    requires IsMatrix(a, |u|, |d|)
    ensures Dot(u, MatVec(a, d), |u|) == Dot(VecMat(u, a, |d|), d, |d|)
  {
    DotAssoc(u, a, d, MatVec(a, d), VecMat(u, a, |d|), |u|);
  }

  /** Every row of m is orthogonal to v: m sends v to zero. */
  ghost predicate Kills(m: Matrix, v: Row) {
    forall r :: 0 <= r < |m| ==> |m[r]| == |v| && Dot(m[r], v, |v|) == 0
  }

  ghost predicate NonZero(v: Row) {
    exists i :: 0 <= i < |v| && v[i] != 0
  }

  /** No nonzero vector is sent to zero. */
  ghost predicate Injective(m: Matrix, n: nat) {
    forall v: Row :: |v| == n && Kills(m, v) ==> !NonZero(v)
  }

  /** x·m is the identity. */
  ghost predicate IsLeftInverse(x: Matrix, m: Matrix, n: nat) {
    && IsMatrix(x, n, n)
    && IsMatrix(m, n, n)
    && forall r :: 0 <= r < n ==> VecMat(x[r], m, n) == Unit(n, r)
  }

  lemma {:induction false} DotTail(u: Row, v: Row, k: nat, n: nat)
    requires k <= n <= |u| && n <= |v|
    requires forall i :: k <= i < n ==> v[i] == 0
    ensures Dot(u, v, n) == Dot(u, v, k)
    decreases n
  {
    if k < n {
      DotTail(u, v, k, n - 1);
      ZeroLaws(u[n - 1]);
      ZeroLaws(Dot(u, v, n - 1));
    }
  }

  /** Splitting a sum of products at k. */
  lemma {:induction false} DotSplit(u: Row, v: Row, k: nat, n: nat)
    requires k <= n <= |u| && n <= |v|
    ensures Dot(u, v, n) == Add(Dot(u, v, k), Dot(u[k..], v[k..], n - k))
    decreases n
  {
    hide Mul;
    if k < n {
      DotSplit(u, v, k, n - 1);
      AddAssoc(Dot(u, v, k), Dot(u[k..], v[k..], n - 1 - k), Mul(u[n - 1], v[n - 1]));
    }
  }

  lemma LeftInverseVec(x: Matrix, m: Matrix, n: nat, y: Row)
    requires IsLeftInverse(x, m, n) && |y| == n
    ensures MatVec(x, MatVec(m, y)) == y
  {
    var z := MatVec(m, y);
    forall r | 0 <= r < n ensures Dot(x[r], z, n) == y[r] {
      MulVecAssoc(x[r], m, y);
      DotUnit(y, n, r);
    }
  }

  /** A left inverse makes m injective. */
  lemma LeftInverseInjective(x: Matrix, m: Matrix, n: nat)
    requires IsLeftInverse(x, m, n)
    ensures Injective(m, n)
  {
    forall v: Row | |v| == n && Kills(m, v) ensures !NonZero(v) {
      LeftInverseVec(x, m, n, v);
      forall r | 0 <= r < n ensures v[r] == 0 {
        DotComm(x[r], MatVec(m, v), n);
        DotZero(MatVec(m, v), x[r], n);
      }
    }
  }

  function AddRows(u: Row, v: Row): (w: Row)
    requires |u| == |v|
    ensures |w| == |u| && forall i :: 0 <= i < |u| ==> w[i] == Add(u[i], v[i])
  {
    seq(|u|, i requires 0 <= i < |u| => Add(u[i], v[i]))
  }

  lemma DotAddRight(u: Row, v: Row, w: Row)
    requires |u| == |v| == |w|
    ensures Dot(u, AddRows(v, w), |u|) == Add(Dot(u, v, |u|), Dot(u, w, |u|))
  {
    var n := |u|;
    forall i | 0 <= i < n ensures Mul(1, w[i]) == w[i] { MulOneLeft(w[i]); }
    DotLinear(AddRows(v, w), v, 1, w, u, n);
    MulOneLeft(Dot(w, u, n));
    DotComm(u, v, n);
    DotComm(u, w, n);
    DotComm(u, AddRows(v, w), n);
  }

  lemma AddIsZero(a: Byte, b: Byte)
    requires Add(a, b) == 0
    ensures a == b
  {
    XorCancel(a, b);
  }

  /** If x·m = I and x is injective then m·(x·w) = w for every w. */
  lemma RightInverseVec(x: Matrix, m: Matrix, n: nat, w: Row)
    requires IsLeftInverse(x, m, n) && Injective(x, n) && |w| == n
    ensures MatVec(m, MatVec(x, w)) == w
  {
    var y := MatVec(x, w);
    var z := MatVec(m, y);
    var d := AddRows(z, w);
    LeftInverseVec(x, m, n, y);
    forall r | 0 <= r < n ensures Dot(x[r], d, n) == 0 {
      DotAddRight(x[r], z, w);
      AddSelf(y[r]);
    }
    assert Kills(x, d);
    forall i | 0 <= i < n ensures z[i] == w[i] {
      assert d[i] == 0;
      AddIsZero(z[i], w[i]);
    }
  }

  lemma RightInverse(x: Matrix, m: Matrix, n: nat)
    requires IsLeftInverse(x, m, n) && Injective(x, n)
    ensures IsLeftInverse(m, x, n)
  {
    forall r, c | 0 <= r < n && 0 <= c < n ensures VecMat(m[r], x, n)[c] == Unit(n, r)[c] {
      var e := Unit(n, c);
      RightInverseVec(x, m, n, e);
      forall i | 0 <= i < n ensures MatVec(x, e)[i] == Col(x, c)[i] {
        DotComm(x[i], e, n);
        DotUnit(x[i], n, c);
      }
      assert MatVec(x, e) == Col(x, c);
    }
    forall r | 0 <= r < n ensures VecMat(m[r], x, n) == Unit(n, r) {
    }
  }

  function ScaleRow(row: Row, f: Byte): (out: Row)
    ensures |out| == |row| && forall i :: 0 <= i < |row| ==> out[i] == Mul(row[i], f)
  {
    seq(|row|, i requires 0 <= i < |row| => Mul(row[i], f))
  }

  lemma DotScale(row: Row, f: Byte, v: Row, n: nat)
    requires n <= |row| && n <= |v|
    ensures Dot(ScaleRow(row, f), v, n) == Mul(f, Dot(row, v, n))
  {
    hide Add;
    hide Mul;
    var z := Zeros(|row|);
    forall i | 0 <= i < n ensures ScaleRow(row, f)[i] == Add(z[i], Mul(f, row[i])) {
      MulComm(f, row[i]);
      ZeroLaws(Mul(f, row[i]));
    }
    DotLinear(ScaleRow(row, f), z, f, row, v, n);
    DotZero(z, v, n);
    ZeroLaws(Mul(f, Dot(row, v, n)));
  }

  /** GF(256) has no zero divisors. */
  lemma NoZeroDivisor(a: Byte, b: Byte, ai: Byte)
    requires Mul(a, ai) == 1 && Mul(a, b) == 0
    ensures b == 0
  {
    MulComm(a, ai);
    MulAssoc(ai, a, b);
    MulZeroRight(ai);
    MulOneLeft(b);
  }
}
