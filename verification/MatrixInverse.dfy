/** Gauss-Jordan inversion of a square matrix over GF(256), in place on the augmented rows. */
module MatrixInverse {
  import opened Bytes
  import opened Gf256
  import opened GfTables
  import opened LinearAlgebra
  import opened Wrappers


  /** The rows (m | I). */
  function Augment(m: Matrix): Matrix {
    seq(|m|, r requires 0 <= r < |m| => m[r] + Unit(|m|, r))
  }

  /** Right half times m equals left half, for one augmented row. */
  ghost predicate Tracks(row: Row, m: Matrix, n: nat)
    requires IsMatrix(m, n, n)
  {
    |row| == 2 * n && forall c :: 0 <= c < n ==> Dot(row[n..], Col(m, c), n) == row[c]
  }

  /** Row operations lose no equation: what the rows kill, the original rows killed. */
  ghost predicate KernelWithin(rows: Matrix, orig: Matrix, w: nat) {
    forall v: Row :: |v| == w && Kills(rows, v) ==> Kills(orig, v)
  }

  ghost predicate Reduced(rows: Matrix, m: Matrix, n: nat)
    requires IsMatrix(m, n, n)
  {
    && IsMatrix(rows, n, 2 * n)
    && (forall r :: 0 <= r < n ==> Tracks(rows[r], m, n))
    && KernelWithin(rows, Augment(m), 2 * n)
  }

  /** The first `col` columns are those of the identity. */
  ghost predicate Cleared(rows: Matrix, n: nat, col: nat)
    requires IsMatrix(rows, n, 2 * n) && col <= n
  {
    forall r, c :: 0 <= r < n && 0 <= c < col ==> rows[r][c] == if r == c then 1 else 0
  }

  function AddScaledRow(row: Row, f: Byte, p: Row): (out: Row)
    requires |row| == |p|
    ensures |out| == |row| && forall i :: 0 <= i < |row| ==> out[i] == Add(row[i], Mul(f, p[i]))
  {
    seq(|row|, i requires 0 <= i < |row| => Add(row[i], Mul(f, p[i])))
  }

  function Swapped(rows: Matrix, i: nat, j: nat): (out: Matrix)
    requires i < |rows| && j < |rows|
    ensures |out| == |rows|
    ensures forall r :: 0 <= r < |rows| ==> out[r] == rows[if r == i then j else if r == j then i else r]
  {
    seq(|rows|, r requires 0 <= r < |rows| => rows[if r == i then j else if r == j then i else r])
  }

  function Normalized(rows: Matrix, col: nat, f: Byte): (out: Matrix)
    requires col < |rows|
    ensures |out| == |rows|
    ensures forall r :: 0 <= r < |rows| ==> out[r] == if r == col then ScaleRow(rows[r], f) else rows[r]
  {
    seq(|rows|, r requires 0 <= r < |rows| => if r == col then ScaleRow(rows[r], f) else rows[r])
  }

  function Eliminated(rows: Matrix, col: nat): (out: Matrix)
    requires col < |rows| && IsMatrix(rows, |rows|, 2 * |rows|)
    ensures |out| == |rows|
    ensures forall r :: 0 <= r < |rows| ==>
      out[r] == if r == col then rows[r] else AddScaledRow(rows[r], rows[r][col], rows[col])
  {
    seq(|rows|, r requires 0 <= r < |rows| =>
      if r == col then rows[r] else AddScaledRow(rows[r], rows[r][col], rows[col]))
  }

  // What each row operation keeps.

  lemma AugmentReduced(m: Matrix, n: nat)
    requires IsMatrix(m, n, n)
    ensures Reduced(Augment(m), m, n)
  {
    var rows := Augment(m);
    forall r | 0 <= r < n ensures Tracks(rows[r], m, n) {
      assert rows[r][n..] == Unit(n, r);
      forall c | 0 <= c < n ensures Dot(rows[r][n..], Col(m, c), n) == rows[r][c] {
        DotUnit(Col(m, c), n, r);
      }
    }
  }

  lemma SwapReduced(rows: Matrix, m: Matrix, n: nat, i: nat, j: nat)
    requires IsMatrix(m, n, n) && Reduced(rows, m, n) && i <= j < n
    ensures Reduced(Swapped(rows, i, j), m, n)
  {
    var out := Swapped(rows, i, j);
    forall v: Row | |v| == 2 * n && Kills(out, v) ensures Kills(rows, v) {
      forall r | 0 <= r < n ensures Dot(rows[r], v, |v|) == 0 {
        assert rows[r] == out[if r == i then j else if r == j then i else r];
      }
    }
  }

  lemma ScaleTracks(row: Row, f: Byte, m: Matrix, n: nat)
    requires IsMatrix(m, n, n) && Tracks(row, m, n)
    ensures Tracks(ScaleRow(row, f), m, n)
  {
    var out := ScaleRow(row, f);
    assert out[n..] == ScaleRow(row[n..], f);
    forall c | 0 <= c < n ensures Dot(out[n..], Col(m, c), n) == out[c] {
      DotScale(row[n..], f, Col(m, c), n);
      MulComm(f, row[c]);
    }
  }

  lemma ScaleReduced(rows: Matrix, m: Matrix, n: nat, col: nat, f: Byte, g: Byte)
    requires IsMatrix(m, n, n) && Reduced(rows, m, n) && col < n && Mul(f, g) == 1
    ensures Reduced(Normalized(rows, col, f), m, n)
  {
    hide Dot;
    hide Mul;
    hide Tracks;
    var out := Normalized(rows, col, f);
    ScaleTracks(rows[col], f, m, n);
    forall v: Row | |v| == 2 * n && Kills(out, v) ensures Kills(rows, v) {
      forall r | 0 <= r < n ensures Dot(rows[r], v, |v|) == 0 {
        assert Dot(out[r], v, |v|) == 0;
        if r == col {
          DotScale(rows[col], f, v, 2 * n);
          NoZeroDivisor(f, Dot(rows[col], v, 2 * n), g);
        }
      }
    }
  }

  lemma AddTracks(row: Row, f: Byte, p: Row, m: Matrix, n: nat)
    requires IsMatrix(m, n, n) && Tracks(row, m, n) && Tracks(p, m, n)
    ensures Tracks(AddScaledRow(row, f, p), m, n)
  {
    var out := AddScaledRow(row, f, p);
    forall c | 0 <= c < n ensures Dot(out[n..], Col(m, c), n) == out[c] {
      DotLinear(out[n..], row[n..], f, p[n..], Col(m, c), n);
    }
  }

  lemma EliminateReduced(rows: Matrix, m: Matrix, n: nat, col: nat)
    requires IsMatrix(m, n, n) && Reduced(rows, m, n) && col < n
    ensures Reduced(Eliminated(rows, col), m, n)
  {
    var out := Eliminated(rows, col);
    forall r | 0 <= r < n ensures Tracks(out[r], m, n) {
      if r != col { AddTracks(rows[r], rows[r][col], rows[col], m, n); }
    }
    forall v: Row | |v| == 2 * n && Kills(out, v) ensures Kills(rows, v) {
      forall r | 0 <= r < n ensures Dot(rows[r], v, |v|) == 0 {
        assert Dot(out[r], v, |v|) == 0 && Dot(out[col], v, |v|) == 0;
        if r != col {
          DotLinear(out[r], rows[r], rows[r][col], rows[col], v, 2 * n);
          ZeroLaws(rows[r][col]);
          ZeroLaws(Dot(rows[r], v, 2 * n));
        }
      }
    }
  }

  lemma EliminateCleared(rows: Matrix, n: nat, col: nat)
    requires IsMatrix(rows, n, 2 * n) && col < n && Cleared(rows, n, col) && rows[col][col] == 1
    ensures IsMatrix(Eliminated(rows, col), n, 2 * n) && Cleared(Eliminated(rows, col), n, col + 1)
  {
    var out := Eliminated(rows, col);
    forall r, c | 0 <= r < n && 0 <= c < col + 1 ensures out[r][c] == if r == c then 1 else 0 {
      if r != col {
        var f := rows[r][col];
        MulOneRight(f);
        AddSelf(f);
        ZeroLaws(f);
        ZeroLaws(rows[r][c]);
      }
    }
  }

  /** The vector that a missing pivot exposes. */
  function NullVector(rows: Matrix, n: nat, col: nat): (v: Row)
    requires IsMatrix(rows, n, 2 * n) && col < n
    ensures |v| == 2 * n
    ensures forall i :: 0 <= i < 2 * n ==> v[i] == if i < col then rows[i][col] else if i == col then 1 else 0
  {
    seq(2 * n, i requires 0 <= i < 2 * n => if i < col then rows[i][col] else if i == col then 1 else 0)
  }

  lemma NullVectorKilled(rows: Matrix, n: nat, col: nat)
    requires IsMatrix(rows, n, 2 * n) && col < n && Cleared(rows, n, col)
    requires forall r :: col <= r < n ==> rows[r][col] == 0
    ensures Kills(rows, NullVector(rows, n, col))
  {
    var v := NullVector(rows, n, col);
    forall r | 0 <= r < n ensures Dot(rows[r], v, 2 * n) == 0 {
      DotTail(rows[r], v, col + 1, 2 * n);
      MulOneRight(rows[r][col]);
      if r < col {
        DotSingle(rows[r], v, col, r);
        MulOneLeft(v[r]);
        AddSelf(rows[r][col]);
      } else {
        DotZero(rows[r], v, col + 1);
      }
    }
  }

  /** On (m | I), a vector (v | w) gives m·v + w. */
  lemma DotAugmented(m: Matrix, n: nat, r: nat, v: Row)
    requires IsMatrix(m, n, n) && r < n && |v| == 2 * n
    ensures Dot(Augment(m)[r], v, 2 * n) == Add(Dot(m[r], v[..n], n), v[n + r])
  {
    var row := Augment(m)[r];
    DotSplit(row, v, n, 2 * n);
    DotExt(row, m[r], v, v[..n], n);
    assert row[n..] == Unit(n, r);
    DotUnit(v[n..], n, r);
  }

  /** A column without a pivot means that m sends a nonzero vector to zero. */
  lemma SingularWitness(rows: Matrix, m: Matrix, n: nat, col: nat)
    requires IsMatrix(m, n, n) && Reduced(rows, m, n) && col < n && Cleared(rows, n, col)
    requires forall r :: col <= r < n ==> rows[r][col] == 0
    ensures !Injective(m, n)
  {
    var v := NullVector(rows, n, col);
    NullVectorKilled(rows, n, col);
    assert Kills(Augment(m), v);
    var u := v[..n];
    forall r | 0 <= r < n ensures Dot(m[r], u, n) == 0 {
      DotAugmented(m, n, r, v);
      assert Dot(Augment(m)[r], v, 2 * n) == 0;
      ZeroLaws(Dot(m[r], u, n));
    }
    assert u[col] != 0;
    assert Kills(m, u) && NonZero(u);
  }

  function RightHalf(rows: Matrix, n: nat): (x: Matrix)
    requires IsMatrix(rows, n, 2 * n)
    ensures IsMatrix(x, n, n) && forall r :: 0 <= r < n ==> x[r] == rows[r][n..]
  {
    seq(n, r requires 0 <= r < n => rows[r][n..])
  }

  lemma RightHalfInjective(rows: Matrix, m: Matrix, n: nat)
    requires IsMatrix(m, n, n) && Reduced(rows, m, n)
    ensures Injective(RightHalf(rows, n), n)
  {
    forall w: Row | |w| == n && Kills(RightHalf(rows, n), w) ensures !NonZero(w) {
      PaddedKilled(rows, n, w);
      PaddedZero(m, n, w);
    }
  }

  lemma PaddedKilled(rows: Matrix, n: nat, w: Row)
    requires IsMatrix(rows, n, 2 * n) && |w| == n && Kills(RightHalf(rows, n), w)
    ensures Kills(rows, Zeros(n) + w)
  {
    var v := Zeros(n) + w;
    assert v[n..] == w;
    forall r | 0 <= r < n ensures Dot(rows[r], v, 2 * n) == 0 {
      DotSplit(rows[r], v, n, 2 * n);
      DotZeroRight(rows[r], v, n);
      assert Dot(RightHalf(rows, n)[r], w, n) == 0;
    }
  }

  lemma PaddedZero(m: Matrix, n: nat, w: Row)
    requires IsMatrix(m, n, n) && |w| == n && Kills(Augment(m), Zeros(n) + w)
    ensures !NonZero(w)
  {
    var v := Zeros(n) + w;
    forall r | 0 <= r < n ensures w[r] == 0 {
      DotAugmented(m, n, r, v);
      DotZeroRight(m[r], v[..n], n);
      assert Dot(Augment(m)[r], v, 2 * n) == 0;
    }
  }

  lemma DotZeroRight(u: Row, v: Row, n: nat)
    requires n <= |u| && n <= |v|
    requires forall i :: 0 <= i < n ==> v[i] == 0
    ensures Dot(u, v, n) == 0
  {
    DotComm(u, v, n);
    DotZero(v, u, n);
  }

  /** Fully reduced rows hold a two-sided inverse in their right half. */
  lemma RightHalfInverse(rows: Matrix, m: Matrix, n: nat)
    requires IsMatrix(m, n, n) && Reduced(rows, m, n) && Cleared(rows, n, n)
    ensures IsLeftInverse(RightHalf(rows, n), m, n) && IsLeftInverse(m, RightHalf(rows, n), n)
  {
    var x := RightHalf(rows, n);
    forall r | 0 <= r < n ensures VecMat(x[r], m, n) == Unit(n, r) {
      assert Tracks(rows[r], m, n);
    }
    RightHalfInjective(rows, m, n);
    RightInverse(x, m, n);
  }

  // The in-place algorithm.

  method Scale(t: Tables, row: Row, f: Byte) returns (out: Row)
    requires t.Valid()
    ensures out == ScaleRow(row, f)
  {
    var buf := new Byte[|row|](_ => 0);
    for i := 0 to |row|
      invariant forall j :: 0 <= j < i ==> buf[j] == Mul(row[j], f)
    {
      buf[i] := t.Mul(row[i], f);
    }
    out := buf[..];
  }

  method AddScaled(t: Tables, row: Row, f: Byte, p: Row) returns (out: Row)
    requires t.Valid() && |row| == |p|
    ensures out == AddScaledRow(row, f, p)
  {
    var buf := new Byte[|row|](_ => 0);
    for i := 0 to |row|
      invariant forall j :: 0 <= j < i ==> buf[j] == Add(row[j], Mul(f, p[j]))
    {
      buf[i] := Add(row[i], t.Mul(f, p[i]));
    }
    out := buf[..];
  }

  lemma AddScaledByZero(row: Row, p: Row)
    requires |row| == |p|
    ensures AddScaledRow(row, 0, p) == row
  {
    forall i | 0 <= i < |row| ensures AddScaledRow(row, 0, p)[i] == row[i] {
      ZeroLaws(p[i]);
      ZeroLaws(row[i]);
    }
  }

  /** Clear column `col` from every row but the pivot row. */
  method Eliminate(t: Tables, a: array<Row>, col: nat)
    requires t.Valid() && col < a.Length && IsMatrix(a[..], a.Length, 2 * a.Length)
    modifies a
    ensures a[..] == Eliminated(old(a[..]), col)
  {
    var pivotRow := a[col];
    ghost var rows := a[..];
    for r := 0 to a.Length
      invariant forall i :: 0 <= i < r ==> a[i] == Eliminated(rows, col)[i]
      invariant forall i :: r <= i < a.Length ==> a[i] == rows[i]
      invariant a[col] == pivotRow
    {
      if r != col {
        if a[r][col] != 0 {
          var row := AddScaled(t, a[r], a[r][col], pivotRow);
          a[r] := row;
        } else {
          AddScaledByZero(a[r], pivotRow);
        }
      }
    }
  }

  /** The first row at or below `col` whose entry in that column is nonzero. */
  method FindPivot(a: array<Row>, col: nat) returns (piv: nat)
    requires col < a.Length && IsMatrix(a[..], a.Length, 2 * a.Length)
    ensures col <= piv <= a.Length
    ensures forall r :: col <= r < piv ==> a[r][col] == 0
    ensures piv < a.Length ==> a[piv][col] != 0
  {
    piv := col;
    while piv < a.Length && a[piv][col] == 0
      invariant col <= piv <= a.Length
      invariant forall r :: col <= r < piv ==> a[r][col] == 0
    {
      piv := piv + 1;
    }
  }

  lemma PivotCleared(rows: Matrix, n: nat, col: nat, piv: nat, f: Byte)
    requires IsMatrix(rows, n, 2 * n) && col <= piv < n && Cleared(rows, n, col)
    requires Mul(rows[piv][col], f) == 1
    ensures var out := Normalized(Swapped(rows, col, piv), col, f);
      IsMatrix(out, n, 2 * n) && Cleared(out, n, col) && out[col][col] == 1
  {
  }

  /** Move row `piv` to row `col` and scale it so that its pivot becomes 1. */
  method SwapAndNormalize(t: Tables, a: array<Row>, col: nat, piv: nat) returns (ghost f: Byte)
    requires t.Valid() && col <= piv < a.Length && IsMatrix(a[..], a.Length, 2 * a.Length)
    requires a[piv][col] != 0
    modifies a
    ensures Mul(old(a[piv][col]), f) == 1
    ensures a[..] == Normalized(Swapped(old(a[..]), col, piv), col, f)
  {
    a[col], a[piv] := a[piv], a[col];
    var pivInv := t.Inv(a[col][col]);
    var row := Scale(t, a[col], pivInv);
    a[col] := row;
    f := pivInv;
  }

  /** Invert `m`: a two-sided inverse exactly when m is injective, `None` otherwise. */
  method Invert(t: Tables, m: Matrix) returns (x: Option<Matrix>)
    requires t.Valid() && IsMatrix(m, |m|, |m|)
    ensures x.Some? <==> Injective(m, |m|)
    ensures x.Some? ==> IsLeftInverse(x.value, m, |m|) && IsLeftInverse(m, x.value, |m|)
  {
    var n := |m|;
    var a := new Row[n](r requires 0 <= r < n => m[r] + Unit(n, r));
    assert a[..] == Augment(m);
    AugmentReduced(m, n);
    for col := 0 to n
      invariant Reduced(a[..], m, n) && Cleared(a[..], n, col)
    {
      var piv := FindPivot(a, col);
      if piv == n {
        SingularWitness(a[..], m, n, col);
        return None;
      }
      ghost var rows := a[..];
      ghost var f := SwapAndNormalize(t, a, col, piv);
      ColumnStep(rows, m, n, col, piv, f);
      Eliminate(t, a, col);
    }
    RightHalfInverse(a[..], m, n);
    LeftInverseInjective(RightHalf(a[..], n), m, n);
    x := Some(RightHalf(a[..], n));
  }

  /** One round of the main loop reduces one more column. */
  lemma ColumnStep(rows: Matrix, m: Matrix, n: nat, col: nat, piv: nat, f: Byte)
    requires IsMatrix(m, n, n) && Reduced(rows, m, n) && col <= piv < n && Cleared(rows, n, col)
    requires Mul(rows[piv][col], f) == 1
    ensures var pivoted := Normalized(Swapped(rows, col, piv), col, f);
      && IsMatrix(pivoted, n, 2 * n)
      && Reduced(Eliminated(pivoted, col), m, n)
      && Cleared(Eliminated(pivoted, col), n, col + 1)
  {
    var swapped := Swapped(rows, col, piv);
    SwapReduced(rows, m, n, col, piv);
    MulComm(rows[piv][col], f);
    ScaleReduced(swapped, m, n, col, f, rows[piv][col]);
    PivotCleared(rows, n, col, piv, f);
    var pivoted := Normalized(swapped, col, f);
    EliminateReduced(pivoted, m, n, col);
    EliminateCleared(pivoted, n, col);
  }
}
