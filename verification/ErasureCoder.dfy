/** The systematic Reed-Solomon coder: k data shreds and m parity shreds, any k of which recover the
data.

The specification is the textbook code: in every byte column the k + m shreds are the values at
0, 1, ..., k + m - 1 of one polynomial with k coefficients, and the first k shreds, read in order,
are the length-prefixed, zero-padded data (`IsEncoding`). The coder never handles polynomials: it
multiplies by a systematic generator matrix and decodes by inverting the surviving rows.
*/
module ErasureCoder {
  import opened Bytes
  import opened Gf256
  import opened GfTables
  import opened LinearAlgebra
  import opened MatrixInverse
  import opened Polynomials

  datatype ShredKind = Data | Coding

  datatype Shred = Shred(slot: nat, index: nat, kind: ShredKind, payload: seq<Byte>)

  /** The outcome of decoding: the source's `Some`, its `None`, and a slice out of range. */
  datatype Decoded = Recovered(data: seq<Byte>) | Refused | Panicked

  // ---------- the code ----------

  function ShardSize(len: nat, k: nat): (size: nat)
    requires k >= 1
    ensures size >= 1 && (size - 1) * k < 8 + len <= size * k
  {
    var size := (8 + len + k - 1) / k;
    CeilDiv(8 + len, k);
    size
  }

  lemma CeilDiv(n: nat, k: nat)
    requires n >= 1 && k >= 1
    ensures var q := (n + k - 1) / k; q >= 1 && (q - 1) * k < n <= q * k
  {
    var q := (n + k - 1) / k;
    assert n + k - 1 == q * k + (n + k - 1) % k;
    assert (q - 1) * k == q * k - k;
    assert q < 1 ==> q * k <= 0;
  }

  /** Length prefix, data, zero padding. */
  function Framed(data: seq<Byte>, k: nat): (buf: seq<Byte>)
    requires k >= 1
    ensures |buf| == ShardSize(|data|, k) * k
  {
    ToLe(|data|, 8) + data + Zeros(ShardSize(|data|, k) * k - 8 - |data|)
  }

  lemma ShardBounds(c: nat, j: nat, k: nat, size: nat)
    requires c < k && j < size
    ensures c * size + j < size * k
    ensures 0 <= c * size <= c * size + size <= size * k
  {
    assert c * size + size == (c + 1) * size;
    assert (c + 1) * size <= k * size;
  }

  /** Byte j of every shard, cut from the buffer. */
  function BufferColumn(buf: seq<Byte>, k: nat, size: nat, j: nat): (d: Row)
    requires |buf| == size * k && j < size
    ensures |d| == k
    ensures forall c :: 0 <= c < k ==> (ShardBounds(c, j, k, size); d[c] == buf[c * size + j])
  {
    seq(k, c requires 0 <= c < k => ShardBounds(c, j, k, size); buf[c * size + j])
  }

  /** Every byte column of the shreds is one polynomial evaluated at the shred indices. */
  ghost predicate OnPolynomials(shreds: seq<Shred>, polys: seq<Row>, k: nat) {
    && (forall j :: 0 <= j < |polys| ==> |polys[j]| == k)
    && forall i :: 0 <= i < |shreds| ==>
      && shreds[i].index < 256
      && |shreds[i].payload| == |polys|
      && forall j :: 0 <= j < |polys| ==> shreds[i].payload[j] == Eval(polys[j], shreds[i].index)
  }

  ghost predicate IsEncoding(shreds: seq<Shred>, data: seq<Byte>, k: nat, m: nat)
    requires 1 <= k && k + m <= 256
  {
    var size := ShardSize(|data|, k);
    && |shreds| == k + m
    && (forall i :: 0 <= i < k + m ==> shreds[i].index == i && |shreds[i].payload| == size)
    && (forall i, j :: 0 <= i < k && 0 <= j < size ==>
          shreds[i].payload[j] == BufferColumn(Framed(data, k), k, size, j)[i])
    && exists polys :: |polys| == size && OnPolynomials(shreds, polys, k)
  }

  function Payloads(shreds: seq<Shred>): (rows: seq<Row>)
    ensures |rows| == |shreds| && forall i :: 0 <= i < |shreds| ==> rows[i] == shreds[i].payload
  {
    seq(|shreds|, i requires 0 <= i < |shreds| => shreds[i].payload)
  }

  /** What the wire sees: payloads of one length n, the least one for which k of them hold the length prefix
  and the data; the first k payloads joined are eight length bytes, the data, and zeros. */
  ghost predicate Layout(shreds: seq<Shred>, data: seq<Byte>, k: nat)
    requires 1 <= k <= |shreds|
  {
    var n, whole := |shreds[0].payload|, Flatten(Payloads(shreds[..k]));
    && (forall i :: 0 <= i < |shreds| ==> |shreds[i].payload| == n)
    && (n - 1) * k < 8 + |data| <= n * k
    && |whole| == n * k
    && whole[..8] == ToLe(|data|, 8)
    && whole[8..8 + |data|] == data
    && forall i :: 8 + |data| <= i < n * k ==> whole[i] == 0
  }

  /** The data shreds are the framed data, cut into equal parts. */
  lemma FlattenedData(rows: seq<Row>, buf: seq<Byte>, k: nat, size: nat)
    requires size >= 1 && |rows| == k && |buf| == size * k && forall i :: 0 <= i < k ==> |rows[i]| == size
    requires forall i, j :: 0 <= i < k && 0 <= j < size ==> rows[i][j] == BufferColumn(buf, k, size, j)[i]
    ensures Flatten(rows) == buf
  {
    FlattenAt(rows, size, 0, 0);
    forall j | 0 <= j < size ensures BufferColumn(Flatten(rows), k, size, j) == BufferColumn(buf, k, size, j) {
      forall c | 0 <= c < k ensures BufferColumn(Flatten(rows), k, size, j)[c] == BufferColumn(buf, k, size, j)[c] {
        FlattenAt(rows, size, c, j);
      }
    }
    BufferEqual(Flatten(rows), buf, k, size);
  }

  /** Every encoding has that layout. */
  lemma EncodingLayout(shreds: seq<Shred>, data: seq<Byte>, k: nat, m: nat)
    requires 1 <= k && k + m <= 256 && IsEncoding(shreds, data, k, m)
    ensures Layout(shreds, data, k)
  {
    hide Framed;
    hide ShardSize;
    hide OnPolynomials;
    hide Flatten;
    FlattenedData(Payloads(shreds[..k]), Framed(data, k), k, ShardSize(|data|, k));
    FramedParts(data, k);
  }

  lemma FramedParts(data: seq<Byte>, k: nat)
    requires k >= 1
    ensures var buf := Framed(data, k);
      && buf[..8] == ToLe(|data|, 8)
      && buf[8..8 + |data|] == data
      && forall i :: 8 + |data| <= i < |buf| ==> buf[i] == 0
  {
  }

  // ---------- the generator ----------

  function Vandermonde(k: nat, n: nat): (v: Matrix)
    requires n <= 256
    ensures IsMatrix(v, n, k) && forall r :: 0 <= r < n ==> v[r] == PowerRow(r, k)
  {
    seq(n, r requires 0 <= r < n => PowerRow(r, k))
  }

  /** G = V·T^-1 where T is the top block of V. */
  ghost predicate IsGenerator(g: Matrix, inv: Matrix, k: nat, m: nat)
    requires k + m <= 256
  {
    && IsMatrix(g, k + m, k)
    && IsLeftInverse(inv, Vandermonde(k, k), k)
    && IsLeftInverse(Vandermonde(k, k), inv, k)
    && forall r :: 0 <= r < k + m ==> g[r] == VecMat(PowerRow(r, k), inv, k)
  }

  lemma VandermondeRowsInjective(k: nat, rows: Matrix, idx: seq<Byte>)
    requires |rows| == |idx| == k && Distinct(idx)
    requires forall r :: 0 <= r < k ==> rows[r] == PowerRow(idx[r], k)
    ensures Injective(rows, k)
  {
    VandermondeInjective(rows, idx);
  }

  lemma TopInjective(k: nat)
    requires k <= 256
    ensures Injective(Vandermonde(k, k), k)
  {
    var idx: seq<Byte> := seq(k, r requires 0 <= r < k => r);
    VandermondeRowsInjective(k, Vandermonde(k, k), idx);
  }

  /** The first k rows of the generator are the identity. */
  lemma GeneratorSystematic(g: Matrix, inv: Matrix, k: nat, m: nat, r: nat)
    requires k + m <= 256 && IsGenerator(g, inv, k, m) && r < k
    ensures g[r] == Unit(k, r)
  {
    assert Vandermonde(k, k)[r] == PowerRow(r, k);
  }

  /** Row r of the generator applied to values at 0..k-1 gives the value at r. */
  lemma GeneratorEvaluates(g: Matrix, inv: Matrix, k: nat, m: nat, r: nat, d: Row)
    requires k + m <= 256 && IsGenerator(g, inv, k, m) && r < k + m && |d| == k
    ensures Dot(g[r], d, k) == Eval(MatVec(inv, d), r)
  {
    var p := MatVec(inv, d);
    MulVecAssoc(PowerRow(r, k), inv, d);
    EvalIsDot(p, r);
  }

  function ValuesBelow(p: Row): (d: Row)
    requires |p| <= 256
    ensures |d| == |p| && forall c :: 0 <= c < |p| ==> d[c] == Eval(p, c)
  {
    seq(|p|, c requires 0 <= c < |p| => Eval(p, c))
  }

  function SelectRows(g: Matrix, idx: seq<nat>): (sub: Matrix)
    requires forall i :: 0 <= i < |idx| ==> idx[i] < |g|
    ensures |sub| == |idx| && forall i :: 0 <= i < |idx| ==> sub[i] == g[idx[i]]
  {
    seq(|idx|, i requires 0 <= i < |idx| => g[idx[i]])
  }

  /** Any k distinct rows of the generator form an invertible matrix. */
  lemma AnyRowsInjective(g: Matrix, inv: Matrix, k: nat, m: nat, idx: seq<nat>)
    requires k + m <= 256 && IsGenerator(g, inv, k, m)
    requires |idx| == k && forall i :: 0 <= i < k ==> idx[i] < k + m
    requires forall i, j :: 0 <= i < j < k ==> idx[i] != idx[j]
    ensures Injective(SelectRows(g, idx), k)
  {
    var sub := SelectRows(g, idx);
    var points: seq<Byte> := seq(k, i requires 0 <= i < k => idx[i]);
    forall u: Row | |u| == k && Kills(sub, u) ensures !NonZero(u) {
      var p := MatVec(inv, u);
      forall i | 0 <= i < k ensures Eval(p, points[i]) == 0 {
        GeneratorEvaluates(g, inv, k, m, idx[i], u);
        assert Dot(sub[i], u, k) == 0;
      }
      RootBound(p, points);
      LeftInverseVec(Vandermonde(k, k), inv, k, u);
      forall r | 0 <= r < k ensures u[r] == 0 {
        DotZeroRight(Vandermonde(k, k)[r], p, k);
      }
    }
  }

  method VandermondeRow(t: Tables, x: Byte, k: nat) returns (row: Row)
    requires t.Valid()
    ensures row == PowerRow(x, k)
  {
    hide Pow;
    row := [];
    for c := 0 to k
      invariant |row| == c && forall i :: 0 <= i < c ==> row[i] == Pow(x, i)
    {
      var v := TablePow(t, x, c);
      row := row + [v];
    }
  }

  /** One row of a matrix product, accumulated entry by entry. */
  method RowTimes(t: Tables, u: Row, a: Matrix, cols: nat) returns (w: Row)
    requires t.Valid() && IsMatrix(a, |u|, cols)
    ensures w == VecMat(u, a, cols)
  {
    w := [];
    for c := 0 to cols
      invariant |w| == c && forall i :: 0 <= i < c ==> w[i] == Dot(u, Col(a, i), |u|)
    {
      var acc: Byte := 0;
      for i := 0 to |u|
        invariant acc == Dot(u, Col(a, c), i)
      {
        acc := Add(acc, t.Mul(u[i], a[i][c]));
      }
      w := w + [acc];
    }
  }

  method VandermondeRows(t: Tables, k: nat, n: nat) returns (v: Matrix)
    requires t.Valid() && n <= 256
    ensures v == Vandermonde(k, n)
  {
    v := [];
    for r := 0 to n
      invariant |v| == r && forall i :: 0 <= i < r ==> v[i] == PowerRow(i, k)
    {
      var row := VandermondeRow(t, r, k);
      v := v + [row];
    }
  }

  method Product(t: Tables, v: Matrix, a: Matrix, k: nat) returns (g: Matrix)
    requires t.Valid() && IsMatrix(v, |v|, k) && IsMatrix(a, k, k)
    ensures |g| == |v| && forall r :: 0 <= r < |v| ==> g[r] == VecMat(v[r], a, k)
  {
    g := [];
    for r := 0 to |v|
      invariant |g| == r && forall i :: 0 <= i < r ==> g[i] == VecMat(v[i], a, k)
    {
      var row := RowTimes(t, v[r], a, k);
      g := g + [row];
    }
  }

  /** The generator; its `None` branch is unreachable for k + m <= 256. */
  method Generator(t: Tables, k: nat, m: nat) returns (g: Matrix, ghost inv: Matrix)
    requires t.Valid() && 1 <= k && k + m <= 256
    ensures IsGenerator(g, inv, k, m)
    ensures |g| == k + m && forall r :: 0 <= r < k ==> g[r] == Unit(k, r)
  {
    var v := VandermondeRows(t, k, k + m);
    var top := v[..k];
    assert top == Vandermonde(k, k);
    TopInjective(k);
    var x := Invert(t, top);
    inv := x.value;
    g := Product(t, v, x.value, k);
    forall r | 0 <= r < k ensures g[r] == Unit(k, r) {
      GeneratorSystematic(g, inv, k, m, r);
    }
  }

  // ---------- encoding ----------

  /** Add coeff times data shard c to the parity bytes. */
  method AddShard(t: Tables, out: array<Byte>, row: Row, buf: seq<Byte>, k: nat, size: nat, c: nat)
    requires t.Valid() && |row| == k && |buf| == size * k && c < k && out.Length == size
    requires forall j :: 0 <= j < size ==> out[j] == Dot(row, BufferColumn(buf, k, size, j), c)
    modifies out
    ensures forall j :: 0 <= j < size ==> out[j] == Dot(row, BufferColumn(buf, k, size, j), c + 1)
  {
    for j := 0 to size
      invariant forall i :: 0 <= i < j ==> out[i] == Dot(row, BufferColumn(buf, k, size, i), c + 1)
      invariant forall i :: j <= i < size ==> out[i] == Dot(row, BufferColumn(buf, k, size, i), c)
    {
      ShardBounds(c, j, k, size);
      out[j] := Add(out[j], t.Mul(row[c], buf[c * size + j]));
    }
  }

  /** One parity shard: the generator row times the data shards, one shard at a time. */
  method Parity(t: Tables, row: Row, buf: seq<Byte>, k: nat, size: nat) returns (parity: seq<Byte>)
    requires t.Valid() && |row| == k && |buf| == size * k
    ensures |parity| == size
    ensures forall j :: 0 <= j < size ==> parity[j] == Dot(row, BufferColumn(buf, k, size, j), k)
  {
    var out := new Byte[size](_ => 0);
    for c := 0 to k
      invariant forall j :: 0 <= j < size ==> out[j] == Dot(row, BufferColumn(buf, k, size, j), c)
    {
      if row[c] == 0 {
        SkipZero(row, buf, k, size, c);
      } else {
        AddShard(t, out, row, buf, k, size, c);
      }
    }
    parity := out[..];
  }

  lemma SkipZero(row: Row, buf: seq<Byte>, k: nat, size: nat, c: nat)
    requires |row| == k && |buf| == size * k && c < k && row[c] == 0
    ensures forall j :: 0 <= j < size ==>
      Dot(row, BufferColumn(buf, k, size, j), c + 1) == Dot(row, BufferColumn(buf, k, size, j), c)
  {
    forall j | 0 <= j < size ensures
      Dot(row, BufferColumn(buf, k, size, j), c + 1) == Dot(row, BufferColumn(buf, k, size, j), c)
    {
      ZeroLaws(BufferColumn(buf, k, size, j)[c]);
      ZeroLaws(Dot(row, BufferColumn(buf, k, size, j), c));
    }
  }

  /** The polynomial of each byte column of the buffer. */
  ghost function ColumnPolynomials(inv: Matrix, buf: seq<Byte>, k: nat, size: nat): (polys: seq<Row>)
    requires IsMatrix(inv, k, k) && |buf| == size * k
    ensures |polys| == size
    ensures forall j :: 0 <= j < size ==> polys[j] == MatVec(inv, BufferColumn(buf, k, size, j))
  {
    seq(size, j requires 0 <= j < size => MatVec(inv, BufferColumn(buf, k, size, j)))
  }

  /** A data shred carries shard i of the buffer. */
  ghost predicate IsDataShred(s: Shred, slot: nat, i: nat, buf: seq<Byte>, k: nat, size: nat)
    requires |buf| == size * k && i < k
  {
    && s.slot == slot && s.index == i && s.kind == Data && |s.payload| == size
    && forall j :: 0 <= j < size ==> s.payload[j] == BufferColumn(buf, k, size, j)[i]
  }

  /** A coding shred carries one generator row applied to the buffer. */
  ghost predicate IsCodingShred(s: Shred, slot: nat, i: nat, row: Row, buf: seq<Byte>, k: nat, size: nat)
    requires |buf| == size * k && |row| == k
  {
    && s.slot == slot && s.index == i && s.kind == Coding && |s.payload| == size
    && forall j :: 0 <= j < size ==> s.payload[j] == Dot(row, BufferColumn(buf, k, size, j), k)
  }

  /** Shreds made with the generator are the values of polynomials. */
  lemma GeneratorEncodes(shreds: seq<Shred>, slot: nat, g: Matrix, inv: Matrix, data: seq<Byte>, k: nat, m: nat)
    requires 1 <= k && k + m <= 256 && IsGenerator(g, inv, k, m) && |shreds| == k + m
    requires forall i :: 0 <= i < k ==> IsDataShred(shreds[i], slot, i, Framed(data, k), k, ShardSize(|data|, k))
    requires forall i :: k <= i < k + m ==>
      IsCodingShred(shreds[i], slot, i, g[i], Framed(data, k), k, ShardSize(|data|, k))
    ensures IsEncoding(shreds, data, k, m)
  {
    var buf, size := Framed(data, k), ShardSize(|data|, k);
    var polys := ColumnPolynomials(inv, buf, k, size);
    forall i, j | 0 <= i < k + m && 0 <= j < size
      ensures |shreds[i].payload| == size && shreds[i].payload[j] == Eval(polys[j], i)
    {
      var d := BufferColumn(buf, k, size, j);
      GeneratorEvaluates(g, inv, k, m, i, d);
      if i < k {
        assert IsDataShred(shreds[i], slot, i, buf, k, size);
        GeneratorSystematic(g, inv, k, m, i);
        DotUnit(d, k, i);
      } else {
        assert IsCodingShred(shreds[i], slot, i, g[i], buf, k, size);
      }
    }
    assert OnPolynomials(shreds, polys, k);
  }

  // ---------- choosing survivors ----------

  /** The shreds by index: the first one wins and out-of-range indices are ignored. */
  function ByIndex(shreds: seq<Shred>, total: nat): (byIdx: map<nat, Shred>)
    ensures forall i :: i in byIdx ==> i < total && byIdx[i] in shreds && byIdx[i].index == i
    ensures forall s :: s in shreds && s.index < total ==> s.index in byIdx
  {
    if shreds == [] then map[]
    else
      var byIdx := ByIndex(shreds[..|shreds| - 1], total);
      var s := shreds[|shreds| - 1];
      if s.index < total && s.index !in byIdx then byIdx[s.index := s] else byIdx
  }

  /** The first k entries in ascending order of index, from index i on. */
  function Survivors(byIdx: map<nat, Shred>, i: nat, total: nat, k: nat): (sel: seq<Shred>)
    ensures |sel| <= k
    decreases total - i
  {
    if i >= total || k == 0 then []
    else if i in byIdx then [byIdx[i]] + Survivors(byIdx, i + 1, total, k - 1)
    else Survivors(byIdx, i + 1, total, k)
  }

  ghost function KeysFrom(byIdx: map<nat, Shred>, i: nat, total: nat): set<nat> {
    set x | x in byIdx && i <= x < total
  }

  ghost predicate Ascending(sel: seq<Shred>, byIdx: map<nat, Shred>, i: nat, total: nat) {
    && (forall r :: 0 <= r < |sel| ==> i <= sel[r].index < total)
    && (forall r :: 0 <= r < |sel| ==> sel[r].index in byIdx && sel[r] == byIdx[sel[r].index])
    && (forall r, s :: 0 <= r < s < |sel| ==> sel[r].index < sel[s].index)
  }

  lemma {:induction false} SurvivorsOrdered(byIdx: map<nat, Shred>, i: nat, total: nat, k: nat)
    requires forall x :: x in byIdx ==> byIdx[x].index == x
    ensures Ascending(Survivors(byIdx, i, total, k), byIdx, i, total)
    decreases total - i
  {
    if i < total && k != 0 {
      if i in byIdx {
        SurvivorsOrdered(byIdx, i + 1, total, k - 1);
        var rest := Survivors(byIdx, i + 1, total, k - 1);
        assert Ascending([byIdx[i]] + rest, byIdx, i, total);
      } else {
        SurvivorsOrdered(byIdx, i + 1, total, k);
      }
    }
  }

  lemma {:induction false} SurvivorsLength(byIdx: map<nat, Shred>, i: nat, total: nat, k: nat)
    ensures |Survivors(byIdx, i, total, k)| == if |KeysFrom(byIdx, i, total)| < k then |KeysFrom(byIdx, i, total)| else k
    decreases total - i
  {
    if i >= total {
      assert KeysFrom(byIdx, i, total) == {};
    } else if k != 0 {
      var rest := KeysFrom(byIdx, i + 1, total);
      if i in byIdx {
        assert KeysFrom(byIdx, i, total) == rest + {i};
        SurvivorsLength(byIdx, i + 1, total, k - 1);
      } else {
        assert KeysFrom(byIdx, i, total) == rest;
        SurvivorsLength(byIdx, i + 1, total, k);
      }
    }
  }

  ghost function Indices(shreds: seq<Shred>, total: nat): set<nat> {
    set s | s in shreds && s.index < total :: s.index
  }

  /** The survivors: k of them exactly when k distinct indices arrived. */
  lemma SurvivorsOf(shreds: seq<Shred>, total: nat, k: nat)
    ensures var sel := Survivors(ByIndex(shreds, total), 0, total, k);
      && (|sel| == k <==> |Indices(shreds, total)| >= k)
      && (forall r :: 0 <= r < |sel| ==> sel[r] in shreds && sel[r].index < total)
      && (forall r, s :: 0 <= r < s < |sel| ==> sel[r].index < sel[s].index)
  {
    var byIdx := ByIndex(shreds, total);
    SurvivorsOrdered(byIdx, 0, total, k);
    SurvivorsLength(byIdx, 0, total, k);
    assert KeysFrom(byIdx, 0, total) == Indices(shreds, total);
  }

  // ---------- decoding ----------

  ghost predicate Uniform(sel: seq<Shred>)
    requires |sel| >= 1
  {
    |sel[0].payload| > 0 && forall r :: 0 <= r < |sel| ==> |sel[r].payload| == |sel[0].payload|
  }

  /** The buffer holds the values at 0..k-1 of polynomials that run through the given shreds. */
  ghost predicate Explains(sel: seq<Shred>, buf: seq<Byte>, polys: seq<Row>, k: nat, size: nat) {
    && k <= 256
    && |buf| == size * k
    && |polys| == size
    && OnPolynomials(sel, polys, k)
    && forall j :: 0 <= j < size ==> ValuesBelow(polys[j]) == BufferColumn(buf, k, size, j)
  }

  function Unframe(buf: seq<Byte>): Decoded {
    if |buf| < 8 then Panicked
    else if FromLe(buf[..8]) > |buf| - 8 then Refused
    else Recovered(buf[8..8 + FromLe(buf[..8])])
  }

  /** What decoding returns for any shreds whatsoever. */
  ghost predicate DecodesTo(shreds: seq<Shred>, k: nat, m: nat, out: Decoded)
    requires 1 <= k && k + m <= 256
  {
    var sel := Survivors(ByIndex(shreds, k + m), 0, k + m, k);
    if |sel| < k || !Uniform(sel) then out == Refused
    else exists buf, polys :: Explains(sel, buf, polys, k, |sel[0].payload|) && out == Unframe(buf)
  }

  lemma EvalAdd(p: Row, q: Row, x: Byte)
    requires |p| == |q|
    ensures Eval(AddRows(p, q), x) == Add(Eval(p, x), Eval(q, x))
  {
    EvalIsDot(p, x);
    EvalIsDot(q, x);
    EvalIsDot(AddRows(p, q), x);
    DotAddRight(PowerRow(x, |p|), p, q);
  }

  /** Two polynomials with k coefficients that agree at k points are equal. */
  lemma PolynomialUnique(p: Row, q: Row, points: seq<Byte>)
    requires |p| == |q| == |points| && Distinct(points)
    requires forall i :: 0 <= i < |points| ==> Eval(p, points[i]) == Eval(q, points[i])
    ensures p == q
  {
    var d := AddRows(p, q);
    forall i | 0 <= i < |points| ensures Eval(d, points[i]) == 0 {
      EvalAdd(p, q, points[i]);
      AddSelf(Eval(p, points[i]));
    }
    RootBound(d, points);
    forall i | 0 <= i < |p| ensures p[i] == q[i] {
      assert d[i] == 0;
      AddIsZero(p[i], q[i]);
    }
  }

  lemma BufferEqual(a: seq<Byte>, b: seq<Byte>, k: nat, size: nat)
    requires size >= 1 && |a| == |b| == size * k
    requires forall j :: 0 <= j < size ==> BufferColumn(a, k, size, j) == BufferColumn(b, k, size, j)
    ensures a == b
  {
    forall n | 0 <= n < |a| ensures a[n] == b[n] {
      var c, j := n / size, n % size;
      assert n == c * size + j;
      assert c >= k ==> c * size >= k * size;
      assert BufferColumn(a, k, size, j)[c] == BufferColumn(b, k, size, j)[c];
    }
  }

  /** k distinct shreds of one encoding leave no choice for the buffer. */
  lemma ExplainedBuffer(enc: seq<Shred>, data: seq<Byte>, k: nat, m: nat,
                        sel: seq<Shred>, buf: seq<Byte>, polys: seq<Row>)
    requires 1 <= k && k + m <= 256 && IsEncoding(enc, data, k, m)
    requires |sel| == k && forall r :: 0 <= r < k ==> sel[r] in enc
    requires forall r, s :: 0 <= r < s < k ==> sel[r].index < sel[s].index
    requires Explains(sel, buf, polys, k, ShardSize(|data|, k))
    ensures buf == Framed(data, k)
  {
    var size := ShardSize(|data|, k);
    var truth :| |truth| == size && OnPolynomials(enc, truth, k);
    var points: seq<Byte> := seq(k, r requires 0 <= r < k => sel[r].index);
    forall j | 0 <= j < size
      ensures BufferColumn(buf, k, size, j) == BufferColumn(Framed(data, k), k, size, j)
    {
      forall r | 0 <= r < k ensures Eval(polys[j], points[r]) == Eval(truth[j], points[r]) {
        assert sel[r] == enc[sel[r].index];
      }
      PolynomialUnique(polys[j], truth[j], points);
      forall c | 0 <= c < k
        ensures BufferColumn(buf, k, size, j)[c] == BufferColumn(Framed(data, k), k, size, j)[c]
      {
        assert enc[c].payload[j] == Eval(truth[j], c);
      }
    }
    BufferEqual(buf, Framed(data, k), k, size);
  }

  lemma UnframeFramed(data: seq<Byte>, k: nat)
    requires k >= 1 && |data| < U64_LIMIT
    ensures Unframe(Framed(data, k)) == Recovered(data)
  {
    var buf := Framed(data, k);
    Widths();
    FromToLe(|data|, 8);
    assert buf[..8] == ToLe(|data|, 8);
    assert buf[8..8 + |data|] == data;
  }

  /** Any collection of shreds of one encoding, in any order and with repetitions, decodes to the
  original bytes when it holds at least k distinct indices and is refused otherwise. */
  lemma AnyKShredsSuffice(enc: seq<Shred>, data: seq<Byte>, k: nat, m: nat, shreds: seq<Shred>, out: Decoded)
    requires 1 <= k && k + m <= 256 && |data| < U64_LIMIT && IsEncoding(enc, data, k, m)
    requires forall s :: s in shreds ==> s in enc
    requires DecodesTo(shreds, k, m, out)
    ensures out == if |Indices(shreds, k + m)| >= k then Recovered(data) else Refused
  {
    hide Framed;
    hide OnPolynomials;
    SurvivorsOf(shreds, k + m, k);
    var sel := Survivors(ByIndex(shreds, k + m), 0, k + m, k);
    if |sel| == k {
      EncodedSizes(enc, data, k, m, sel);
      var buf, polys :| Explains(sel, buf, polys, k, ShardSize(|data|, k)) && out == Unframe(buf);
      ExplainedBuffer(enc, data, k, m, sel, buf, polys);
      UnframeFramed(data, k);
    }
  }

  lemma EncodedSizes(enc: seq<Shred>, data: seq<Byte>, k: nat, m: nat, sel: seq<Shred>)
    requires 1 <= k && k + m <= 256 && IsEncoding(enc, data, k, m)
    requires forall r :: 0 <= r < |sel| ==> sel[r] in enc
    ensures forall r :: 0 <= r < |sel| ==> |sel[r].payload| == ShardSize(|data|, k)
  {
  }

  function PayloadColumn(sel: seq<Shred>, j: nat): (y: Row)
    requires forall r :: 0 <= r < |sel| ==> j < |sel[r].payload|
    ensures |y| == |sel| && forall r :: 0 <= r < |sel| ==> y[r] == sel[r].payload[j]
  {
    seq(|sel|, r requires 0 <= r < |sel| => sel[r].payload[j])
  }

  /** The inverse of the surviving rows applied to the survivors, byte column by byte column. */
  ghost predicate Solves(x: Matrix, sel: seq<Shred>, buf: seq<Byte>, k: nat, size: nat) {
    && IsMatrix(x, k, k)
    && |sel| == k
    && |buf| == size * k
    && (forall r :: 0 <= r < k ==> |sel[r].payload| == size)
    && forall j :: 0 <= j < size ==> BufferColumn(buf, k, size, j) == MatVec(x, PayloadColumn(sel, j))
  }

  /** One byte column: d = x·y interpolates y. */
  lemma SolvedColumn(g: Matrix, inv: Matrix, k: nat, m: nat, idx: seq<nat>, x: Matrix, y: Row)
    requires k + m <= 256 && IsGenerator(g, inv, k, m)
    requires |idx| == |y| == k && forall r :: 0 <= r < k ==> idx[r] < k + m
    requires IsLeftInverse(SelectRows(g, idx), x, k)
    ensures var d := MatVec(x, y);
      var p := MatVec(inv, d);
      ValuesBelow(p) == d && forall r :: 0 <= r < k ==> y[r] == Eval(p, idx[r])
  {
    hide Eval;
    hide Dot;
    hide Vandermonde;
    hide Unit;
    var sub := SelectRows(g, idx);
    var d := MatVec(x, y);
    var p := MatVec(inv, d);
    LeftInverseVec(sub, x, k, y);
    forall r | 0 <= r < k ensures y[r] == Eval(p, idx[r]) {
      GeneratorEvaluates(g, inv, k, m, idx[r], d);
      assert MatVec(sub, d)[r] == y[r];
    }
    forall c | 0 <= c < k ensures ValuesBelow(p)[c] == d[c] {
      GeneratorEvaluates(g, inv, k, m, c, d);
      GeneratorSystematic(g, inv, k, m, c);
      DotUnit(d, k, c);
    }
  }

  /** Solving by the inverse of the surviving generator rows finds the interpolating polynomials. */
  lemma SolvedExplains(g: Matrix, inv: Matrix, k: nat, m: nat, sel: seq<Shred>, idx: seq<nat>,
                       x: Matrix, buf: seq<Byte>, size: nat)
    requires k + m <= 256 && IsGenerator(g, inv, k, m)
    requires |sel| == |idx| == k && forall r :: 0 <= r < k ==> sel[r].index == idx[r] < k + m
    requires IsLeftInverse(SelectRows(g, idx), x, k)
    requires Solves(x, sel, buf, k, size)
    ensures Explains(sel, buf, ColumnPolynomials(inv, buf, k, size), k, size)
  {
    var polys := ColumnPolynomials(inv, buf, k, size);
    hide IsGenerator;
    hide IsLeftInverse;
    forall j | 0 <= j < size
      ensures ValuesBelow(polys[j]) == BufferColumn(buf, k, size, j)
      ensures forall r :: 0 <= r < k ==> sel[r].payload[j] == Eval(polys[j], sel[r].index)
    {
      SolvedColumn(g, inv, k, m, idx, x, PayloadColumn(sel, j));
    }
  }

  method DataShreds(slot: nat, buf: seq<Byte>, k: nat, size: nat) returns (shreds: seq<Shred>)
    requires |buf| == size * k && size >= 1
    ensures |shreds| == k && forall i :: 0 <= i < k ==> IsDataShred(shreds[i], slot, i, buf, k, size)
  {
    shreds := [];
    for i := 0 to k
      invariant |shreds| == i
      invariant forall r :: 0 <= r < i ==> IsDataShred(shreds[r], slot, r, buf, k, size)
    {
      ShardBounds(i, 0, k, size);
      var s := Shred(slot, i, Data, buf[i * size..i * size + size]);
      assert IsDataShred(s, slot, i, buf, k, size);
      shreds := shreds + [s];
    }
  }

  method CodingShreds(t: Tables, slot: nat, g: Matrix, buf: seq<Byte>, k: nat, m: nat, size: nat)
    returns (shreds: seq<Shred>)
    requires t.Valid() && IsMatrix(g, k + m, k) && |buf| == size * k
    ensures |shreds| == m
    ensures forall p :: 0 <= p < m ==> IsCodingShred(shreds[p], slot, k + p, g[k + p], buf, k, size)
  {
    shreds := [];
    for p := 0 to m
      invariant |shreds| == p
      invariant forall i :: 0 <= i < p ==> IsCodingShred(shreds[i], slot, k + i, g[k + i], buf, k, size)
    {
      var parity := Parity(t, g[k + p], buf, k, size);
      shreds := shreds + [Shred(slot, k + p, Coding, parity)];
    }
  }

  /** Data shreds followed by coding shreds are an encoding. */
  lemma EncodedShreds(plain: seq<Shred>, coding: seq<Shred>, slot: nat, g: Matrix, inv: Matrix, data: seq<Byte>,
                      k: nat, m: nat)
    requires 1 <= k && k + m <= 256 && IsGenerator(g, inv, k, m) && |plain| == k && |coding| == m
    requires forall i :: 0 <= i < k ==> IsDataShred(plain[i], slot, i, Framed(data, k), k, ShardSize(|data|, k))
    requires forall p :: 0 <= p < m ==>
      IsCodingShred(coding[p], slot, k + p, g[k + p], Framed(data, k), k, ShardSize(|data|, k))
    ensures IsEncoding(plain + coding, data, k, m)
    ensures forall i :: 0 <= i < k + m ==> (plain + coding)[i].slot == slot
    ensures forall i :: 0 <= i < k + m ==> (plain + coding)[i].kind == if i < k then Data else Coding
  {
    var shreds := plain + coding;
    forall i | k <= i < k + m
      ensures IsCodingShred(shreds[i], slot, i, g[i], Framed(data, k), k, ShardSize(|data|, k))
    {
      assert shreds[i] == coding[i - k] && k + (i - k) == i;
    }
    GeneratorEncodes(shreds, slot, g, inv, data, k, m);
    hide IsEncoding;
    hide Framed;
  }

  class Coder {
    const k: nat
    const m: nat
    const t: Tables

    ghost predicate Valid() {
      1 <= k && k + m <= 256 && t.Valid()
    }

    constructor (dataShards: nat, parityShards: nat)
      requires 1 <= dataShards && dataShards + parityShards <= 256
      ensures Valid() && k == dataShards && m == parityShards
    {
      var tables := BuildTables();
      k, m, t := dataShards, parityShards, tables;
    }

    /** Split the framed data into k data shreds and add m parity shreds. */
    method Encode(data: seq<Byte>, slot: nat) returns (shreds: seq<Shred>)
      requires Valid() && |data| < U64_LIMIT
      ensures IsEncoding(shreds, data, k, m) && Layout(shreds, data, k)
      ensures forall i :: 0 <= i < k + m ==> shreds[i].slot == slot
      ensures forall i :: 0 <= i < k + m ==> shreds[i].kind == if i < k then Data else Coding
    {
      hide IsEncoding;
      hide Layout;
      hide IsDataShred;
      hide IsCodingShred;
      hide Vandermonde;
      hide Unit;
      var size := ShardSize(|data|, k);
      var buf := Framed(data, k);
      hide Framed;
      var g, inv := Generator(t, k, m);
      var coding := CodingShreds(t, slot, g, buf, k, m, size);
      var plain := DataShreds(slot, buf, k, size);
      shreds := plain + coding;
      EncodedShreds(plain, coding, slot, g, inv, data, k, m);
      EncodingLayout(shreds, data, k, m);
    }

    /** Recover the data from any shreds. */
    method Decode(shreds: seq<Shred>) returns (out: Decoded)
      requires Valid()
      ensures DecodesTo(shreds, k, m, out)
    {
      hide DecodesTo;
      hide Explains;
      hide Unframe;
      hide ByIndex;
      hide Survivors;
      var byIdx := Deduplicate(shreds, k + m);
      SurvivorsOf(shreds, k + m, k);
      var selected := Survivors(byIdx, 0, k + m, k);
      if |selected| < k {
        RefusalDecodes(shreds, k, m, selected);
        return Refused;
      }
      var uniform := HasUniformSize(selected);
      if !uniform {
        RefusalDecodes(shreds, k, m, selected);
        return Refused;
      }
      var buf, polys := Solve(selected, |selected[0].payload|);
      out := Strip(buf);
      ExplainedDecodes(shreds, k, m, selected, buf, polys);
    }

    /** Invert the surviving generator rows and apply the inverse to every byte column. */
    method Solve(sel: seq<Shred>, size: nat) returns (buf: seq<Byte>, ghost polys: seq<Row>)
      requires Valid() && |sel| == k && size >= 1
      requires forall r :: 0 <= r < k ==> |sel[r].payload| == size && sel[r].index < k + m
      requires forall r, s :: 0 <= r < s < k ==> sel[r].index < sel[s].index
      ensures Explains(sel, buf, polys, k, size)
    {
      var g, inv := Generator(t, k, m);
      var idx := seq(k, r requires 0 <= r < k => sel[r].index);
      var sub := SelectRows(g, idx);
      AnyRowsInjective(g, inv, k, m, idx);
      var x := Invert(t, sub);
      buf := ApplyInverse(t, x.value, sel, k, size);
      SolvedExplains(g, inv, k, m, sel, idx, x.value, buf, size);
      polys := ColumnPolynomials(inv, buf, k, size);
    }
  }

  lemma RefusalDecodes(shreds: seq<Shred>, k: nat, m: nat, sel: seq<Shred>)
    requires 1 <= k && k + m <= 256 && sel == Survivors(ByIndex(shreds, k + m), 0, k + m, k)
    requires |sel| < k || !Uniform(sel)
    ensures DecodesTo(shreds, k, m, Refused)
  {
  }

  lemma ExplainedDecodes(shreds: seq<Shred>, k: nat, m: nat, sel: seq<Shred>, buf: seq<Byte>, polys: seq<Row>)
    requires 1 <= k && k + m <= 256
    requires sel == Survivors(ByIndex(shreds, k + m), 0, k + m, k) && |sel| == k && Uniform(sel)
    requires Explains(sel, buf, polys, k, |sel[0].payload|)
    ensures DecodesTo(shreds, k, m, Unframe(buf))
  {
  }

  /** Decoding slices out of range, instead of refusing, exactly on full sets of shreds so short
  that they cannot hold the length prefix. */
  lemma DecodePanicsExactly(shreds: seq<Shred>, k: nat, m: nat, out: Decoded)
    requires 1 <= k && k + m <= 256 && DecodesTo(shreds, k, m, out)
    ensures var sel := Survivors(ByIndex(shreds, k + m), 0, k + m, k);
      out == Panicked <==> |sel| == k && Uniform(sel) && |sel[0].payload| * k < 8
  {
  }

  /** One one-byte shred of a (1, 0) coder is such a set. */
  lemma DecodeCanPanic(out: Decoded)
    requires DecodesTo([Shred(0, 0, Data, [0])], 1, 0, out)
    ensures out == Panicked
  {
    var s := Shred(0, 0, Data, [0]);
    assert ByIndex([s], 1) == map[0 := s] by {
      assert [s][..0] == [];
    }
    assert Survivors(map[0 := s], 0, 1, 1) == [s];
  }

  method HasUniformSize(sel: seq<Shred>) returns (ok: bool)
    requires |sel| >= 1
    ensures ok <==> Uniform(sel)
  {
    var size := |sel[0].payload|;
    if size == 0 {
      return false;
    }
    for r := 0 to |sel|
      invariant forall i :: 0 <= i < r ==> |sel[i].payload| == size
    {
      if |sel[r].payload| != size {
        return false;
      }
    }
    return true;
  }

  method Deduplicate(shreds: seq<Shred>, total: nat) returns (byIdx: map<nat, Shred>)
    ensures byIdx == ByIndex(shreds, total)
  {
    byIdx := map[];
    for i := 0 to |shreds|
      invariant byIdx == ByIndex(shreds[..i], total)
    {
      assert shreds[..i + 1][..i] == shreds[..i];
      if shreds[i].index < total && shreds[i].index !in byIdx {
        byIdx := byIdx[shreds[i].index := shreds[i]];
      }
    }
    assert shreds[..|shreds|] == shreds;
  }

  /** Strip the length prefix and the padding. */
  method Strip(buf: seq<Byte>) returns (out: Decoded)
    ensures out == Unframe(buf)
  {
    if |buf| < 8 {
      return Panicked;
    }
    var originalLen := FromLe(buf[..8]);
    var capacity := |buf| - 8;
    if originalLen > capacity {
      return Refused;
    }
    return Recovered(buf[8..8 + originalLen]);
  }

  function Flatten(rows: seq<Row>): Row {
    if rows == [] then [] else Flatten(rows[..|rows| - 1]) + rows[|rows| - 1]
  }

  lemma {:induction false} FlattenAt(rows: seq<Row>, size: nat, i: nat, j: nat)
    requires forall r :: 0 <= r < |rows| ==> |rows[r]| == size
    ensures |Flatten(rows)| == size * |rows|
    ensures i < |rows| && j < size ==> (
      ShardBounds(i, j, |rows|, size); Flatten(rows)[i * size + j] == rows[i][j])
  {
    if rows != [] {
      var n := |rows| - 1;
      FlattenAt(rows[..n], size, i, j);
      FlattenLast(size, n, i, j);
    }
  }

  lemma FlattenLast(size: nat, n: nat, i: nat, j: nat)
    ensures size * n + size == size * (n + 1)
    ensures i < n && j < size ==> i * size + j < size * n
    ensures i == n ==> i * size + j == size * n + j
  {
    if i < n && j < size {
      ShardBounds(i, j, n, size);
    }
  }

  method SolveRow(t: Tables, row: Row, sel: seq<Shred>, size: nat) returns (out: Row)
    requires t.Valid() && |row| == |sel|
    requires forall r :: 0 <= r < |sel| ==> |sel[r].payload| == size
    ensures |out| == size && forall j :: 0 <= j < size ==> out[j] == Dot(row, PayloadColumn(sel, j), |sel|)
  {
    out := [];
    for j := 0 to size
      invariant |out| == j && forall i :: 0 <= i < j ==> out[i] == Dot(row, PayloadColumn(sel, i), |sel|)
    {
      var acc: Byte := 0;
      for r := 0 to |sel|
        invariant acc == Dot(row, PayloadColumn(sel, j), r)
      {
        acc := Add(acc, t.Mul(row[r], sel[r].payload[j]));
      }
      out := out + [acc];
    }
  }

  method ApplyInverse(t: Tables, x: Matrix, sel: seq<Shred>, k: nat, size: nat) returns (buf: seq<Byte>)
    requires t.Valid() && IsMatrix(x, k, k) && |sel| == k
    requires forall r :: 0 <= r < k ==> |sel[r].payload| == size
    ensures Solves(x, sel, buf, k, size)
  {
    buf := [];
    ghost var rows: seq<Row> := [];
    for c := 0 to k
      invariant |rows| == c && buf == Flatten(rows)
      invariant forall i :: 0 <= i < c ==> |rows[i]| == size
      invariant forall i, j :: 0 <= i < c && 0 <= j < size ==> rows[i][j] == Dot(x[i], PayloadColumn(sel, j), k)
    {
      var row := SolveRow(t, x[c], sel, size);
      rows := rows + [row];
      assert rows[..c] + [row] == rows;
      buf := buf + row;
    }
    SolvedRows(x, sel, buf, rows, k, size);
  }

  lemma SolvedRows(x: Matrix, sel: seq<Shred>, buf: seq<Byte>, rows: seq<Row>, k: nat, size: nat)
    requires IsMatrix(x, k, k) && |sel| == |rows| == k && buf == Flatten(rows)
    requires forall r :: 0 <= r < k ==> |sel[r].payload| == size && |rows[r]| == size
    requires forall i, j :: 0 <= i < k && 0 <= j < size ==> rows[i][j] == Dot(x[i], PayloadColumn(sel, j), k)
    ensures Solves(x, sel, buf, k, size)
  {
    FlattenAt(rows, size, 0, 0);
    forall j | 0 <= j < size
      ensures BufferColumn(buf, k, size, j) == MatVec(x, PayloadColumn(sel, j))
    {
      forall c | 0 <= c < k ensures BufferColumn(buf, k, size, j)[c] == MatVec(x, PayloadColumn(sel, j))[c] {
        FlattenAt(rows, size, c, j);
      }
    }
  }
}
