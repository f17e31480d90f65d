/** Bytes and fixed-width little-endian integers, the length prefixes of every wire and log format. */
module Bytes {
  type Byte = b: int | 0 <= b < 256

  type U64 = n: int | 0 <= n < U64_LIMIT

  function Pow2(n: nat): nat { if n == 0 then 1 else 2 * Pow2(n - 1) }

  function Pow256(w: nat): nat { if w == 0 then 1 else 256 * Pow256(w - 1) }

  const U32_LIMIT: nat := 0x1_0000_0000
  const U64_LIMIT: nat := 0x1_0000_0000_0000_0000

  /** The low w bytes of n. */
  function ToLe(n: nat, w: nat): (s: seq<Byte>)
    ensures |s| == w
  {
    if w == 0 then [] else [n % 256] + ToLe(n / 256, w - 1)
  }

  function FromLe(s: seq<Byte>): nat {
    if s == [] then 0 else s[0] + 256 * FromLe(s[1..])
  }

  lemma {:induction false} FromToLe(n: nat, w: nat)
    requires n < Pow256(w)
    ensures FromLe(ToLe(n, w)) == n
  {
    if w != 0 {
      FromToLe(n / 256, w - 1);
      assert ToLe(n, w)[1..] == ToLe(n / 256, w - 1);
    }
  }

  lemma SmallMultiple(x: int, b: int)
    requires -b < x * b < b
    ensures x == 0
  {
    assert x >= 1 ==> (x - 1) * b >= 0;
    assert x <= -1 ==> (-x - 1) * b >= 0;
  }

  lemma DivUnique(a: int, b: int, q: int, r: int)
    requires b > 0 && a == q * b + r && 0 <= r < b
    ensures a / b == q
  {
    var q', r' := a / b, a % b;
    assert a == q' * b + r';
    assert (q - q') * b == q * b - q' * b;
    SmallMultiple(q - q', b);
  }

  lemma DivDiv(n: nat, d: nat)
    requires d > 0
    ensures n / 256 / d == n / (256 * d)
  {
    var q := n / 256;
    var p, t := q / d, q % d;
    assert q == p * d + t && n == 256 * q + n % 256;
    assert p * (256 * d) == 256 * (p * d);
    DivUnique(n, 256 * d, p, 256 * t + n % 256);
  }

  lemma {:induction false} Pow256Positive(w: nat)
    ensures Pow256(w) > 0
  {
    if w > 0 { Pow256Positive(w - 1); }
  }

  /** The least significant byte comes first. */
  lemma {:induction false} ToLeDigits(n: nat, w: nat, i: nat)
    requires i < w
    ensures Pow256(i) > 0 && ToLe(n, w)[i] == n / Pow256(i) % 256
  {
    Pow256Positive(i);
    if i > 0 {
      ToLeDigits(n / 256, w - 1, i - 1);
      DivDiv(n, Pow256(i - 1));
    }
  }

  lemma LowByte(b: Byte, n: nat)
    ensures (b + 256 * n) % 256 == b && (b + 256 * n) / 256 == n
  {
  }

  lemma {:induction false} ToFromLe(s: seq<Byte>)
    ensures ToLe(FromLe(s), |s|) == s
  {
    if s != [] {
      var n := FromLe(s[1..]);
      ToFromLe(s[1..]);
      LowByte(s[0], n);
      assert ToLe(s[0] + 256 * n, |s|) == [s[0]] + ToLe(n, |s| - 1);
    }
  }

  lemma {:induction false} FromLeBound(s: seq<Byte>)
    ensures FromLe(s) < Pow256(|s|)
  {
    if s != [] {
      FromLeBound(s[1..]);
    }
  }

  lemma Widths()
    ensures Pow256(4) == U32_LIMIT && Pow256(8) == U64_LIMIT
  {
    assert Pow256(2) == 0x1_0000;
    assert Pow256(4) == U32_LIMIT;
    assert Pow256(6) == 0x1_0000_0000_0000;
  }

  // ---------- 64-bit sums ----------

  function Sat(n: nat): U64 { if n < U64_LIMIT then n else U64_LIMIT - 1 }

  function Wrap(n: nat): U64 { n % U64_LIMIT }

  lemma WrapSmall(n: nat)
    requires n < U64_LIMIT
    ensures Wrap(n) == n
  {
  }

  lemma WrapOver(n: nat)
    requires U64_LIMIT <= n < 2 * U64_LIMIT
    ensures Wrap(n) == n - U64_LIMIT
  {
  }

  lemma WrapAdd(a: nat, b: nat)
    ensures Wrap(Wrap(a) + b) == Wrap(a + b)
  {
  }
}
