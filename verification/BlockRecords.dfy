/** Block records and the hash that chains them.

SHA-256, the JSON codec and the hash of a transaction are values of type Codec: any functions of the
right shape, with what a law needs of them stated where it is needed. */
module BlockRecords {
  import opened Bytes
  import opened Wrappers

  const HASH_LEN := 32

  type Digest = d: seq<Byte> | |d| == HASH_LEN witness seq(HASH_LEN, i => 0)

  /** A packed transaction; only its hash and its encoding are ever used. */
  type Packed = nat

  datatype Record = Record(slot: U64, height: U64, parentHash: Digest, blockHash: Digest, pohHash: Digest,
                           stateRoot: Digest, entryCount: U64, txCount: U64, transactions: seq<Packed>,
                           timestamp: U64)

  datatype Codec = Codec(encode: Record -> seq<Byte>, decode: seq<Byte> -> Option<Record>,
                         sha: seq<Byte> -> Digest, txHash: Packed -> Digest)

  const GENESIS_PARENT: Digest := seq(HASH_LEN, i => 0)

  function TxHashes(c: Codec, txs: seq<Packed>): (s: seq<Byte>)
    ensures |s| == HASH_LEN * |txs|
  {
    if txs == [] then [] else c.txHash(txs[0]) + TxHashes(c, txs[1..])
  }

  /** What the block hash covers; the timestamp is not part of it. */
  function Preimage(c: Codec, r: Record): seq<Byte> {
    r.parentHash + ToLe(r.slot, 8) + ToLe(r.height, 8) + r.pohHash + ToLe(r.entryCount, 8) + ToLe(r.txCount, 8) +
    r.stateRoot + TxHashes(c, r.transactions)
  }

  predicate Verifies(c: Codec, r: Record) {
    r.blockHash == c.sha(Preimage(c, r))
  }

  function NewRecord(c: Codec, parentHash: Digest, slot: U64, height: U64, pohHash: Digest, entryCount: U64,
                     stateRoot: Digest, transactions: seq<Packed>, now: U64): Record
    requires |transactions| < U64_LIMIT
  {
    var r := Record(slot, height, parentHash, GENESIS_PARENT, pohHash, stateRoot, entryCount, |transactions|,
                    transactions, now);
    r.(blockHash := c.sha(Preimage(c, r)))
  }

  /** The fields every honest node has to agree on. */
  predicate SameContents(q: Record, r: Record) {
    q.(timestamp := 0) == r.(timestamp := 0)
  }

  // ---------- chains ----------

  predicate ChainFrom(c: Codec, rs: seq<Record>, parent: Digest) {
    rs == [] || (rs[0].parentHash == parent && Verifies(c, rs[0]) && ChainFrom(c, rs[1..], rs[0].blockHash))
  }

  function Tip(rs: seq<Record>, parent: Digest): Digest {
    if rs == [] then parent else rs[|rs| - 1].blockHash
  }

  lemma {:induction false} ChainAppend(c: Codec, rs: seq<Record>, parent: Digest, r: Record)
    requires ChainFrom(c, rs, parent)
    ensures ChainFrom(c, rs + [r], parent) <==> (r.parentHash == Tip(rs, parent) && Verifies(c, r))
  {
    if rs != [] {
      ChainAppend(c, rs[1..], rs[0].blockHash, r);
      assert (rs + [r])[1..] == rs[1..] + [r];
    } else {
      assert (rs + [r])[1..] == [];
    }
  }

  // ---------- what a hash commits to ----------

  /** Two different transactions in the same place have one hash. */
  predicate TxClash(c: Codec, a: seq<Packed>, b: seq<Packed>) {
    exists i :: 0 <= i < |a| && i < |b| && a[i] != b[i] && c.txHash(a[i]) == c.txHash(b[i])
  }

  /** Two records exhibit a collision: different hashed bytes with one digest, or a transaction clash. */
  predicate Clash(c: Codec, q: Record, r: Record) {
    || (Preimage(c, q) != Preimage(c, r) && c.sha(Preimage(c, q)) == c.sha(Preimage(c, r)))
    || TxClash(c, q.transactions, r.transactions)
  }

  lemma LeInjective(m: U64, n: U64)
    requires ToLe(m, 8) == ToLe(n, 8)
    ensures m == n
  {
    Widths();
    FromToLe(m, 8);
    FromToLe(n, 8);
  }

  /** Equal concatenations whose first parts have one length have equal parts. */
  lemma SplitEqual(a: seq<Byte>, b: seq<Byte>, x: seq<Byte>, y: seq<Byte>)
    requires |a| == |b| && a + x == b + y
    ensures a == b && x == y
  {
    assert a == (a + x)[..|a|] && b == (b + y)[..|b|];
    assert x == (a + x)[|a|..] && y == (b + y)[|b|..];
  }

  lemma {:induction false} TxHashesCommit(c: Codec, a: seq<Packed>, b: seq<Packed>)
    requires TxHashes(c, a) == TxHashes(c, b)
    ensures a == b || TxClash(c, a, b)
  {
    if a != [] && b != [] {
      SplitEqual(c.txHash(a[0]), c.txHash(b[0]), TxHashes(c, a[1..]), TxHashes(c, b[1..]));
      TxHashesCommit(c, a[1..], b[1..]);
      if TxClash(c, a[1..], b[1..]) {
        var i :| 0 <= i < |a| - 1 && i < |b| - 1 && a[1..][i] != b[1..][i] && c.txHash(a[1..][i]) == c.txHash(b[1..][i]);
        assert a[i + 1] != b[i + 1] && c.txHash(a[i + 1]) == c.txHash(b[i + 1]);
      } else {
        assert a == [a[0]] + a[1..] && b == [b[0]] + b[1..];
        assert a[0] == b[0] || TxClash(c, a, b);
      }
    }
  }

  lemma {:induction false} TxHashAt(c: Codec, txs: seq<Packed>, i: nat)
    requires i < |txs|
    ensures TxHashes(c, txs)[HASH_LEN * i..HASH_LEN * i + HASH_LEN] == c.txHash(txs[i])
  {
    var rest := TxHashes(c, txs[1..]);
    if i > 0 {
      TxHashAt(c, txs[1..], i - 1);
      assert HASH_LEN * i == HASH_LEN + HASH_LEN * (i - 1);
      assert (c.txHash(txs[0]) + rest)[HASH_LEN * i..HASH_LEN * i + HASH_LEN] ==
             rest[HASH_LEN * (i - 1)..HASH_LEN * (i - 1) + HASH_LEN];
    }
  }

  /** Where every field lies in the hashed bytes: nothing else, the timestamp included, is among them. */
  lemma PreimageLayout(c: Codec, r: Record)
    ensures var p := Preimage(c, r);
      && |p| == 128 + 32 * |r.transactions|
      && p[..32] == r.parentHash
      && p[32..40] == ToLe(r.slot, 8)
      && p[40..48] == ToLe(r.height, 8)
      && p[48..80] == r.pohHash
      && p[80..88] == ToLe(r.entryCount, 8)
      && p[88..96] == ToLe(r.txCount, 8)
      && p[96..128] == r.stateRoot
      && forall i :: 0 <= i < |r.transactions| ==> TxSlice(p, i) == c.txHash(r.transactions[i])
  {
    hide ToLe;
    var p, hs := Preimage(c, r), TxHashes(c, r.transactions);
    hide TxHashes;
    assert p[128..] == hs;
    forall i: nat | i < |r.transactions| ensures TxSlice(p, i) == c.txHash(r.transactions[i]) {
      TxHashAt(c, r.transactions, i);
      assert p[128 + 32 * i..160 + 32 * i] == p[128..][32 * i..32 * i + 32];
    }
  }

  function TxSlice(p: seq<Byte>, i: nat): seq<Byte> {
    if |p| >= 160 + 32 * i then p[128 + 32 * i..160 + 32 * i] else []
  }

  /** The hashed bytes determine every field but the hash itself and the timestamp, or two of the
  transactions collide. */
  lemma PreimageCommits(c: Codec, q: Record, r: Record)
    requires Preimage(c, q) == Preimage(c, r)
    ensures q.(blockHash := r.blockHash, timestamp := r.timestamp) == r || TxClash(c, q.transactions, r.transactions)
  {
    hide TxClash;
    hide TxHashes;
    hide ToLe;
    var q6, r6 := TxHashes(c, q.transactions), TxHashes(c, r.transactions);
    var q5, r5 := q.stateRoot + q6, r.stateRoot + r6;
    var q4, r4 := ToLe(q.txCount, 8) + q5, ToLe(r.txCount, 8) + r5;
    var q3, r3 := ToLe(q.entryCount, 8) + q4, ToLe(r.entryCount, 8) + r4;
    var q2, r2 := q.pohHash + q3, r.pohHash + r3;
    var q1, r1 := ToLe(q.height, 8) + q2, ToLe(r.height, 8) + r2;
    var q0, r0 := ToLe(q.slot, 8) + q1, ToLe(r.slot, 8) + r1;
    assert Preimage(c, q) == q.parentHash + q0 && Preimage(c, r) == r.parentHash + r0;
    SplitEqual(q.parentHash, r.parentHash, q0, r0);
    SplitEqual(ToLe(q.slot, 8), ToLe(r.slot, 8), q1, r1);
    SplitEqual(ToLe(q.height, 8), ToLe(r.height, 8), q2, r2);
    SplitEqual(q.pohHash, r.pohHash, q3, r3);
    SplitEqual(ToLe(q.entryCount, 8), ToLe(r.entryCount, 8), q4, r4);
    SplitEqual(ToLe(q.txCount, 8), ToLe(r.txCount, 8), q5, r5);
    SplitEqual(q.stateRoot, r.stateRoot, q6, r6);
    TxHashesCommit(c, q.transactions, r.transactions);
    LeInjective(q.slot, r.slot);
    LeInjective(q.height, r.height);
    LeInjective(q.entryCount, r.entryCount);
    LeInjective(q.txCount, r.txCount);
  }

  /** A block hash commits to the whole history before it: two chains of one length ending in the same
  hash agree in every block, timestamps aside, or two of their blocks at one height exhibit a
  collision. */
  lemma {:induction false} TipCommitsToHistory(c: Codec, a: seq<Record>, b: seq<Record>, parent: Digest)
    requires ChainFrom(c, a, parent) && ChainFrom(c, b, parent)
    requires |a| == |b| && Tip(a, parent) == Tip(b, parent)
    ensures || (forall i :: 0 <= i < |a| ==> SameContents(a[i], b[i]))
            || (exists i :: 0 <= i < |a| && Clash(c, a[i], b[i]))
  {
    hide ChainFrom;
    hide Preimage;
    hide TxClash;
    if a != [] {
      var n := |a| - 1;
      ChainLast(c, a, parent);
      ChainLast(c, b, parent);
      if !Clash(c, a[n], b[n]) {
        PreimageCommits(c, a[n], b[n]);
        TipCommitsToHistory(c, a[..n], b[..n], parent);
        assert forall i :: 0 <= i < n ==> a[i] == a[..n][i] && b[i] == b[..n][i];
      }
    }
  }

  lemma {:induction false} ChainLast(c: Codec, rs: seq<Record>, parent: Digest)
    requires rs != [] && ChainFrom(c, rs, parent)
    ensures var n := |rs| - 1;
      ChainFrom(c, rs[..n], parent) && rs[n].parentHash == Tip(rs[..n], parent) && Verifies(c, rs[n])
  {
    if |rs| > 1 {
      var n := |rs| - 1;
      ChainLast(c, rs[1..], rs[0].blockHash);
      assert rs[1..][..n - 1] == rs[..n][1..];
    }
  }
}
