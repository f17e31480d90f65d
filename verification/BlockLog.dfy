/** The framed block log: what replaying any sequence of bytes yields. */
module BlockLog {
  import opened Bytes
  import opened Wrappers
  import opened BlockRecords

  const MAGIC: seq<Byte> := [84, 78, 66, 76]
  const MAX_FRAME_PAYLOAD := 16 * 1024 * 1024
  const HEADER_LEN := 8

  function Frame(c: Codec, r: Record): (f: seq<Byte>)
    ensures |f| == HEADER_LEN + |c.encode(r)| + HASH_LEN
  {
    var payload := c.encode(r);
    MAGIC + ToLe(|payload|, 4) + payload + c.sha(payload)
  }

  function LogOf(c: Codec, rs: seq<Record>): seq<Byte> {
    if rs == [] then [] else Frame(c, rs[0]) + LogOf(c, rs[1..])
  }

  /** The record whose frame begins the bytes, and the length of that frame. */
  function ParseFrame(c: Codec, b: seq<Byte>): (p: Option<(Record, nat)>)
    ensures p.Some? ==> 0 < p.value.1 <= |b|
  {
    if |b| < HEADER_LEN || b[..4] != MAGIC then None
    else
      var n := FromLe(b[4..8]);
      if n == 0 || n > MAX_FRAME_PAYLOAD || |b| < HEADER_LEN + n + HASH_LEN then None
      else
        var payload := b[HEADER_LEN..HEADER_LEN + n];
        if c.sha(payload) != b[HEADER_LEN + n..HEADER_LEN + n + HASH_LEN] then None
        else
          var r := c.decode(payload);
          if r.None? then None else Some((r.value, HEADER_LEN + n + HASH_LEN))
  }

  /** The first frame, if it is whole and links to its parent. */
  function NextRecord(c: Codec, b: seq<Byte>, parent: Digest): (p: Option<(Record, nat)>)
    ensures p.Some? ==> 0 < p.value.1 <= |b|
  {
    var p := ParseFrame(c, b);
    if p.Some? && p.value.0.parentHash == parent && Verifies(c, p.value.0) then p else None
  }

  /** The records of the longest valid prefix and its length. */
  function Replay(c: Codec, b: seq<Byte>, parent: Digest): (res: (seq<Record>, nat))
    ensures res.1 <= |b|
    decreases |b|
  {
    var p := NextRecord(c, b, parent);
    if p.None? then ([], 0)
    else
      var rest := Replay(c, b[p.value.1..], p.value.0.blockHash);
      ([p.value.0] + rest.0, p.value.1 + rest.1)
  }

  lemma ReplayUnfold(c: Codec, b: seq<Byte>, parent: Digest)
    ensures var p := NextRecord(c, b, parent);
      if p.None? then Replay(c, b, parent) == ([], 0)
      else
        var rest := Replay(c, b[p.value.1..], p.value.0.blockHash);
        Replay(c, b, parent) == ([p.value.0] + rest.0, p.value.1 + rest.1)
  {
  }

  ghost predicate RoundTrips(c: Codec) {
    forall r :: c.decode(c.encode(r)) == Some(r)
  }

  predicate Fits(c: Codec, r: Record) {
    0 < |c.encode(r)| <= MAX_FRAME_PAYLOAD
  }

  predicate AllFit(c: Codec, rs: seq<Record>) {
    forall i :: 0 <= i < |rs| ==> Fits(c, rs[i])
  }

  // ---------- frames ----------

  /** Where the parts of a frame lie in any bytes that begin with it. */
  lemma FrameParts(c: Codec, r: Record, b: seq<Byte>)
    requires Frame(c, r) <= b && |c.encode(r)| < U32_LIMIT
    ensures var n := |c.encode(r)|;
      && b[..4] == MAGIC && FromLe(b[4..8]) == n
      && b[HEADER_LEN..HEADER_LEN + n] == c.encode(r)
      && b[HEADER_LEN + n..HEADER_LEN + n + HASH_LEN] == c.sha(c.encode(r))
  {
    hide ToLe;
    hide FromLe;
    var n, f := |c.encode(r)|, Frame(c, r);
    Widths();
    FromToLe(n, 4);
    assert f[..4] == MAGIC && f[4..8] == ToLe(n, 4);
    assert f[HEADER_LEN..HEADER_LEN + n] == c.encode(r);
    assert f[HEADER_LEN + n..HEADER_LEN + n + HASH_LEN] == c.sha(c.encode(r));
    assert b[..|f|] == f;
    assert b[..4] == f[..4] && b[4..8] == f[4..8];
  }

  lemma WholeFrame(c: Codec, r: Record, b: seq<Byte>)
    requires RoundTrips(c) && Frame(c, r) <= b && |c.encode(r)| < U32_LIMIT
    ensures ParseFrame(c, b) == if Fits(c, r) then Some((r, |Frame(c, r)|)) else None
  {
    FrameParts(c, r, b);
    hide FromLe;
    hide ToLe;
  }

  /** A frame cut short is never taken for a record. */
  lemma TornFrame(c: Codec, r: Record, b: seq<Byte>)
    requires b < Frame(c, r) && |c.encode(r)| < U32_LIMIT
    ensures ParseFrame(c, b).None?
  {
    if |b| >= HEADER_LEN {
      FrameParts(c, r, Frame(c, r));
      assert b == Frame(c, r)[..|b|];
      assert b[4..8] == Frame(c, r)[4..8];
    }
  }

  lemma EmptyFrame(c: Codec)
    ensures ParseFrame(c, []).None?
  {
  }

  // ---------- logs ----------

  lemma {:induction false} LogAppend(c: Codec, rs: seq<Record>, r: Record)
    ensures LogOf(c, rs + [r]) == LogOf(c, rs) + Frame(c, r)
  {
    if rs != [] {
      LogAppend(c, rs[1..], r);
      assert (rs + [r])[1..] == rs[1..] + [r];
    } else {
      assert (rs + [r])[1..] == [];
    }
  }

  /** How many frames are complete in the first n bytes of a log. */
  function Complete(c: Codec, rs: seq<Record>, n: nat): (k: nat)
    ensures k <= |rs|
  {
    if rs == [] || n < |Frame(c, rs[0])| then 0 else 1 + Complete(c, rs[1..], n - |Frame(c, rs[0])|)
  }

  /** Complete counts exactly the frames that end within the cut. */
  lemma {:induction false} CompleteExact(c: Codec, rs: seq<Record>, n: nat, k: nat)
    requires k <= |rs|
    ensures k <= Complete(c, rs, n) <==> |LogOf(c, rs[..k])| <= n
  {
    if k > 0 {
      var f := |Frame(c, rs[0])|;
      assert rs[..k][1..] == rs[1..][..k - 1];
      if n >= f { CompleteExact(c, rs[1..], n - f, k - 1); }
    }
  }

  /** Wherever a crash cuts a log of appended blocks, replaying recovers exactly the blocks whose frames
  are complete, and the kept length is that of their frames. */
  lemma {:induction false} CrashRecovery(c: Codec, rs: seq<Record>, parent: Digest, cut: nat)
    requires RoundTrips(c) && ChainFrom(c, rs, parent) && AllFit(c, rs)
    requires cut <= |LogOf(c, rs)|
    ensures var k := Complete(c, rs, cut);
      Replay(c, LogOf(c, rs)[..cut], parent) == (rs[..k], |LogOf(c, rs[..k])|)
  {
    hide ParseFrame;
    hide Frame;
    hide Replay;
    hide Verifies;
    var b := LogOf(c, rs)[..cut];
    ReplayUnfold(c, b, parent);
    if rs == [] {
      assert NextRecord(c, b, parent).None? by { EmptyFrame(c); }
    } else {
      var f := Frame(c, rs[0]);
      assert Fits(c, rs[0]);
      if cut < |f| {
        assert b == f[..cut];
        TornFrame(c, rs[0], b);
      } else {
        var tail := LogOf(c, rs[1..])[..cut - |f|];
        assert b == f + tail;
        WholeFrame(c, rs[0], b);
        assert b[|f|..] == tail;
        CrashRecovery(c, rs[1..], rs[0].blockHash, cut - |f|);
        var k := Complete(c, rs[1..], cut - |f|);
        assert rs[..k + 1] == [rs[0]] + rs[1..][..k];
        assert rs[..k + 1][1..] == rs[1..][..k];
      }
    }
  }

  // ---------- arbitrary bytes ----------

  /** Whatever the bytes, the replayed records form a hash chain from the given parent. */
  lemma {:induction false} ReplayIsChain(c: Codec, b: seq<Byte>, parent: Digest)
    ensures ChainFrom(c, Replay(c, b, parent).0, parent)
    decreases |b|
  {
    hide ParseFrame;
    var p := NextRecord(c, b, parent);
    if p.Some? {
      ReplayIsChain(c, b[p.value.1..], p.value.0.blockHash);
      var rest := Replay(c, b[p.value.1..], p.value.0.blockHash).0;
      assert ([p.value.0] + rest)[1..] == rest;
    }
  }

  /** A frame is read from its own bytes alone. */
  lemma ParseLocal(c: Codec, b: seq<Byte>, b': seq<Byte>)
    requires ParseFrame(c, b).Some? && |b'| >= ParseFrame(c, b).value.1
    requires b[..ParseFrame(c, b).value.1] == b'[..ParseFrame(c, b).value.1]
    ensures ParseFrame(c, b') == ParseFrame(c, b)
  {
    hide FromLe;
    var m := ParseFrame(c, b).value.1;
    var n := FromLe(b[4..8]);
    assert b[..4] == b[..m][..4] && b[4..8] == b[..m][4..8];
    assert b'[..4] == b'[..m][..4] && b'[4..8] == b'[..m][4..8];
    assert b[HEADER_LEN..HEADER_LEN + n] == b[..m][HEADER_LEN..HEADER_LEN + n];
    assert b'[HEADER_LEN..HEADER_LEN + n] == b'[..m][HEADER_LEN..HEADER_LEN + n];
    assert b[HEADER_LEN + n..m] == b[..m][HEADER_LEN + n..m];
    assert b'[HEADER_LEN + n..m] == b'[..m][HEADER_LEN + n..m];
  }

  lemma NextLocal(c: Codec, b: seq<Byte>, b': seq<Byte>, parent: Digest)
    requires NextRecord(c, b, parent).Some? && |b'| >= NextRecord(c, b, parent).value.1
    requires b[..NextRecord(c, b, parent).value.1] == b'[..NextRecord(c, b, parent).value.1]
    ensures NextRecord(c, b', parent) == NextRecord(c, b, parent)
  {
    ParseLocal(c, b, b');
    hide ParseFrame;
  }

  /** Replay splits at the end of the valid prefix: what follows it is read as if it stood alone, after
  the last record kept. */
  lemma {:induction false} ReplayContinues(c: Codec, b: seq<Byte>, more: seq<Byte>, parent: Digest)
    ensures var rs, len := Replay(c, b, parent).0, Replay(c, b, parent).1;
      var tail := Replay(c, more, Tip(rs, parent));
      Replay(c, b[..len] + more, parent) == (rs + tail.0, len + tail.1)
    decreases |b|
  {
    hide NextRecord;
    hide Replay;
    ReplayUnfold(c, b, parent);
    var p := NextRecord(c, b, parent);
    var rs, len := Replay(c, b, parent).0, Replay(c, b, parent).1;
    var tail := Replay(c, more, Tip(rs, parent));
    if p.None? {
      assert b[..len] + more == more && rs + tail.0 == tail.0;
    } else {
      var r, n := p.value.0, p.value.1;
      var rest := b[n..];
      var qs, m := Replay(c, rest, r.blockHash).0, Replay(c, rest, r.blockHash).1;
      ReplayContinues(c, rest, more, r.blockHash);
      assert Tip(qs, r.blockHash) == Tip(rs, parent);
      var joined := b[..len] + more;
      assert joined[..n] == b[..n] && joined[n..] == rest[..m] + more;
      NextLocal(c, b, joined, parent);
      ReplayUnfold(c, joined, parent);
      assert [r] + (qs + tail.0) == rs + tail.0;
    }
  }

  /** Replaying the kept prefix keeps all of it: opening a log twice gives what opening it once gives. */
  lemma ReplayIdempotent(c: Codec, b: seq<Byte>, parent: Digest)
    ensures var kept := b[..Replay(c, b, parent).1]; Replay(c, kept, parent) == Replay(c, b, parent)
  {
    hide Replay;
    var rs, len := Replay(c, b, parent).0, Replay(c, b, parent).1;
    ReplayContinues(c, b, [], parent);
    ReplayUnfold(c, [], Tip(rs, parent));
    assert b[..len] + [] == b[..len] && rs + [] == rs;
  }

  // ---------- appending ----------

  /** One more frame after a wholly valid log is recovered if and only if its payload fits; an oversized
  one and everything after it is lost. */
  lemma FrameRecoveredIff(c: Codec, b: seq<Byte>, rs: seq<Record>, parent: Digest, r: Record, more: seq<Byte>)
    requires RoundTrips(c) && Replay(c, b, parent) == (rs, |b|) && |c.encode(r)| < U32_LIMIT
    requires r.parentHash == Tip(rs, parent) && Verifies(c, r)
    ensures var after := Replay(c, b + Frame(c, r) + more, parent);
      if Fits(c, r) then rs + [r] <= after.0 && after.1 >= |b| + |Frame(c, r)| else after == (rs, |b|)
  {
    hide Replay;
    hide Frame;
    hide Verifies;
    var f := Frame(c, r);
    var tail := f + more;
    ReplayContinues(c, b, tail, parent);
    assert b[..|b|] + tail == b + f + more;
    WholeFrame(c, r, tail);
    hide ParseFrame;
    ReplayUnfold(c, tail, Tip(rs, parent));
    assert rs + [] == rs;
    if Fits(c, r) {
      var rest := Replay(c, tail[|f|..], r.blockHash).0;
      assert rs + ([r] + rest) == rs + [r] + rest;
    }
  }

  // ---------- exactly what replay accepts ----------

  /** The magic bytes "TNBL", the length of the payload, the payload and a digest. */
  function RawFrame(payload: seq<Byte>, sum: seq<Byte>): seq<Byte> {
    [84, 78, 66, 76] + ToLe(|payload|, 4) + payload + sum
  }

  lemma RawParts(payload: seq<Byte>, sum: seq<Byte>, b: seq<Byte>)
    requires |payload| < U32_LIMIT && |sum| == 32 && RawFrame(payload, sum) <= b
    ensures |b| >= 40 + |payload| && b[..4] == [84, 78, 66, 76] && FromLe(b[4..8]) == |payload|
    ensures b[8..8 + |payload|] == payload && b[8 + |payload|..40 + |payload|] == sum
  {
    hide ToLe;
    hide FromLe;
    var n, f := |payload|, RawFrame(payload, sum);
    Widths();
    FromToLe(n, 4);
    assert f[..4] == [84, 78, 66, 76] && f[4..8] == ToLe(n, 4);
    assert f[8..8 + n] == payload && f[8 + n..40 + n] == sum;
    hide RawFrame;
    assert b[..|f|] == f;
    assert b[..4] == f[..4] && b[4..8] == f[4..8];
    assert b[8..8 + n] == f[8..8 + n];
    assert b[8 + n..40 + n] == f[8 + n..40 + n];
  }

  /** The bytes begin with the frame of a payload of 1 byte to 16 MiB and its own digest. */
  ghost predicate Carries(c: Codec, b: seq<Byte>, payload: seq<Byte>) {
    0 < |payload| <= 0x100_0000 && RawFrame(payload, c.sha(payload)) <= b
  }

  /** And that payload decodes to the record; n bytes in all. */
  ghost predicate BeginsWith(c: Codec, b: seq<Byte>, r: Record, n: nat) {
    exists payload :: Carries(c, b, payload) && c.decode(payload) == Some(r) && n == 40 + |payload|
  }

  lemma Reassembled(b: seq<Byte>, n: nat)
    requires |b| >= 40 + n
    ensures b[..4] + b[4..8] + b[8..8 + n] + b[8 + n..40 + n] == b[..40 + n] <= b
  {
  }

  lemma ParsedCarries(c: Codec, b: seq<Byte>) returns (payload: seq<Byte>)
    requires ParseFrame(c, b).Some?
    ensures Carries(c, b, payload)
    ensures c.decode(payload) == Some(ParseFrame(c, b).value.0) && ParseFrame(c, b).value.1 == 40 + |payload|
  {
    var n := FromLe(b[4..8]);
    ToFromLe(b[4..8]);
    hide FromLe;
    hide ToLe;
    payload := b[8..8 + n];
    assert c.sha(payload) == b[8 + n..40 + n] && b[..4] == [84, 78, 66, 76] && ToLe(n, 4) == b[4..8];
    Reassembled(b, n);
    assert RawFrame(payload, c.sha(payload)) == b[..40 + n];
  }

  lemma CarriedParses(c: Codec, b: seq<Byte>, payload: seq<Byte>)
    requires Carries(c, b, payload)
    ensures var r := c.decode(payload);
      ParseFrame(c, b) == if r.Some? then Some((r.value, 40 + |payload|)) else None
  {
    RawParts(payload, c.sha(payload), b);
    hide FromLe;
    hide RawFrame;
  }

  lemma ParseExactly(c: Codec, b: seq<Byte>, r: Record, n: nat)
    ensures ParseFrame(c, b) == Some((r, n)) <==> BeginsWith(c, b, r, n)
  {
    hide ParseFrame;
    hide Carries;
    if ParseFrame(c, b).Some? {
      var payload := ParsedCarries(c, b);
    }
    if payload :| Carries(c, b, payload) && c.decode(payload) == Some(r) && n == 40 + |payload| {
      CarriedParses(c, b, payload);
    }
  }

  /** Some frame begins the bytes, links to the parent and verifies. */
  ghost predicate Continues(c: Codec, b: seq<Byte>, parent: Digest, r: Record, n: nat) {
    BeginsWith(c, b, r, n) && r.parentHash == parent && Verifies(c, r)
  }

  lemma NextExactly(c: Codec, b: seq<Byte>, parent: Digest, r: Record, n: nat)
    ensures NextRecord(c, b, parent) == Some((r, n)) <==> Continues(c, b, parent, r, n)
  {
    ParseExactly(c, b, r, n);
    hide BeginsWith;
    hide ParseFrame;
    hide Verifies;
  }

  /** The bytes are n bytes of frames holding the records, chained from the parent, and no further frame
  continues the chain. */
  ghost predicate Holds(c: Codec, b: seq<Byte>, parent: Digest, rs: seq<Record>, n: int)
    decreases |rs|
  {
    if rs == [] then n == 0 && forall r, m :: !Continues(c, b, parent, r, m)
    else exists m: nat {:trigger Continues(c, b, parent, rs[0], m)} ::
      m <= |b| && Continues(c, b, parent, rs[0], m) && Holds(c, b[m..], rs[0].blockHash, rs[1..], n - m)
  }

  /** Replay finds some records and length if and only if the bytes hold exactly those. */
  lemma {:induction false} ReplayExactly(c: Codec, b: seq<Byte>, parent: Digest, rs: seq<Record>, n: nat)
    ensures Replay(c, b, parent) == (rs, n) <==> Holds(c, b, parent, rs, n)
    decreases |b|
  {
    ReplayHolds(c, b, parent);
    if Holds(c, b, parent, rs, n) { HoldsReplays(c, b, parent, rs, n); }
  }

  lemma {:induction false} ReplayHolds(c: Codec, b: seq<Byte>, parent: Digest)
    ensures Holds(c, b, parent, Replay(c, b, parent).0, Replay(c, b, parent).1)
    decreases |b|
  {
    hide Continues;
    hide NextRecord;
    hide Replay;
    ReplayUnfold(c, b, parent);
    var p := NextRecord(c, b, parent);
    if p.None? {
      forall r, m ensures !Continues(c, b, parent, r, m) {
        if m >= 0 { NextExactly(c, b, parent, r, m); }
      }
    } else {
      var r, m := p.value.0, p.value.1;
      NextExactly(c, b, parent, r, m);
      ReplayHolds(c, b[m..], r.blockHash);
      var rest := Replay(c, b[m..], r.blockHash).0;
      assert ([r] + rest)[1..] == rest && ([r] + rest)[0] == r;
      assert Continues(c, b, parent, ([r] + rest)[0], m);
    }
  }

  lemma {:induction false} HoldsReplays(c: Codec, b: seq<Byte>, parent: Digest, rs: seq<Record>, n: int)
    requires Holds(c, b, parent, rs, n)
    ensures Replay(c, b, parent) == (rs, n)
    decreases |rs|
  {
    hide Continues;
    hide NextRecord;
    hide Replay;
    ReplayUnfold(c, b, parent);
    if rs == [] {
      var p := NextRecord(c, b, parent);
      if p.Some? { NextExactly(c, b, parent, p.value.0, p.value.1); }
    } else {
      var m: nat :| m <= |b| && Continues(c, b, parent, rs[0], m) && Holds(c, b[m..], rs[0].blockHash, rs[1..], n - m);
      NextExactly(c, b, parent, rs[0], m);
      HoldsReplays(c, b[m..], rs[0].blockHash, rs[1..], n - m);
      assert [rs[0]] + rs[1..] == rs;
    }
  }

  /** Bytes after a wholly valid log that do not begin with a frame of the chain are dropped. */
  lemma ForeignTail(c: Codec, b: seq<Byte>, rs: seq<Record>, parent: Digest, tail: seq<Byte>)
    requires Replay(c, b, parent) == (rs, |b|) && ParseFrame(c, tail).None?
    ensures Replay(c, b + tail, parent) == (rs, |b|)
  {
    hide Replay;
    hide ParseFrame;
    ReplayContinues(c, b, tail, parent);
    ReplayUnfold(c, tail, Tip(rs, parent));
    assert b[..|b|] == b && rs + [] == rs;
  }

  /** A frame with any other digest than that of its payload is dropped, with all that follows. */
  lemma BadSumDropped(c: Codec, b: seq<Byte>, rs: seq<Record>, parent: Digest, payload: seq<Byte>, sum: seq<Byte>,
                      more: seq<Byte>)
    requires Replay(c, b, parent) == (rs, |b|) && |payload| < U32_LIMIT && |sum| == 32 && sum != c.sha(payload)
    ensures Replay(c, b + (RawFrame(payload, sum) + more), parent) == (rs, |b|)
  {
    hide Replay;
    hide RawFrame;
    var f := RawFrame(payload, sum);
    RawParts(payload, sum, f + more);
    hide FromLe;
    ForeignTail(c, b, rs, parent, f + more);
  }

  /** So is anything that does not begin with the magic bytes. */
  lemma BadMagicDropped(c: Codec, b: seq<Byte>, rs: seq<Record>, parent: Digest, tail: seq<Byte>)
    requires Replay(c, b, parent) == (rs, |b|) && !([84, 78, 66, 76] <= tail)
    ensures Replay(c, b + tail, parent) == (rs, |b|)
  {
    hide Replay;
    hide FromLe;
    assert |tail| >= 4 && tail[..4] == MAGIC ==> MAGIC <= tail;
    ForeignTail(c, b, rs, parent, tail);
  }
}
