/** The block store: an append-only file and the records it holds. A file is a sequence of bytes. */
module Blockstore {
  import opened Bytes
  import opened Wrappers
  import opened BlockRecords
  import opened BlockLog

  datatype Chunk = Filled | CleanEof | Torn

  /** Fill a buffer of n bytes from a file whose reads may return any positive number of bytes. */
  method Fill(data: seq<Byte>, pos: nat, n: nat) returns (chunk: Chunk, buf: seq<Byte>)
    requires pos <= |data|
    ensures chunk == if pos + n <= |data| then Filled else if pos == |data| then CleanEof else Torn
    ensures chunk.Filled? ==> buf == data[pos..pos + n]
  {
    buf := [];
    while |buf| < n
      invariant |buf| <= n && pos + |buf| <= |data| && buf == data[pos..pos + |buf|]
    {
      var at := pos + |buf|;
      if at == |data| {
        return if buf == [] then CleanEof else Torn, buf;
      }
      var most := if n - |buf| < |data| - at then n - |buf| else |data| - at;
      var got :| 1 <= got <= most;
      buf := buf + data[at..at + got];
    }
    chunk := Filled;
  }

  /** Read one frame: magic, length, payload, checksum, then decode. */
  method ReadFrame(c: Codec, data: seq<Byte>, pos: nat) returns (p: Option<(Record, nat)>)
    requires pos <= |data|
    ensures p == ParseFrame(c, data[pos..])
  {
    hide FromLe;
    ghost var b := data[pos..];
    var chunk, magic := Fill(data, pos, 4);
    if !chunk.Filled? { return None; }
    assert magic == b[..4];
    if magic != MAGIC { return None; }
    var lenBuf;
    chunk, lenBuf := Fill(data, pos + 4, 4);
    if !chunk.Filled? { return None; }
    assert lenBuf == b[4..8];
    var n := FromLe(lenBuf);
    if n == 0 || n > MAX_FRAME_PAYLOAD { return None; }
    var payload;
    chunk, payload := Fill(data, pos + HEADER_LEN, n);
    if !chunk.Filled? { return None; }
    assert payload == b[HEADER_LEN..HEADER_LEN + n];
    var sum;
    chunk, sum := Fill(data, pos + HEADER_LEN + n, HASH_LEN);
    if !chunk.Filled? { return None; }
    assert sum == b[HEADER_LEN + n..HEADER_LEN + n + HASH_LEN];
    if c.sha(payload) != sum { return None; }
    var r := c.decode(payload);
    if r.None? { return None; }
    p := Some((r.value, HEADER_LEN + n + HASH_LEN));
  }

  /** Stream the file up to the first torn, corrupt or foreign frame. */
  method ReplayFile(c: Codec, data: seq<Byte>) returns (records: seq<Record>, validLen: nat)
    ensures (records, validLen) == Replay(c, data, GENESIS_PARENT)
  {
    hide ParseFrame;
    hide Verifies;
    hide Replay;
    records, validLen := [], 0;
    ghost var all := Replay(c, data, GENESIS_PARENT).0;
    assert data[0..] == data && records + all == all;
    while true
      invariant validLen <= |data|
      invariant var rest := Replay(c, data[validLen..], Tip(records, GENESIS_PARENT));
        Replay(c, data, GENESIS_PARENT) == (records + rest.0, validLen + rest.1)
      decreases |data| - validLen
    {
      ReplayUnfold(c, data[validLen..], Tip(records, GENESIS_PARENT));
      assert records + [] == records;
      var p := ReadFrame(c, data, validLen);
      if p.None? { return; }
      var record := p.value.0;
      var expectedParent := if records == [] then GENESIS_PARENT else records[|records| - 1].blockHash;
      if record.parentHash != expectedParent || !Verifies(c, record) { return; }
      ghost var rest := data[validLen..][p.value.1..];
      assert rest == data[validLen + p.value.1..];
      ghost var tail := Replay(c, rest, record.blockHash).0;
      assert records + ([record] + tail) == records + [record] + tail;
      validLen := validLen + p.value.1;
      records := records + [record];
    }
  }

  class Blockstore {
    const codec: Codec
    var file: seq<Byte>
    var records: seq<Record>

    /** The records in memory form a chain from genesis. */
    ghost predicate Chained() reads this {
      ChainFrom(codec, records, GENESIS_PARENT)
    }

    /** Opening the file again would give back exactly the records in memory. */
    ghost predicate Durable() reads this {
      Replay(codec, file, GENESIS_PARENT) == (records, |file|)
    }

    /** Open a store over whatever bytes are on disk, dropping what does not replay. */
    constructor (codec: Codec, disk: seq<Byte>)
      ensures this.codec == codec && file <= disk && Durable() && Chained()
      ensures (records, |file|) == Replay(codec, disk, GENESIS_PARENT)
    {
      var rs, validLen := ReplayFile(codec, disk);
      this.codec := codec;
      records := rs;
      file := disk[..validLen];
      ReplayIdempotent(codec, disk, GENESIS_PARENT);
      ReplayIsChain(codec, disk, GENESIS_PARENT);
    }

    /** Append a caller-built record; it is refused exactly when it does not link or does not verify. A
    durable store stays durable if and only if the encoded record fits the frame bound of replay. */
    method AppendRecord(record: Record) returns (ok: bool)
      requires Chained()
      modifies this
      ensures Chained()
      ensures ok <==> record.parentHash == Tip(old(records), GENESIS_PARENT) && Verifies(codec, record)
      ensures ok ==> file == old(file) + Frame(codec, record) && records == old(records) + [record]
      ensures !ok ==> file == old(file) && records == old(records)
      ensures ok && old(Durable()) && RoundTrips(codec) && |codec.encode(record)| < U32_LIMIT ==>
                (Durable() <==> Fits(codec, record))
    {
      hide Replay;
      hide Frame;
      hide Verifies;
      var expectedParent := if records == [] then GENESIS_PARENT else records[|records| - 1].blockHash;
      if record.parentHash != expectedParent || !Verifies(codec, record) { return false; }
      ChainAppend(codec, records, GENESIS_PARENT, record);
      ghost var f := Frame(codec, record);
      if old(Durable()) && RoundTrips(codec) && |codec.encode(record)| < U32_LIMIT {
        AppendDurableIff(codec, file, records, record);
      }
      WriteFrame(record);
      records := records + [record];
      ok := true;
    }

    method WriteFrame(record: Record)
      modifies this`file
      ensures file == old(file) + Frame(codec, record)
    {
      var payload := codec.encode(record);
      var frame := MAGIC;
      frame := frame + ToLe(|payload|, 4);
      frame := frame + payload;
      frame := frame + codec.sha(payload);
      file := file + frame;
    }

    /** Append the next block; linkage and hash are derived, so this is never refused. */
    method Append(slot: U64, height: U64, entryCount: U64, pohHash: Digest, stateRoot: Digest,
                  transactions: seq<Packed>, now: U64) returns (record: Record)
      requires Chained() && |transactions| < U64_LIMIT
      modifies this
      ensures Chained() && records == old(records) + [record] && file == old(file) + Frame(codec, record)
      ensures record.parentHash == Tip(old(records), GENESIS_PARENT) && Verifies(codec, record)
      ensures record.slot == slot && record.height == height && record.entryCount == entryCount
      ensures record.pohHash == pohHash && record.stateRoot == stateRoot
      ensures record.transactions == transactions && record.txCount == |transactions| && record.timestamp == now
      ensures old(Durable()) && RoundTrips(codec) && |codec.encode(record)| < U32_LIMIT ==>
                (Durable() <==> Fits(codec, record))
    {
      var parentHash := if records == [] then GENESIS_PARENT else records[|records| - 1].blockHash;
      record := NewRecord(codec, parentHash, slot, height, pohHash, entryCount, stateRoot, transactions, now);
      NewRecordVerifies(codec, parentHash, slot, height, pohHash, entryCount, stateRoot, transactions, now);
      hide NewRecord;
      hide Verifies;
      hide Replay;
      hide ChainFrom;
      var ok := AppendRecord(record);
    }
  }

  lemma NewRecordVerifies(c: Codec, parentHash: Digest, slot: U64, height: U64, pohHash: Digest, entryCount: U64,
                          stateRoot: Digest, transactions: seq<Packed>, now: U64)
    requires |transactions| < U64_LIMIT
    ensures var r := NewRecord(c, parentHash, slot, height, pohHash, entryCount, stateRoot, transactions, now);
      && Verifies(c, r)
      && r == Record(slot, height, parentHash, r.blockHash, pohHash, stateRoot, entryCount, |transactions|,
                     transactions, now)
  {
  }

  lemma AppendDurableIff(c: Codec, b: seq<Byte>, rs: seq<Record>, r: Record)
    requires RoundTrips(c) && Replay(c, b, GENESIS_PARENT) == (rs, |b|) && |c.encode(r)| < U32_LIMIT
    requires r.parentHash == Tip(rs, GENESIS_PARENT) && Verifies(c, r)
    ensures var b' := b + Frame(c, r);
      Replay(c, b', GENESIS_PARENT) == (rs + [r], |b'|) <==> Fits(c, r)
  {
    hide Replay;
    hide Frame;
    hide Verifies;
    var f := Frame(c, r);
    FrameRecoveredIff(c, b, rs, GENESIS_PARENT, r, []);
    assert b + f + [] == b + f;
    if Fits(c, r) {
      ExactAppend(c, b, rs, r);
    }
  }

  lemma ExactAppend(c: Codec, b: seq<Byte>, rs: seq<Record>, r: Record)
    requires RoundTrips(c) && Replay(c, b, GENESIS_PARENT) == (rs, |b|) && Fits(c, r)
    requires r.parentHash == Tip(rs, GENESIS_PARENT) && Verifies(c, r)
    ensures Replay(c, b + Frame(c, r), GENESIS_PARENT) == (rs + [r], |b| + |Frame(c, r)|)
  {
    hide Replay;
    hide Frame;
    hide Verifies;
    var f := Frame(c, r);
    ReplayContinues(c, b, f, GENESIS_PARENT);
    assert b[..|b|] + f == b + f;
    WholeFrame(c, r, f);
    hide ParseFrame;
    ReplayUnfold(c, f, Tip(rs, GENESIS_PARENT));
    assert f[|f|..] == [];
    ReplayUnfold(c, [], r.blockHash);
    EmptyFrame(c);
    assert [r] + [] == [r];
  }
}
