/** The accounts store: an append-only buffer, an index into it, and a replayable log. */
module AccountsStore {
  import opened Bytes
  import opened Wrappers
  import opened AccountLog
  import Merkle
  import StateRoots

  datatype Location = Location(offset: nat, length: nat, version: nat)

  // ---------- what a buffer and an index stand for ----------

  /** A location lies inside the buffer and holds an account. */
  predicate Located(c: AccountCodec, storage: seq<Byte>, at: Location) {
    at.offset + at.length <= |storage| && c.decode(storage[at.offset..at.offset + at.length]).Some?
  }

  predicate IndexOk(c: AccountCodec, storage: seq<Byte>, index: map<Key, Location>, version: nat) {
    forall k :: k in index ==> Located(c, storage, index[k]) && index[k].version <= version
  }

  function AccountAt(c: AccountCodec, storage: seq<Byte>, at: Location): Account
    requires Located(c, storage, at)
  {
    c.decode(storage[at.offset..at.offset + at.length]).value
  }

  /** The plain map. */
  function MapOf(c: AccountCodec, storage: seq<Byte>, index: map<Key, Location>): Store
    requires forall k :: k in index ==> Located(c, storage, index[k])
  {
    map k | k in index :: AccountAt(c, storage, index[k])
  }

  /** A longer buffer leaves every located account where it was. */
  lemma LocatedStays(c: AccountCodec, storage: seq<Byte>, more: seq<Byte>, at: Location)
    requires Located(c, storage, at)
    ensures Located(c, storage + more, at) && AccountAt(c, storage + more, at) == AccountAt(c, storage, at)
  {
    assert (storage + more)[at.offset..at.offset + at.length] == storage[at.offset..at.offset + at.length];
  }

  lemma AppendedIsLocated(c: AccountCodec, storage: seq<Byte>, account: Account, version: nat)
    requires RoundTrips(c)
    ensures var payload := c.encode(account);
      var at := Location(|storage|, |payload|, version);
      Located(c, storage + payload, at) && AccountAt(c, storage + payload, at) == account
  {
    var payload := c.encode(account);
    assert (storage + payload)[|storage|..|storage| + |payload|] == payload;
  }

  lemma SaveMap(c: AccountCodec, storage: seq<Byte>, index: map<Key, Location>, version: nat, key: Key,
                account: Account)
    requires RoundTrips(c) && IndexOk(c, storage, index, version)
    ensures var payload := c.encode(account);
      var index' := index[key := Location(|storage|, |payload|, version + 1)];
      && IndexOk(c, storage + payload, index', version + 1)
      && MapOf(c, storage + payload, index') == MapOf(c, storage, index)[key := account]
  {
    hide Located;
    hide AccountAt;
    var payload := c.encode(account);
    var at := Location(|storage|, |payload|, version + 1);
    AppendedIsLocated(c, storage, account, version + 1);
    forall k | k in index
      ensures Located(c, storage + payload, index[k])
      ensures AccountAt(c, storage + payload, index[k]) == AccountAt(c, storage, index[k])
    {
      LocatedStays(c, storage, payload, index[k]);
    }
  }

  lemma RemoveMap(c: AccountCodec, storage: seq<Byte>, index: map<Key, Location>, version: nat, key: Key)
    requires IndexOk(c, storage, index, version)
    ensures IndexOk(c, storage, index - {key}, version)
    ensures MapOf(c, storage, index - {key}) == MapOf(c, storage, index) - {key}
    ensures |index - {key}| == if key in index then |index| - 1 else |index|
    ensures key in MapOf(c, storage, index) <==> key in index
    ensures key !in index ==> index - {key} == index
  {
    hide Located;
    hide AccountAt;
    if key in index {
      assert (index - {key}).Keys == index.Keys - {key};
    } else {
      assert index - {key} == index;
    }
  }

  /** A listing of the keys of a map without repetitions. */
  ghost predicate OneEach(keys: seq<Key>, m: Store) {
    (forall k :: k in keys <==> k in m) && forall i, j :: 0 <= i < j < |keys| ==> keys[i] != keys[j]
  }

  lemma NoneEach(m: Store)
    ensures OneEach([], m - m.Keys) && Puts(m, []) == []
  {
  }

  lemma OneMore(keys: seq<Key>, m: Store, left: set<Key>, key: Key)
    requires OneEach(keys, m - left) && key in left && left <= m.Keys
    ensures OneEach(keys + [key], m - (left - {key}))
  {
    assert key !in m - left;
    assert forall i :: 0 <= i < |keys| ==> keys[i] in keys;
  }

  class AccountsDB {
    const codec: AccountCodec
    var storage: seq<Byte>
    var index: map<Key, Location>
    var writeVersion: nat
    var accountCount: nat
    var totalBytes: nat
    var log: Option<seq<Byte>>

    /** The log as it was found, and the operations logged since. */
    ghost var start: seq<Byte>
    ghost var ops: seq<Op>

    /** The plain map the store stands for. */
    ghost function Contents(): Store
      requires IndexOk(codec, storage, index, writeVersion)
      reads this
    {
      MapOf(codec, storage, index)
    }

    /** The log is what was found plus the operations since. */
    ghost predicate Journaled() reads this`log, this`start, this`ops {
      log.Some? ==> log.value == start + LogOf(codec, ops)
    }

    ghost predicate Valid() reads this {
      && RoundTrips(codec) && IndexOk(codec, storage, index, writeVersion)
      && accountCount == |index| && totalBytes == |storage|
      && Contents() == RunOps(Replay(codec, start, map[]), ops)
      && Journaled()
    }

    /** Append one encoded record to the log, if there is one. */
    method LogRecord(ghost op: Op, record: seq<Byte>)
      requires Journaled() && record == EncodeOp(codec, op)
      modifies this`log, this`ops
      ensures Journaled() && ops == old(ops) + [op]
      ensures log == if old(log).Some? then Some(old(log).value + record) else None
    {
      LogAppend(codec, ops, op);
      hide LogOf;
      hide EncodeOp;
      if log.Some? {
        assert start + LogOf(codec, ops) + record == start + (LogOf(codec, ops) + record);
        log := Some(log.value + record);
      }
      ops := ops + [op];
    }

    constructor (codec: AccountCodec)
      requires RoundTrips(codec)
      ensures Valid() && this.codec == codec && Contents() == map[] && log == None && start == [] && ops == []
    {
      this.codec := codec;
      storage, index, writeVersion, accountCount, totalBytes, log := [], map[], 0, 0, 0, None;
      start, ops := [], [];
      new;
      EmptyStops(codec);
      ReplayUnfold(codec, [], map[]);
    }

    /** Store or update an account; every location already in the index keeps its bytes. */
    method Save(key: Key, account: Account)
      requires Valid()
      modifies this
      ensures Valid() && Contents() == old(Contents())[key := account]
      ensures start == old(start) && ops == old(ops) + [Put(key, account)]
      ensures old(storage) <= storage && forall k :: k in old(index) && k != key ==> k in index && index[k] == old(index[k])
      ensures storage == old(storage) + codec.encode(account) && writeVersion == old(writeVersion) + 1
      ensures index == old(index)[key := Location(|old(storage)|, |codec.encode(account)|, writeVersion)]
      ensures log == if old(log).Some? then Some(old(log).value + EncodePut(codec, key, account)) else None
    {
      hide Replay;
      hide RunOps;
      hide IndexOk;
      hide MapOf;
      hide Journaled;
      hide LogOf;
      hide RoundTrips;
      SaveMap(codec, storage, index, writeVersion, key, account);
      RunAppend(Replay(codec, start, map[]), ops, Put(key, account));
      var serialized := codec.encode(account);
      writeVersion := writeVersion + 1;
      var offset := |storage|;
      storage := storage + serialized;
      var location := Location(offset, |serialized|, writeVersion);
      var isNew := key !in index;
      index := index[key := location];
      if isNew {
        accountCount := accountCount + 1;
      }
      totalBytes := totalBytes + |serialized|;
      LogRecord(Put(key, account), EncodePut(codec, key, account));
    }

    method Load(key: Key) returns (account: Option<Account>)
      requires Valid()
      ensures account == if key in Contents() then Some(Contents()[key]) else None
    {
      if key !in index { return None; }
      var at := index[key];
      if at.offset + at.length > |storage| { return None; }
      account := codec.decode(storage[at.offset..at.offset + at.length]);
    }

    method Exists(key: Key) returns (found: bool)
      requires Valid()
      ensures found <==> key in Contents()
    {
      found := key in index;
    }

    /** Remove an account from the index; the buffer is never rewritten. */
    method Remove(key: Key) returns (removed: bool)
      requires Valid()
      modifies this
      ensures Valid() && Contents() == old(Contents()) - {key}
      ensures removed <==> key in old(Contents())
      ensures storage == old(storage) && start == old(start)
      ensures ops == if removed then old(ops) + [Delete(key)] else old(ops)
      ensures log == if removed && old(log).Some? then Some(old(log).value + EncodeDelete(key)) else old(log)
    {
      hide Replay;
      hide RunOps;
      hide IndexOk;
      hide MapOf;
      hide Journaled;
      hide LogOf;
      hide RoundTrips;
      RemoveMap(codec, storage, index, writeVersion, key);
      RunAppend(Replay(codec, start, map[]), ops, Delete(key));
      removed := key in index;
      index := index - {key};
      if removed {
        if accountCount > 0 { accountCount := accountCount - 1; }
        LogRecord(Delete(key), EncodeDelete(key));
      }
    }

    /** Rebuild the state from a log, record by record, up to the first torn or unknown one. */
    method ReplayLog(data: seq<Byte>)
      requires Valid() && log.None?
      modifies this
      ensures Valid() && log.None? && Contents() == Replay(codec, data, old(Contents()))
    {
      hide Replay;
      hide RunOps;
      hide IndexOk;
      hide MapOf;
      hide FromLe;
      var cursor := 0;
      assert data[0..] == data;
      while cursor < |data|
        invariant cursor <= |data| && Valid() && log.None?
        invariant Replay(codec, data[cursor..], Contents()) == Replay(codec, data, old(Contents()))
      {
        ghost var b := data[cursor..];
        ReplayUnfold(codec, b, Contents());
        if data[cursor] == RECORD_PUT {
          if cursor + PAYLOAD_AT > |data| { return; }
          var key := data[cursor + 1..cursor + LEN_AT];
          assert key == b[1..LEN_AT];
          var len := FromLe(data[cursor + LEN_AT..cursor + PAYLOAD_AT]);
          assert data[cursor + LEN_AT..cursor + PAYLOAD_AT] == b[LEN_AT..PAYLOAD_AT];
          var end := cursor + PAYLOAD_AT + len;
          if end > |data| { return; }
          var payload := data[cursor + PAYLOAD_AT..end];
          assert payload == b[PAYLOAD_AT..PAYLOAD_AT + len];
          assert b[PAYLOAD_AT + len..] == data[end..];
          var account := codec.decode(payload);
          if account.Some? {
            Save(key, account.value);
          }
          cursor := end;
        } else if data[cursor] == RECORD_DELETE {
          if cursor + LEN_AT > |data| { return; }
          var key := data[cursor + 1..cursor + LEN_AT];
          assert key == b[1..LEN_AT];
          assert b[LEN_AT..] == data[cursor + LEN_AT..];
          var removed := Remove(key);
          cursor := cursor + LEN_AT;
        } else {
          return;
        }
      }
      ReplayUnfold(codec, data[cursor..], Contents());
      EmptyStops(codec);
    }

    /** Open a persistent store over a log found on disk. */
    constructor Open(codec: AccountCodec, disk: seq<Byte>)
      requires RoundTrips(codec)
      ensures Valid() && this.codec == codec && Contents() == Replay(codec, disk, map[])
      ensures log == Some(disk) && start == disk && ops == []
    {
      this.codec := codec;
      storage, index, writeVersion, accountCount, totalBytes, log := [], map[], 0, 0, 0, None;
      start, ops := [], [];
      new;
      EmptyStops(codec);
      ReplayUnfold(codec, [], map[]);
      hide Replay;
      hide IndexOk;
      hide MapOf;
      hide LogOf;
      hide RoundTrips;
      ReplayLog(disk);
      EmptyLog(codec);
      log := Some(disk);
      start, ops := disk, [];
      assert disk + [] == disk;
    }

    /** Rewrite the log to the live accounts alone, met in any order. */
    method Snapshot()
      requires Valid()
      modifies this`log, this`start, this`ops
      ensures Valid() && Contents() == old(Contents()) && (log.None? <==> old(log).None?)
      ensures log.Some? && (forall k :: k in Contents() ==> |codec.encode(Contents()[k])| < U32_LIMIT) ==>
                Replay(codec, log.value, map[]) == Contents()
      ensures log.Some? ==> exists keys :: OneEach(keys, Contents()) && log.value == LogOf(codec, Puts(Contents(), keys))
    {
      hide Replay;
      hide RunOps;
      hide IndexOk;
      hide MapOf;
      hide LogOf;
      if log.None? { return; }
      var file, keys := WriteLive();
      SnapshotState(codec, Contents(), keys);
      log := Some(file);
      start, ops := [], Puts(Contents(), keys);
      assert [] + file == file;
    }

    /** One put record for every live account. */
    method WriteLive() returns (file: seq<Byte>, ghost keys: seq<Key>)
      requires Valid()
      ensures OneEach(keys, Contents()) && file == LogOf(codec, Puts(Contents(), keys))
    {
      ghost var m := Contents();
      assert m.Keys == index.Keys;
      EmptyLog(codec);
      NoneEach(m);
      hide *;
      keys := [];
      file := [];
      var left := index.Keys;
      while left != {}
        invariant left <= index.Keys == m.Keys && OneEach(keys, m - left)
        invariant (forall k :: k in keys ==> k in m) && file == LogOf(codec, Puts(m, keys))
        decreases left
      {
        var key :| key in left;
        var account := Load(key);
        if account.Some? {
          PutsAppend(codec, m, keys, key);
          OneMore(keys, m, left, key);
          file := file + EncodePut(codec, key, account.value);
          keys := keys + [key];
        }
        left := left - {key};
      }
      assert m - left == m;
    }

    method ComputeStateRoot(pair: Merkle.Pairing, hash: Account -> Merkle.Hash) returns (root: Merkle.Hash)
      requires Valid()
      ensures root == StateRoots.StateRoot(pair, hash, Contents())
    {
      var hashes := CollectHashes(hash);
      StateRoots.RootFromAnyOrder(pair, hash, Contents(), hashes);
      root := Merkle.Compute(pair, StateRoots.Sort(hashes));
    }

    method CollectHashes(hash: Account -> Merkle.Hash) returns (hashes: seq<Merkle.Hash>)
      requires Valid()
      ensures multiset(hashes) == StateRoots.HashBag(Contents(), hash)
    {
      ghost var m := Contents();
      assert m.Keys == index.Keys;
      hide *;
      hashes := [];
      var left := index.Keys;
      StateRoots.NoHashes(m - left, hash);
      while left != {}
        invariant left <= index.Keys == m.Keys && multiset(hashes) == StateRoots.HashBag(m - left, hash)
        decreases left
      {
        var key :| key in left;
        var account := Load(key);
        StateRoots.BagStep(m, hash, left, key);
        if account.Some? {
          hashes := hashes + [hash(account.value)];
        }
        left := left - {key};
      }
      assert m - left == m;
    }
  }

  lemma SnapshotState(c: AccountCodec, m: Store, keys: seq<Key>)
    requires RoundTrips(c) && (forall k :: k in keys <==> k in m)
    ensures RunOps(Replay(c, [], map[]), Puts(m, keys)) == m
    ensures (forall k :: k in m ==> |c.encode(m[k])| < U32_LIMIT) ==>
              Replay(c, LogOf(c, Puts(m, keys)), map[]) == m
  {
    EmptyStops(c);
    ReplayUnfold(c, [], map[]);
    hide Replay;
    hide RunOps;
    hide LogOf;
    PutsRebuild(m, keys);
    if forall k :: k in m ==> |c.encode(m[k])| < U32_LIMIT {
      SnapshotReplays(c, m, keys);
    }
  }
}
