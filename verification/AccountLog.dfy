/** The accounts log: how operations are encoded, and what replaying any sequence of bytes yields. */
module AccountLog {
  import opened Bytes
  import opened Wrappers
  import Ledger

  type Account = Ledger.Account

  const KEY_LEN := 32

  type Key = k: seq<Byte> | |k| == KEY_LEN witness seq(KEY_LEN, i => 0)
  type Store = map<Key, Account>

  /** The JSON codec of accounts, any pair of functions. */
  datatype AccountCodec = AccountCodec(encode: Account -> seq<Byte>, decode: seq<Byte> -> Option<Account>)

  ghost predicate RoundTrips(c: AccountCodec) {
    forall a :: c.decode(c.encode(a)) == Some(a)
  }

  datatype Op = Put(key: Key, account: Account) | Delete(key: Key)

  const RECORD_PUT: Byte := 1
  const RECORD_DELETE: Byte := 2
  const LEN_AT := 1 + KEY_LEN
  const PAYLOAD_AT := LEN_AT + 4

  function EncodePut(c: AccountCodec, key: Key, account: Account): seq<Byte> {
    [RECORD_PUT] + key + ToLe(|c.encode(account)|, 4) + c.encode(account)
  }

  function EncodeDelete(key: Key): seq<Byte> {
    [RECORD_DELETE] + key
  }

  function EncodeOp(c: AccountCodec, op: Op): (b: seq<Byte>)
    ensures |b| > 0
  {
    match op
    case Put(key, account) => EncodePut(c, key, account)
    case Delete(key) => EncodeDelete(key)
  }

  function LogOf(c: AccountCodec, ops: seq<Op>): seq<Byte> {
    if ops == [] then [] else EncodeOp(c, ops[0]) + LogOf(c, ops[1..])
  }

  // ---------- replay ----------

  /** One step of replay: stop, or go on after a record, whose payload may not decode. */
  datatype Step = Stop | Go(op: Option<Op>, len: nat)

  function ParseOp(c: AccountCodec, b: seq<Byte>): (s: Step)
    ensures s.Go? ==> 0 < s.len <= |b|
  {
    if b == [] then Stop
    else if b[0] == RECORD_PUT then
      if |b| < PAYLOAD_AT then Stop
      else
        var len := FromLe(b[LEN_AT..PAYLOAD_AT]);
        if |b| < PAYLOAD_AT + len then Stop
        else
          var account := c.decode(b[PAYLOAD_AT..PAYLOAD_AT + len]);
          Go(if account.Some? then Some(Put(b[1..LEN_AT], account.value)) else None, PAYLOAD_AT + len)
    else if b[0] == RECORD_DELETE then
      if |b| < LEN_AT then Stop else Go(Some(Delete(b[1..LEN_AT])), LEN_AT)
    else Stop
  }

  function ApplyOp(m: Store, op: Op): Store {
    match op
    case Put(key, account) => m[key := account]
    case Delete(key) => m - {key}
  }

  function RunOps(m: Store, ops: seq<Op>): Store
    decreases |ops|
  {
    if ops == [] then m else RunOps(ApplyOp(m, ops[0]), ops[1..])
  }

  function ApplyStep(m: Store, op: Option<Op>): Store {
    if op.None? then m else ApplyOp(m, op.value)
  }

  function Replay(c: AccountCodec, b: seq<Byte>, m: Store): Store
    decreases |b|
  {
    var s := ParseOp(c, b);
    if s.Stop? then m else Replay(c, b[s.len..], ApplyStep(m, s.op))
  }

  /** Replay reads the bytes to their end. */
  predicate Clean(c: AccountCodec, b: seq<Byte>)
    decreases |b|
  {
    b == [] || (var s := ParseOp(c, b); s.Go? && Clean(c, b[s.len..]))
  }

  lemma ReplayUnfold(c: AccountCodec, b: seq<Byte>, m: Store)
    ensures var s := ParseOp(c, b);
      Replay(c, b, m) == if s.Stop? then m else Replay(c, b[s.len..], ApplyStep(m, s.op))
  {
  }

  predicate Fits(c: AccountCodec, op: Op) {
    op.Put? ==> |c.encode(op.account)| < U32_LIMIT
  }

  predicate AllFit(c: AccountCodec, ops: seq<Op>) {
    forall i :: 0 <= i < |ops| ==> Fits(c, ops[i])
  }

  // ---------- records ----------

  /** Where the parts of a put record lie in any bytes that begin with it. */
  lemma PutParts(c: AccountCodec, key: Key, account: Account, b: seq<Byte>)
    requires EncodePut(c, key, account) <= b && |c.encode(account)| < U32_LIMIT
    ensures var n := |c.encode(account)|;
      && b[0] == RECORD_PUT && b[1..LEN_AT] == key && FromLe(b[LEN_AT..PAYLOAD_AT]) == n
      && b[PAYLOAD_AT..PAYLOAD_AT + n] == c.encode(account)
  {
    hide ToLe;
    hide FromLe;
    var n, f := |c.encode(account)|, EncodePut(c, key, account);
    Widths();
    FromToLe(n, 4);
    assert f[1..LEN_AT] == key && f[LEN_AT..PAYLOAD_AT] == ToLe(n, 4);
    assert f[PAYLOAD_AT..PAYLOAD_AT + n] == c.encode(account);
    assert b[..|f|] == f;
    assert b[1..LEN_AT] == f[1..LEN_AT] && b[LEN_AT..PAYLOAD_AT] == f[LEN_AT..PAYLOAD_AT];
  }

  lemma WholeOp(c: AccountCodec, op: Op, b: seq<Byte>)
    requires RoundTrips(c) && Fits(c, op) && EncodeOp(c, op) <= b
    ensures ParseOp(c, b) == Go(Some(op), |EncodeOp(c, op)|)
  {
    hide FromLe;
    hide ToLe;
    match op {
      case Put(key, account) => PutParts(c, key, account, b);
      case Delete(key) => assert b[..LEN_AT] == EncodeDelete(key) && b[1..LEN_AT] == b[..LEN_AT][1..];
    }
  }

  /** A record cut short stops the replay. */
  lemma TornOp(c: AccountCodec, op: Op, b: seq<Byte>)
    requires Fits(c, op) && b < EncodeOp(c, op)
    ensures ParseOp(c, b).Stop?
  {
    var f := EncodeOp(c, op);
    assert b == f[..|b|];
    if op.Put? && |b| >= PAYLOAD_AT {
      PutParts(c, op.key, op.account, f);
      assert b[LEN_AT..PAYLOAD_AT] == f[LEN_AT..PAYLOAD_AT];
    }
  }

  // ---------- logs ----------

  lemma {:induction false} LogAppend(c: AccountCodec, ops: seq<Op>, op: Op)
    ensures LogOf(c, ops + [op]) == LogOf(c, ops) + EncodeOp(c, op)
  {
    if ops != [] {
      LogAppend(c, ops[1..], op);
      assert (ops + [op])[1..] == ops[1..] + [op];
    } else {
      assert (ops + [op])[1..] == [];
    }
  }

  lemma {:induction false} RunAppend(m: Store, ops: seq<Op>, op: Op)
    ensures RunOps(m, ops + [op]) == ApplyOp(RunOps(m, ops), op)
    decreases |ops|
  {
    if ops != [] {
      RunAppend(ApplyOp(m, ops[0]), ops[1..], op);
      assert (ops + [op])[1..] == ops[1..] + [op];
    } else {
      assert (ops + [op])[1..] == [];
    }
  }

  function Complete(c: AccountCodec, ops: seq<Op>, n: nat): (k: nat)
    ensures k <= |ops|
  {
    if ops == [] || n < |EncodeOp(c, ops[0])| then 0 else 1 + Complete(c, ops[1..], n - |EncodeOp(c, ops[0])|)
  }

  /** Complete counts exactly the records that end within the cut. */
  lemma {:induction false} CompleteExact(c: AccountCodec, ops: seq<Op>, n: nat, k: nat)
    requires k <= |ops|
    ensures k <= Complete(c, ops, n) <==> |LogOf(c, ops[..k])| <= n
  {
    if k > 0 {
      var f := |EncodeOp(c, ops[0])|;
      assert ops[..k][1..] == ops[1..][..k - 1];
      if n >= f { CompleteExact(c, ops[1..], n - f, k - 1); }
    }
  }

  /** Any byte prefix of a log replays to the state after a prefix of the operations: those whose
  records are complete. */
  lemma {:induction false} PrefixReplay(c: AccountCodec, ops: seq<Op>, m: Store, cut: nat)
    requires RoundTrips(c) && AllFit(c, ops) && cut <= |LogOf(c, ops)|
    ensures Replay(c, LogOf(c, ops)[..cut], m) == RunOps(m, ops[..Complete(c, ops, cut)])
    decreases |ops|
  {
    hide Replay;
    hide ParseOp;
    hide EncodeOp;
    var b := LogOf(c, ops)[..cut];
    ReplayUnfold(c, b, m);
    if ops == [] {
      EmptyStops(c);
    } else {
      var f := EncodeOp(c, ops[0]);
      assert Fits(c, ops[0]);
      if cut < |f| {
        assert b == f[..cut];
        TornOp(c, ops[0], b);
      } else {
        var tail := LogOf(c, ops[1..])[..cut - |f|];
        assert b == f + tail;
        WholeOp(c, ops[0], b);
        assert b[|f|..] == tail;
        PrefixReplay(c, ops[1..], ApplyOp(m, ops[0]), cut - |f|);
        var k := Complete(c, ops[1..], cut - |f|);
        assert ops[..k + 1][1..] == ops[1..][..k];
      }
    }
  }

  lemma EmptyStops(c: AccountCodec)
    ensures ParseOp(c, []).Stop?
  {
  }

  lemma WholeReplay(c: AccountCodec, ops: seq<Op>, m: Store)
    requires RoundTrips(c) && AllFit(c, ops)
    ensures Replay(c, LogOf(c, ops), m) == RunOps(m, ops)
  {
    hide Replay;
    hide LogOf;
    var n := |LogOf(c, ops)|;
    CompleteExact(c, ops, n, |ops|);
    PrefixReplay(c, ops, m, n);
    assert LogOf(c, ops)[..n] == LogOf(c, ops) && ops[..|ops|] == ops;
  }

  /** Reading a record does not look past it. */
  lemma ParseLocal(c: AccountCodec, b: seq<Byte>, more: seq<Byte>)
    requires ParseOp(c, b).Go?
    ensures ParseOp(c, b + more) == ParseOp(c, b)
  {
    hide FromLe;
    var b' := b + more;
    var m := ParseOp(c, b).len;
    assert b'[..m] == b[..m];
    assert b'[1..LEN_AT] == b[1..LEN_AT];
    if b[0] == RECORD_PUT {
      assert b'[LEN_AT..PAYLOAD_AT] == b[LEN_AT..PAYLOAD_AT];
      assert b'[PAYLOAD_AT..m] == b[PAYLOAD_AT..m];
    }
  }

  /** What follows a clean log is replayed on top of it. */
  lemma {:induction false} ReplayContinues(c: AccountCodec, b: seq<Byte>, more: seq<Byte>, m: Store)
    requires Clean(c, b)
    ensures Replay(c, b + more, m) == Replay(c, more, Replay(c, b, m))
    decreases |b|
  {
    hide Replay;
    hide ParseOp;
    ReplayUnfold(c, b, m);
    if b == [] {
      EmptyStops(c);
      assert b + more == more;
    } else {
      var s := ParseOp(c, b);
      ParseLocal(c, b, more);
      ReplayUnfold(c, b + more, m);
      assert (b + more)[s.len..] == b[s.len..] + more;
      ReplayContinues(c, b[s.len..], more, ApplyStep(m, s.op));
    }
  }

  /** A log that continues a clean one, cut anywhere after it, replays to the state after a prefix of
  the operations written since. */
  lemma ReopenAfterCrash(c: AccountCodec, start: seq<Byte>, ops: seq<Op>, cut: nat)
    requires RoundTrips(c) && AllFit(c, ops) && Clean(c, start) && cut <= |LogOf(c, ops)|
    ensures Replay(c, (start + LogOf(c, ops))[..|start| + cut], map[]) ==
            RunOps(Replay(c, start, map[]), ops[..Complete(c, ops, cut)])
  {
    hide Replay;
    hide LogOf;
    hide Clean;
    assert (start + LogOf(c, ops))[..|start| + cut] == start + LogOf(c, ops)[..cut];
    ReplayContinues(c, start, LogOf(c, ops)[..cut], map[]);
    PrefixReplay(c, ops, Replay(c, start, map[]), cut);
  }

  // ---------- snapshots ----------

  function Puts(m: Store, keys: seq<Key>): (ops: seq<Op>)
    requires forall k :: k in keys ==> k in m
    ensures |ops| == |keys| && forall i :: 0 <= i < |keys| ==> ops[i] == Put(keys[i], m[keys[i]])
  {
    seq(|keys|, i requires 0 <= i < |keys| => Put(keys[i], m[keys[i]]))
  }

  lemma EmptyLog(c: AccountCodec)
    ensures LogOf(c, []) == []
  {
  }

  lemma PutsAppend(c: AccountCodec, m: Store, keys: seq<Key>, key: Key)
    requires key in m && forall k :: k in keys ==> k in m
    ensures LogOf(c, Puts(m, keys + [key])) == LogOf(c, Puts(m, keys)) + EncodePut(c, key, m[key])
  {
    LogAppend(c, Puts(m, keys), Put(key, m[key]));
    assert Puts(m, keys + [key]) == Puts(m, keys) + [Put(key, m[key])];
  }

  lemma {:induction false} PutsRun(m: Store, keys: seq<Key>, start: Store, k: Key)
    requires forall k :: k in keys ==> k in m
    ensures var t := RunOps(start, Puts(m, keys));
      if k in keys then k in t && t[k] == m[k] else (k in t <==> k in start) && (k in t ==> t[k] == start[k])
    decreases |keys|
  {
    if keys != [] {
      hide RunOps;
      var ops := Puts(m, keys);
      RunUnfold(start, ops);
      assert ops[1..] == Puts(m, keys[1..]);
      PutsRun(m, keys[1..], ApplyOp(start, ops[0]), k);
      assert k in keys <==> k == keys[0] || k in keys[1..];
    }
  }

  lemma RunUnfold(m: Store, ops: seq<Op>)
    requires ops != []
    ensures RunOps(m, ops) == RunOps(ApplyOp(m, ops[0]), ops[1..])
  {
  }

  lemma PutsRebuild(m: Store, keys: seq<Key>)
    requires forall k :: k in keys <==> k in m
    ensures RunOps(map[], Puts(m, keys)) == m
  {
    hide RunOps;
    var t := RunOps(map[], Puts(m, keys));
    forall k: Key ensures (k in t <==> k in m) && (k in t ==> t[k] == m[k]) {
      PutsRun(m, keys, map[], k);
    }
    assert t == m;
  }

  /** A snapshot log replays to the map it was taken from, in whatever order the keys were met. */
  lemma SnapshotReplays(c: AccountCodec, m: Store, keys: seq<Key>)
    requires RoundTrips(c) && (forall k :: k in keys <==> k in m)
    requires forall k :: k in m ==> |c.encode(m[k])| < U32_LIMIT
    ensures Replay(c, LogOf(c, Puts(m, keys)), map[]) == m
  {
    hide Replay;
    hide RunOps;
    hide LogOf;
    WholeReplay(c, Puts(m, keys), map[]);
    PutsRebuild(m, keys);
  }

  // ---------- writing after a torn record ----------

  /** The bytes at which replay stops, empty exactly when it reads to the end. */
  function Tail(c: AccountCodec, b: seq<Byte>): (t: seq<Byte>)
    ensures t == [] <==> Clean(c, b)
    ensures ParseOp(c, t).Stop?
    decreases |b|
  {
    var s := ParseOp(c, b);
    if s.Stop? then b else Tail(c, b[s.len..])
  }

  /** Whatever is written next is read together with those bytes. */
  lemma {:induction false} ReplayFromTail(c: AccountCodec, b: seq<Byte>, more: seq<Byte>, m: Store)
    ensures Replay(c, b + more, m) == Replay(c, Tail(c, b) + more, Replay(c, b, m))
    decreases |b|
  {
    hide Replay;
    hide ParseOp;
    ReplayUnfold(c, b, m);
    var s := ParseOp(c, b);
    if s.Go? {
      ParseLocal(c, b, more);
      ReplayUnfold(c, b + more, m);
      assert (b + more)[s.len..] == b[s.len..] + more;
      ReplayFromTail(c, b[s.len..], more, ApplyStep(m, s.op));
    }
  }

  lemma ShortStops(c: AccountCodec, b: seq<Byte>)
    requires |b| < LEN_AT
    ensures ParseOp(c, b).Stop?
  {
  }

  /** A torn tombstone reads the beginning of the next record as the rest of its key, which may happen to be
  the key of that record. */
  predicate SpellsKey(t: seq<Byte>, key: Key) {
    && 0 < |t| < LEN_AT && t[0] == RECORD_DELETE
    && (t + EncodeDelete(key))[1..LEN_AT] == key
  }

  /** A tombstone written after a stopping tail: it is swallowed, unless the tail is a torn tombstone that
  together with it happens to spell the same key. */
  lemma TombstoneAfterTail(c: AccountCodec, t: seq<Byte>, key: Key, m: Store)
    requires t != [] && ParseOp(c, t).Stop? && key in m
    ensures key in Replay(c, t + EncodeDelete(key), m) <==> !SpellsKey(t, key)
  {
    hide Replay;
    hide FromLe;
    var b := t + EncodeDelete(key);
    ReplayUnfold(c, b, m);
    var s := ParseOp(c, b);
    if s.Go? {
      StopsShort(c, t, EncodeDelete(key));
      ShortStops(c, b[s.len..]);
      ReplayUnfold(c, b[s.len..], ApplyStep(m, s.op));
      assert t[0] == b[0];
    }
  }

  /** A record begun in a stopping tail ends beyond it. */
  lemma StopsShort(c: AccountCodec, t: seq<Byte>, more: seq<Byte>)
    requires t != [] && ParseOp(c, t).Stop? && ParseOp(c, t + more).Go?
    ensures ParseOp(c, t + more).len > |t|
  {
    hide FromLe;
    assert (t + more)[0] == t[0];
    assert |t| >= PAYLOAD_AT ==> (t + more)[LEN_AT..PAYLOAD_AT] == t[LEN_AT..PAYLOAD_AT];
  }

  /** Exactly when the removal of a live account is lost because the log it was appended to does not end
  cleanly: always, except that a torn tombstone may happen to spell the same key. */
  lemma RemovalLostIff(c: AccountCodec, b: seq<Byte>, key: Key, m: Store)
    requires key in Replay(c, b, m)
    ensures key in Replay(c, b + EncodeDelete(key), m) <==> !Clean(c, b) && !SpellsKey(Tail(c, b), key)
  {
    hide Replay;
    var t, n := Tail(c, b), Replay(c, b, m);
    ReplayFromTail(c, b, EncodeDelete(key), m);
    if t == [] {
      assert t + EncodeDelete(key) == EncodeDelete(key);
      CleanTombstone(c, key, n);
    } else {
      TombstoneAfterTail(c, t, key, n);
    }
  }

  lemma CleanTombstone(c: AccountCodec, key: Key, m: Store)
    ensures Replay(c, EncodeDelete(key), m) == m - {key}
  {
    hide Replay;
    var b := EncodeDelete(key);
    ReplayUnfold(c, b, m);
    assert b[1..LEN_AT] == key;
    assert b[LEN_AT..] == [];
    ReplayUnfold(c, [], m - {key});
  }

  lemma SpelledKey(t: seq<Byte>, key: Key)
    requires SpellsKey(t, key)
    ensures RECORD_DELETE in key
  {
    var b := t + EncodeDelete(key);
    assert b[|t|] == RECORD_DELETE;
    assert b[1..LEN_AT][|t| - 1] == RECORD_DELETE;
  }

  /** So for keys without the tombstone byte the removal is lost if and only if the log is not clean. */
  lemma RemovalLostUnlessClean(c: AccountCodec, b: seq<Byte>, key: Key, m: Store)
    requires key in Replay(c, b, m) && RECORD_DELETE !in key
    ensures key in Replay(c, b + EncodeDelete(key), m) <==> !Clean(c, b)
  {
    hide Replay;
    RemovalLostIff(c, b, key, m);
    if SpellsKey(Tail(c, b), key) { SpelledKey(Tail(c, b), key); }
  }

  /** A stored account can be lost too: a tombstone torn after its tag swallows the record that follows. */
  lemma TornTailHidesWrite(c: AccountCodec, m: Store, key: Key, account: Account)
    requires key[KEY_LEN - 1] != RECORD_PUT && key[KEY_LEN - 1] != RECORD_DELETE
    ensures Replay(c, EncodeDelete(key)[..1], m) == m
    ensures Replay(c, EncodeDelete(key)[..1] + EncodePut(c, key, account), m) == m - {[RECORD_PUT] + key[..KEY_LEN - 1]}
  {
    hide Replay;
    hide ToLe;
    var torn := EncodeDelete(key)[..1];
    ReplayUnfold(c, torn, m);
    var b := torn + EncodePut(c, key, account);
    ReplayUnfold(c, b, m);
    assert b[1..LEN_AT] == [RECORD_PUT] + key[..KEY_LEN - 1];
    ReplayUnfold(c, b[LEN_AT..], m - {b[1..LEN_AT]});
    assert b[LEN_AT..][0] == key[KEY_LEN - 1];
  }

  // ---------- exactly what replay reads ----------

  /** A stored account: tag 1, the key, the length of the payload in four bytes, the payload. */
  function RawPut(key: Key, payload: seq<Byte>): seq<Byte> { [1] + key + ToLe(|payload|, 4) + payload }

  /** A tombstone: tag 2 and the key. */
  function RawDelete(key: Key): seq<Byte> { [2] + key }

  lemma RawPutParses(c: AccountCodec, key: Key, payload: seq<Byte>, more: seq<Byte>)
    requires |payload| < U32_LIMIT
    ensures var account := c.decode(payload);
      ParseOp(c, RawPut(key, payload) + more) ==
      Go(if account.Some? then Some(Put(key, account.value)) else None, |RawPut(key, payload)|)
  {
    hide ToLe;
    hide FromLe;
    var b, n := RawPut(key, payload) + more, |payload|;
    Widths();
    FromToLe(n, 4);
    assert b[1..LEN_AT] == key && b[LEN_AT..PAYLOAD_AT] == ToLe(n, 4) && b[PAYLOAD_AT..PAYLOAD_AT + n] == payload;
  }

  /** A stored account is read whatever its payload: one that does not decode is passed over. */
  lemma ReplayPut(c: AccountCodec, key: Key, payload: seq<Byte>, more: seq<Byte>, m: Store)
    requires |payload| < U32_LIMIT
    ensures var account := c.decode(payload);
      Replay(c, RawPut(key, payload) + more, m) == Replay(c, more, if account.Some? then m[key := account.value] else m)
  {
    hide Replay;
    hide RawPut;
    var b := RawPut(key, payload) + more;
    RawPutParses(c, key, payload, more);
    ReplayUnfold(c, b, m);
    assert b[|RawPut(key, payload)|..] == more;
  }

  lemma ReplayDelete(c: AccountCodec, key: Key, more: seq<Byte>, m: Store)
    ensures Replay(c, RawDelete(key) + more, m) == Replay(c, more, m - {key})
  {
    hide Replay;
    var b := RawDelete(key) + more;
    assert b[1..LEN_AT] == key && b[LEN_AT..] == more;
    ReplayUnfold(c, b, m);
  }

  ghost predicate BeginsPut(b: seq<Byte>) {
    exists key: Key, payload: seq<Byte> :: |payload| < U32_LIMIT && RawPut(key, payload) <= b
  }

  ghost predicate BeginsDelete(b: seq<Byte>) {
    exists key: Key :: RawDelete(key) <= b
  }

  lemma PutBegins(c: AccountCodec, b: seq<Byte>)
    requires ParseOp(c, b).Go? && b[0] == RECORD_PUT
    ensures BeginsPut(b)
  {
    var key: Key := b[1..LEN_AT];
    var n := FromLe(b[LEN_AT..PAYLOAD_AT]);
    Widths();
    FromLeBound(b[LEN_AT..PAYLOAD_AT]);
    ToFromLe(b[LEN_AT..PAYLOAD_AT]);
    hide FromLe;
    hide ToLe;
    var payload := b[PAYLOAD_AT..PAYLOAD_AT + n];
    assert RawPut(key, payload) == b[..1] + b[1..LEN_AT] + b[LEN_AT..PAYLOAD_AT] + payload;
    assert b[..1] + b[1..LEN_AT] + b[LEN_AT..PAYLOAD_AT] + payload == b[..PAYLOAD_AT + n];
    hide RawPut;
    hide ParseOp;
  }

  lemma DeleteBegins(c: AccountCodec, b: seq<Byte>)
    requires ParseOp(c, b).Go? && b[0] == RECORD_DELETE
    ensures BeginsDelete(b)
  {
    var key: Key := b[1..LEN_AT];
    assert RawDelete(key) == b[..LEN_AT];
    assert RawDelete(key) <= b;
  }

  /** Bytes that begin with no whole record, torn or foreign ones among them, end the replay. Together with
  the two laws above this fixes replay on every sequence of bytes. */
  lemma ReplayStops(c: AccountCodec, b: seq<Byte>, m: Store)
    requires !BeginsPut(b) && !BeginsDelete(b)
    ensures Replay(c, b, m) == m
  {
    if ParseOp(c, b).Go? {
      if b[0] == RECORD_PUT { PutBegins(c, b); } else { DeleteBegins(c, b); }
    }
    hide BeginsPut;
    hide BeginsDelete;
  }
}
