/** The mempool's state and what each operation does to it, with the laws of whole runs. The clock is a
parameter and the transaction hash any function. */
module MempoolModel {
  import opened Bytes
  import opened Transactions

  type TxHash = nat

  datatype Config = Config(maxSize: nat, maxAge: U64, minFee: U64)

  datatype Entry = Entry(hash: TxHash, tx: Transaction, fee: U64, receivedAt: U64)
  {
    function Age(now: U64): U64 { if now >= receivedAt then now - receivedAt else 0 }
  }

  datatype Pool = Pool(byHash: map<TxHash, nat>, bySeq: map<nat, Entry>, nextSeq: nat)

  datatype Error = InvalidSignature | FeeTooLow | Duplicate | Full

  datatype Admission = Admitted(hash: TxHash) | Refused(error: Error)

  /** The pool with its counters; `taken` counts the entries drained or removed by request. */
  datatype State = State(pool: Pool, accepted: nat, rejected: nat, evicted: nat, expired: nat, taken: nat)

  const EMPTY := State(Pool(map[], map[], 0), 0, 0, 0, 0, 0)

  /** The two indexes are inverse to each other and sequence numbers are fresh. */
  ghost predicate Inverse(p: Pool) {
    && (forall h :: h in p.byHash ==> p.byHash[h] in p.bySeq && p.bySeq[p.byHash[h]].hash == h)
    && (forall q :: q in p.bySeq ==> p.bySeq[q].hash in p.byHash && p.byHash[p.bySeq[q].hash] == q)
    && (forall q :: q in p.bySeq ==> q < p.nextSeq && p.bySeq[q].fee == p.bySeq[q].tx.fee)
  }

  // ---------- first and last in fee order ----------

  /** Rank for eviction (cheapest first) or for draining (dearest first). */
  function Rank(e: Entry, dear: bool): int {
    var fee: int := e.fee;
    if dear then -fee else fee
  }

  /** Entry a comes before entry b; equal fees go by arrival. */
  predicate Before(bySeq: map<nat, Entry>, dear: bool, a: nat, b: nat)
    requires a in bySeq && b in bySeq
  {
    Rank(bySeq[a], dear) < Rank(bySeq[b], dear) || (bySeq[a].fee == bySeq[b].fee && a < b)
  }

  predicate IsFirst(bySeq: map<nat, Entry>, dear: bool, a: nat) {
    a in bySeq && forall b :: b in bySeq && b != a ==> Before(bySeq, dear, a, b)
  }

  lemma {:induction false} FirstExists(bySeq: map<nat, Entry>, dear: bool)
    requires bySeq != map[]
    ensures exists a :: IsFirst(bySeq, dear, a)
    decreases |bySeq|
  {
    var k :| k in bySeq;
    var rest := bySeq - {k};
    if rest == map[] {
      assert forall b :: b in bySeq ==> b == k || b in rest;
      assert IsFirst(bySeq, dear, k);
    } else {
      FirstExists(rest, dear);
      var a :| IsFirst(rest, dear, a);
      assert forall b :: b in bySeq ==> b == k || b in rest;
      if Before(bySeq, dear, a, k) {
        assert IsFirst(bySeq, dear, a);
      } else {
        assert IsFirst(bySeq, dear, k);
      }
    }
  }

  ghost function First(bySeq: map<nat, Entry>, dear: bool): (a: nat)
    requires bySeq != map[]
    ensures IsFirst(bySeq, dear, a)
  {
    FirstExists(bySeq, dear);
    var a :| IsFirst(bySeq, dear, a);
    a
  }

  lemma FirstUnique(bySeq: map<nat, Entry>, dear: bool, a: nat)
    requires IsFirst(bySeq, dear, a)
    ensures a == First(bySeq, dear)
  {
  }

  // ---------- operations ----------

  function Without(p: Pool, seqs: set<nat>): Pool {
    Pool(map h | h in p.byHash && p.byHash[h] !in seqs :: p.byHash[h], p.bySeq - seqs, p.nextSeq)
  }

  function Stale(bySeq: map<nat, Entry>, maxAge: U64, now: U64): set<nat> {
    set q | q in bySeq && bySeq[q].Age(now) > maxAge
  }

  function AfterExpire(s: State, maxAge: U64, now: U64): State {
    var stale := Stale(s.pool.bySeq, maxAge, now);
    s.(pool := Without(s.pool, stale), expired := s.expired + |stale|)
  }

  /** The full pool gives way to a transaction that pays more than its cheapest entry. */
  ghost predicate Evicts(p: Pool, cfg: Config, fee: U64) {
    |p.bySeq| >= cfg.maxSize && p.bySeq != map[] && fee > p.bySeq[First(p.bySeq, false)].fee
  }

  function Parked(p: Pool, h: TxHash, tx: Transaction, now: U64): Pool {
    Pool(p.byHash[h := p.nextSeq], p.bySeq[p.nextSeq := Entry(h, tx, tx.fee, now)], p.nextSeq + 1)
  }

  /** Admission of an eligible, unknown transaction into a pool without stale entries. */
  ghost function AfterAdmit(s: State, cfg: Config, h: TxHash, tx: Transaction, now: U64): (State, Admission) {
    if |s.pool.bySeq| < cfg.maxSize then
      (s.(pool := Parked(s.pool, h, tx, now), accepted := s.accepted + 1), Admitted(h))
    else if Evicts(s.pool, cfg, tx.fee) then
      var p := Without(s.pool, {First(s.pool.bySeq, false)});
      (s.(pool := Parked(p, h, tx, now), accepted := s.accepted + 1, evicted := s.evicted + 1), Admitted(h))
    else
      (s.(rejected := s.rejected + 1), Refused(Full))
  }

  ghost function AfterInsert(s: State, cfg: Config, h: TxHash, tx: Transaction, now: U64): (State, Admission) {
    if !tx.signatureOk then (s.(rejected := s.rejected + 1), Refused(InvalidSignature))
    else if tx.fee < cfg.minFee then (s.(rejected := s.rejected + 1), Refused(FeeTooLow))
    else if h in s.pool.byHash then (s.(rejected := s.rejected + 1), Refused(Duplicate))
    else AfterAdmit(AfterExpire(s, cfg.maxAge, now), cfg, h, tx, now)
  }

  /** The first n entries in draining order. */
  ghost function Top(bySeq: map<nat, Entry>, n: nat): seq<nat> {
    if n == 0 || bySeq == map[] then []
    else
      var a := First(bySeq, true);
      [a] + Top(bySeq - {a}, n - 1)
  }

  ghost function AfterDrain(s: State, limit: nat): State {
    var top := Top(s.pool.bySeq, limit);
    s.(pool := Without(s.pool, Elements(top)), taken := s.taken + |top|)
  }

  function AfterRemove(s: State, h: TxHash): State {
    if h !in s.pool.byHash then s
    else s.(pool := Without(s.pool, {s.pool.byHash[h]}), taken := s.taken + 1)
  }

  // ---------- what every operation keeps ----------

  ghost predicate Ok(s: State, cfg: Config) {
    && Inverse(s.pool)
    && |s.pool.bySeq| <= cfg.maxSize
    && s.accepted == |s.pool.bySeq| + s.evicted + s.expired + s.taken
  }

  lemma WithoutInverse(p: Pool, seqs: set<nat>)
    requires Inverse(p)
    ensures Inverse(Without(p, seqs))
  {
  }

  lemma WithoutSize(p: Pool, seqs: set<nat>)
    requires seqs <= p.bySeq.Keys
    ensures |Without(p, seqs).bySeq| + |seqs| == |p.bySeq|
  {
    assert (p.bySeq - seqs).Keys == p.bySeq.Keys - seqs;
    assert (p.bySeq.Keys - seqs) + seqs == p.bySeq.Keys;
  }

  lemma ParkedInverse(p: Pool, h: TxHash, tx: Transaction, now: U64)
    requires Inverse(p) && h !in p.byHash
    ensures Inverse(Parked(p, h, tx, now)) && |Parked(p, h, tx, now).bySeq| == |p.bySeq| + 1
  {
    assert p.nextSeq !in p.bySeq;
    assert p.bySeq[p.nextSeq := Entry(h, tx, tx.fee, now)].Keys == p.bySeq.Keys + {p.nextSeq};
  }

  lemma ExpireKeeps(s: State, cfg: Config, now: U64)
    requires Ok(s, cfg)
    ensures Ok(AfterExpire(s, cfg.maxAge, now), cfg)
  {
    var stale := Stale(s.pool.bySeq, cfg.maxAge, now);
    WithoutInverse(s.pool, stale);
    WithoutSize(s.pool, stale);
  }

  lemma AdmitKeeps(s: State, cfg: Config, h: TxHash, tx: Transaction, now: U64)
    requires Ok(s, cfg) && h !in s.pool.byHash
    ensures Ok(AfterAdmit(s, cfg, h, tx, now).0, cfg)
  {
    hide Inverse;
    if |s.pool.bySeq| < cfg.maxSize {
      ParkedInverse(s.pool, h, tx, now);
    } else if Evicts(s.pool, cfg, tx.fee) {
      var victim := {First(s.pool.bySeq, false)};
      WithoutInverse(s.pool, victim);
      WithoutSize(s.pool, victim);
      ParkedInverse(Without(s.pool, victim), h, tx, now);
    }
  }

  lemma InsertKeeps(s: State, cfg: Config, h: TxHash, tx: Transaction, now: U64)
    requires Ok(s, cfg)
    ensures Ok(AfterInsert(s, cfg, h, tx, now).0, cfg)
  {
    ExpireKeeps(s, cfg, now);
    if h !in s.pool.byHash {
      AdmitKeeps(AfterExpire(s, cfg.maxAge, now), cfg, h, tx, now);
    }
    hide AfterAdmit;
    hide AfterExpire;
    hide Inverse;
  }

  lemma RemoveSize(bySeq: map<nat, Entry>, a: nat)
    requires a in bySeq
    ensures |bySeq - {a}| == |bySeq| - 1
  {
    assert (bySeq - {a}).Keys == bySeq.Keys - {a};
  }

  lemma TopUnfold(bySeq: map<nat, Entry>, n: nat)
    ensures Top(bySeq, n) ==
      if n == 0 || bySeq == map[] then [] else [First(bySeq, true)] + Top(bySeq - {First(bySeq, true)}, n - 1)
  {
  }

  lemma {:induction false} TopMembers(bySeq: map<nat, Entry>, n: nat)
    ensures |Top(bySeq, n)| == if n < |bySeq| then n else |bySeq|
    ensures forall q :: q in Top(bySeq, n) ==> q in bySeq
    decreases n
  {
    TopUnfold(bySeq, n);
    hide Top;
    if n > 0 && bySeq != map[] {
      var a := First(bySeq, true);
      RemoveSize(bySeq, a);
      TopMembers(bySeq - {a}, n - 1);
    }
  }

  /** Every listed entry comes before each parked entry not listed up to it. */
  lemma {:induction false} TopBefore(bySeq: map<nat, Entry>, n: nat, i: nat, q: nat)
    requires i < |Top(bySeq, n)| && q in bySeq && q !in Top(bySeq, n)[..i + 1]
    ensures Top(bySeq, n)[i] in bySeq && Before(bySeq, true, Top(bySeq, n)[i], q)
    decreases n
  {
    var a := First(bySeq, true);
    assert Top(bySeq, n)[..i + 1][0] == a;
    if i > 0 {
      var rest := bySeq - {a};
      assert Top(bySeq, n)[..i + 1] == [a] + Top(rest, n - 1)[..i];
      TopBefore(rest, n - 1, i - 1, q);
    }
  }

  lemma {:induction false} TopDistinct(bySeq: map<nat, Entry>, n: nat, i: nat, j: nat)
    requires i < j < |Top(bySeq, n)|
    ensures Top(bySeq, n)[i] != Top(bySeq, n)[j]
    decreases n
  {
    var a := First(bySeq, true);
    var rest := bySeq - {a};
    TopMembers(rest, n - 1);
    if i > 0 {
      TopDistinct(rest, n - 1, i - 1, j - 1);
    } else {
      assert Top(rest, n - 1)[j - 1] in Top(rest, n - 1);
    }
  }

  /** A list of distinct parked entries, as many as asked for or as there are. */
  predicate Lists(bySeq: map<nat, Entry>, top: seq<nat>, n: nat) {
    && |top| == (if n < |bySeq| then n else |bySeq|)
    && (forall q :: q in top ==> q in bySeq)
    && (forall i, j :: 0 <= i < j < |top| ==> top[i] != top[j])
  }

  lemma TopLists(bySeq: map<nat, Entry>, n: nat)
    ensures Lists(bySeq, Top(bySeq, n), n)
  {
    hide Top;
    TopMembers(bySeq, n);
    var top := Top(bySeq, n);
    forall i, j | 0 <= i < j < |top| ensures top[i] != top[j] { TopDistinct(bySeq, n, i, j); }
  }

  /** What draining lists: distinct parked entries, dearest first and equal fees by arrival, all before the
  entries left behind, and as many as asked for or as there are. */
  lemma TopExact(bySeq: map<nat, Entry>, n: nat)
    ensures var top := Top(bySeq, n);
      && Lists(bySeq, top, n)
      && (forall i, q :: 0 <= i < |top| && q in bySeq && q !in top[..i + 1] ==>
            top[i] in bySeq && Before(bySeq, true, top[i], q))
  {
    hide Top;
    TopLists(bySeq, n);
    var top := Top(bySeq, n);
    forall i, q | 0 <= i < |top| && q in bySeq && q !in top[..i + 1]
      ensures top[i] in bySeq && Before(bySeq, true, top[i], q)
    {
      TopBefore(bySeq, n, i, q);
    }
  }

  function Elements(s: seq<nat>): set<nat> { set q | q in s }

  lemma {:induction false} DistinctSize(s: seq<nat>)
    requires forall i, j :: 0 <= i < j < |s| ==> s[i] != s[j]
    ensures |Elements(s)| == |s|
  {
    if s != [] {
      DistinctSize(s[1..]);
      assert s == [s[0]] + s[1..];
      assert Elements(s) == {s[0]} + Elements(s[1..]);
      assert s[0] !in s[1..];
    }
  }

  lemma DrainKeeps(s: State, cfg: Config, limit: nat)
    requires Ok(s, cfg)
    ensures Ok(AfterDrain(s, limit), cfg)
  {
    hide Top;
    hide Inverse;
    var top := Top(s.pool.bySeq, limit);
    TopLists(s.pool.bySeq, limit);
    DistinctSize(top);
    WithoutInverse(s.pool, Elements(top));
    WithoutSize(s.pool, Elements(top));
  }

  lemma RemoveKeeps(s: State, cfg: Config, h: TxHash)
    requires Ok(s, cfg)
    ensures Ok(AfterRemove(s, h), cfg)
  {
    if h in s.pool.byHash {
      WithoutInverse(s.pool, {s.pool.byHash[h]});
      WithoutSize(s.pool, {s.pool.byHash[h]});
    }
  }

  // ---------- whole runs ----------

  datatype Request = Insert(tx: Transaction, now: U64) | Drain(limit: nat) | Remove(hash: TxHash) | Expire(now: U64)

  ghost function After(s: State, cfg: Config, hash: Transaction -> TxHash, r: Request): State {
    match r
    case Insert(tx, now) => AfterInsert(s, cfg, hash(tx), tx, now).0
    case Drain(limit) => AfterDrain(s, limit)
    case Remove(h) => AfterRemove(s, h)
    case Expire(now) => AfterExpire(s, cfg.maxAge, now)
  }

  ghost function Run(cfg: Config, hash: Transaction -> TxHash, rs: seq<Request>): State {
    if rs == [] then EMPTY else After(Run(cfg, hash, rs[..|rs| - 1]), cfg, hash, rs[|rs| - 1])
  }

  /** In every run the two indexes stay inverse, the size stays within bounds and every accepted
  transaction is parked, evicted, expired or taken out. */
  lemma {:induction false} RunOk(cfg: Config, hash: Transaction -> TxHash, rs: seq<Request>)
    ensures Ok(Run(cfg, hash, rs), cfg)
    decreases |rs|
  {
    if rs != [] {
      hide Ok;
      hide AfterInsert;
      hide AfterDrain;
      hide AfterRemove;
      hide AfterExpire;
      var s, r := Run(cfg, hash, rs[..|rs| - 1]), rs[|rs| - 1];
      RunOk(cfg, hash, rs[..|rs| - 1]);
      match r {
        case Insert(tx, now) => InsertKeeps(s, cfg, hash(tx), tx, now);
        case Drain(limit) => DrainKeeps(s, cfg, limit);
        case Remove(h) => RemoveKeeps(s, cfg, h);
        case Expire(now) => ExpireKeeps(s, cfg, now);
      }
    }
  }
}
