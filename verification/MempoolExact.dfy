/** What each mempool operation does to the parked entries, said entry by entry. */
module MempoolExact {
  import opened Bytes
  import opened Transactions
  import opened MempoolModel

  ghost predicate SameEntries(s: Pool, t: Pool) {
    forall q :: q in s.bySeq && q in t.bySeq ==> s.bySeq[q] == t.bySeq[q]
  }

  predicate Fresh(e: Entry, maxAge: U64, now: U64) { now <= e.receivedAt + maxAge }

  /** Expiry keeps exactly the entries received at most the greatest age ago, and counts the others. */
  lemma ExpireExactly(s: State, cfg: Config, now: U64)
    requires Ok(s, cfg)
    ensures var t := AfterExpire(s, cfg.maxAge, now);
      && (forall q :: q in t.pool.bySeq <==> q in s.pool.bySeq && Fresh(s.pool.bySeq[q], cfg.maxAge, now))
      && SameEntries(s.pool, t.pool) && t.pool.nextSeq == s.pool.nextSeq
      && t.expired - s.expired == |s.pool.bySeq| - |t.pool.bySeq|
      && t.accepted == s.accepted && t.rejected == s.rejected && t.evicted == s.evicted && t.taken == s.taken
  {
    WithoutSize(s.pool, Stale(s.pool.bySeq, cfg.maxAge, now));
  }

  // ---------- inserting ----------

  /** The entry that makes room: it pays least and, among those that pay as little, came first. */
  ghost predicate Victim(p: Pool, v: nat) {
    v in p.bySeq && forall q :: q in p.bySeq && q != v ==>
      p.bySeq[v].fee < p.bySeq[q].fee || (p.bySeq[v].fee == p.bySeq[q].fee && v < q)
  }

  /** Pool t is s without the entries in `out` and with a new one, numbered after all others. */
  ghost predicate Parks(s: Pool, t: Pool, out: set<nat>, h: TxHash, tx: Transaction, now: U64) {
    && (forall q :: q in s.bySeq ==> q < s.nextSeq)
    && (forall q :: q in t.bySeq <==> (q in s.bySeq && q !in out) || q == s.nextSeq)
    && t.bySeq[s.nextSeq] == Entry(h, tx, tx.fee, now) && t.nextSeq == s.nextSeq + 1
    && SameEntries(s, t)
  }

  lemma ParksWithout(p: Pool, out: set<nat>, h: TxHash, tx: Transaction, now: U64)
    requires Inverse(p)
    ensures Parks(p, Parked(Without(p, out), h, tx, now), out, h, tx, now)
  {
  }

  lemma WithoutNone(p: Pool)
    ensures Without(p, {}) == p
  {
  }

  lemma VictimIsFirst(p: Pool, v: nat)
    ensures Victim(p, v) <==> p.bySeq != map[] && v == First(p.bySeq, false)
  {
    if p.bySeq != map[] { assert IsFirst(p.bySeq, false, First(p.bySeq, false)); }
    if Victim(p, v) {
      assert IsFirst(p.bySeq, false, v);
      FirstUnique(p.bySeq, false, v);
    }
  }

  /** A transaction with a bad signature, too low a fee, or a known hash, is refused for the first of these
  reasons and counted; nothing else changes, not even stale entries. */
  lemma InsertRefuses(s: State, cfg: Config, h: TxHash, tx: Transaction, now: U64)
    requires !tx.signatureOk || tx.fee < cfg.minFee || h in s.pool.byHash
    ensures AfterInsert(s, cfg, h, tx, now) == (s.(rejected := s.rejected + 1),
      Refused(if !tx.signatureOk then InvalidSignature else if tx.fee < cfg.minFee then FeeTooLow else Duplicate))
  {
  }

  lemma InsertIsAdmit(s: State, cfg: Config, h: TxHash, tx: Transaction, now: U64)
    requires Ok(s, cfg) && tx.signatureOk && tx.fee >= cfg.minFee && h !in s.pool.byHash
    ensures var live := AfterExpire(s, cfg.maxAge, now);
      AfterInsert(s, cfg, h, tx, now) == AfterAdmit(live, cfg, h, tx, now) && Inverse(live.pool)
  {
    ExpireKeeps(s, cfg, now);
    hide AfterAdmit;
    hide AfterExpire;
  }

  /** Any other transaction first expires the stale entries. If then there is room it is parked. */
  lemma InsertParks(s: State, cfg: Config, h: TxHash, tx: Transaction, now: U64)
    requires Ok(s, cfg) && tx.signatureOk && tx.fee >= cfg.minFee && h !in s.pool.byHash
    requires |AfterExpire(s, cfg.maxAge, now).pool.bySeq| < cfg.maxSize
    ensures var live, t := AfterExpire(s, cfg.maxAge, now), AfterInsert(s, cfg, h, tx, now);
      && t.1 == Admitted(h) && Parks(live.pool, t.0.pool, {}, h, tx, now)
      && t.0 == live.(pool := t.0.pool, accepted := live.accepted + 1)
  {
    var live := AfterExpire(s, cfg.maxAge, now);
    InsertIsAdmit(s, cfg, h, tx, now);
    ParksWithout(live.pool, {}, h, tx, now);
    WithoutNone(live.pool);
    hide AfterInsert;
    hide AfterExpire;
    hide Parks;
    hide Inverse;
  }

  /** If there is none, it takes the place of a victim that pays less. */
  lemma InsertEvicts(s: State, cfg: Config, h: TxHash, tx: Transaction, now: U64, v: nat)
    requires Ok(s, cfg) && tx.signatureOk && tx.fee >= cfg.minFee && h !in s.pool.byHash
    requires |AfterExpire(s, cfg.maxAge, now).pool.bySeq| >= cfg.maxSize
    requires var p := AfterExpire(s, cfg.maxAge, now).pool; Victim(p, v) && p.bySeq[v].fee < tx.fee
    ensures var live, t := AfterExpire(s, cfg.maxAge, now), AfterInsert(s, cfg, h, tx, now);
      && t.1 == Admitted(h) && Parks(live.pool, t.0.pool, {v}, h, tx, now)
      && t.0 == live.(pool := t.0.pool, accepted := live.accepted + 1, evicted := live.evicted + 1)
  {
    var live := AfterExpire(s, cfg.maxAge, now);
    InsertIsAdmit(s, cfg, h, tx, now);
    ParksWithout(live.pool, {v}, h, tx, now);
    VictimIsFirst(live.pool, v);
    hide AfterInsert;
    hide AfterExpire;
    hide Parks;
    hide Inverse;
    hide Victim;
  }

  /** And if every entry pays as much, it is refused and counted. */
  lemma InsertFull(s: State, cfg: Config, h: TxHash, tx: Transaction, now: U64)
    requires Ok(s, cfg) && tx.signatureOk && tx.fee >= cfg.minFee && h !in s.pool.byHash
    requires |AfterExpire(s, cfg.maxAge, now).pool.bySeq| >= cfg.maxSize
    requires var p := AfterExpire(s, cfg.maxAge, now).pool; forall q :: q in p.bySeq ==> tx.fee <= p.bySeq[q].fee
    ensures var live := AfterExpire(s, cfg.maxAge, now);
      AfterInsert(s, cfg, h, tx, now) == (live.(rejected := live.rejected + 1), Refused(Full))
  {
    InsertIsAdmit(s, cfg, h, tx, now);
    hide AfterInsert;
    hide AfterExpire;
  }

  /** A pool that is not empty has a victim. */
  lemma VictimExists(p: Pool)
    requires p.bySeq != map[]
    ensures exists v :: Victim(p, v)
  {
    VictimIsFirst(p, First(p.bySeq, false));
  }

  // ---------- draining ----------

  /** Entry a is drained before entry b: it pays more, or as much and came earlier. */
  predicate Dearer(p: Pool, a: nat, b: nat) {
    a in p.bySeq && b in p.bySeq &&
    (p.bySeq[a].fee > p.bySeq[b].fee || (p.bySeq[a].fee == p.bySeq[b].fee && a < b))
  }

  /** Draining takes as many entries as asked for or as there are, each dearer than the next, all dearer
  than those that stay; the others stay as they are. */
  lemma DrainExactly(s: State, limit: nat)
    ensures var top, t := Top(s.pool.bySeq, limit), AfterDrain(s, limit);
      && |top| == (if limit < |s.pool.bySeq| then limit else |s.pool.bySeq|)
      && (forall i, j :: 0 <= i < j < |top| ==> Dearer(s.pool, top[i], top[j]))
      && (forall i, q :: 0 <= i < |top| && q in t.pool.bySeq ==> Dearer(s.pool, top[i], q))
      && (forall q :: q in t.pool.bySeq <==> q in s.pool.bySeq && q !in top)
      && SameEntries(s.pool, t.pool) && t == s.(pool := t.pool, taken := s.taken + |top|)
  {
    hide Top;
    var top := Top(s.pool.bySeq, limit);
    TopExact(s.pool.bySeq, limit);
    forall i, j | 0 <= i < j < |top| ensures Dearer(s.pool, top[i], top[j]) {
      assert top[j] in top && top[j] !in top[..i + 1];
      assert Before(s.pool.bySeq, true, top[i], top[j]);
    }
    forall i, q | 0 <= i < |top| && q in AfterDrain(s, limit).pool.bySeq ensures Dearer(s.pool, top[i], q) {
      assert q !in top;
      assert q !in top[..i + 1];
      assert Before(s.pool.bySeq, true, top[i], q);
    }
  }

  /** Removing takes out the entry with the hash, if there is one, and nothing else. */
  lemma RemoveExactly(s: State, cfg: Config, h: TxHash)
    requires Ok(s, cfg)
    ensures var t := AfterRemove(s, h);
      && (forall q :: q in t.pool.bySeq <==> q in s.pool.bySeq && s.pool.bySeq[q].hash != h)
      && SameEntries(s.pool, t.pool) && t.pool.nextSeq == s.pool.nextSeq
      && t == s.(pool := t.pool, taken := s.taken + |s.pool.bySeq| - |t.pool.bySeq|)
  {
    if h in s.pool.byHash { WithoutSize(s.pool, {s.pool.byHash[h]}); }
  }
}
