/** While nothing expires and nothing is taken out, the mempool holds the best-paying transactions it was
ever offered. */
module MempoolTopK {
  import opened Bytes
  import opened Transactions
  import opened MempoolModel

  // ---------- the k best of a set ----------

  /** The kept hashes are k best-paying ones of those offered, or all of them if they are fewer. */
  ghost predicate Best(kept: set<TxHash>, offered: set<TxHash>, k: nat, feeOf: TxHash -> U64) {
    && kept <= offered
    && |kept| == (if |offered| < k then |offered| else k)
    && (forall p, d :: p in kept && d in offered && d !in kept ==> feeOf(d) <= feeOf(p))
  }

  function PayingAtLeast(hs: set<TxHash>, fee: U64, feeOf: TxHash -> U64): set<TxHash> {
    set h | h in hs && feeOf(h) >= fee
  }

  /** So the kept fees are the k largest: at every threshold, as many are kept as were offered, up to k. */
  lemma BestIsTopFees(kept: set<TxHash>, offered: set<TxHash>, k: nat, feeOf: TxHash -> U64, fee: U64)
    requires Best(kept, offered, k, feeOf)
    ensures var all := |PayingAtLeast(offered, fee, feeOf)|;
      |PayingAtLeast(kept, fee, feeOf)| == if all < k then all else k
  {
    var some, all := PayingAtLeast(kept, fee, feeOf), PayingAtLeast(offered, fee, feeOf);
    Smaller(some, all);
    Smaller(kept, offered);
    Smaller(all, offered);
    if d :| d in all && d !in kept {
      assert some == kept;
      Smaller(kept + {d}, offered);
      assert |kept + {d}| == |kept| + 1;
      Smaller(kept, all);
    } else {
      assert some == all;
      Smaller(some, kept);
    }
  }

  lemma {:induction false} Smaller(a: set<TxHash>, b: set<TxHash>)
    requires a <= b
    ensures |a| <= |b| && (|a| == |b| ==> a == b)
  {
    assert a + (b - a) == b;
  }

  lemma Grow(kept: set<TxHash>, offered: set<TxHash>, k: nat, feeOf: TxHash -> U64, h: TxHash)
    requires Best(kept, offered, k, feeOf) && h !in kept && |kept| < k
    ensures h !in offered && Best(kept + {h}, offered + {h}, k, feeOf)
  {
    Smaller(kept, offered);
  }

  lemma Replace(kept: set<TxHash>, offered: set<TxHash>, k: nat, feeOf: TxHash -> U64, v: TxHash, h: TxHash)
    requires Best(kept, offered, k, feeOf) && h !in kept && |kept| == k && v in kept
    requires (forall p :: p in kept ==> feeOf(v) <= feeOf(p)) && feeOf(h) > feeOf(v)
    ensures Best(kept - {v} + {h}, offered + {h}, k, feeOf)
  {
    assert h !in offered;
    Smaller(kept, offered);
    assert |kept - {v} + {h}| == k;
  }

  lemma Refuse(kept: set<TxHash>, offered: set<TxHash>, k: nat, feeOf: TxHash -> U64, h: TxHash)
    requires Best(kept, offered, k, feeOf) && h !in kept && |kept| == k
    requires forall p :: p in kept ==> feeOf(h) <= feeOf(p)
    ensures Best(kept, offered + {h}, k, feeOf)
  {
    Smaller(kept, offered);
    if h in offered {
      assert offered + {h} == offered;
    } else {
      assert |offered + {h}| == |offered| + 1;
    }
  }

  // ---------- the pool ----------

  /** Both indexes hold equally many entries. */
  lemma {:induction false} SameSize(p: Pool)
    requires Inverse(p)
    ensures |p.byHash| == |p.bySeq|
    decreases |p.bySeq|
  {
    if q :| q in p.bySeq {
      var p' := Without(p, {q});
      WithoutInverse(p, {q});
      RemoveSize(p.bySeq, q);
      assert p'.byHash.Keys == p.byHash.Keys - {p.bySeq[q].hash};
      SameSize(p');
    } else {
      assert p.bySeq.Keys == {};
      assert p.byHash.Keys == {};
    }
  }

  /** The recorded fees are those of the hashes. */
  ghost predicate Tracked(p: Pool, feeOf: TxHash -> U64) {
    forall q :: q in p.bySeq ==> p.bySeq[q].fee == feeOf(p.bySeq[q].hash)
  }

  lemma NothingExpired(s: State, maxAge: U64, now: U64)
    requires AfterExpire(s, maxAge, now).expired == s.expired
    ensures AfterExpire(s, maxAge, now) == s
  {
    assert Stale(s.pool.bySeq, maxAge, now) == {};
    assert Without(s.pool, {}) == s.pool;
  }

  lemma CheapestFee(p: Pool, feeOf: TxHash -> U64, h: TxHash)
    requires Inverse(p) && Tracked(p, feeOf) && h in p.byHash && p.bySeq != map[]
    ensures p.bySeq[First(p.bySeq, false)].fee <= feeOf(h)
  {
    var q := p.byHash[h];
    assert q == First(p.bySeq, false) || Before(p.bySeq, false, First(p.bySeq, false), q);
  }

  lemma AdmitKeepsTracked(s: State, cfg: Config, h: TxHash, tx: Transaction, now: U64, feeOf: TxHash -> U64)
    requires Tracked(s.pool, feeOf) && feeOf(h) == tx.fee
    ensures Tracked(AfterAdmit(s, cfg, h, tx, now).0.pool, feeOf)
  {
  }

  /** The hashes left when the cheapest entry makes room for a dearer one. */
  lemma EvictedHashes(p: Pool, h: TxHash, tx: Transaction, now: U64, v: nat)
    requires Inverse(p) && v in p.bySeq
    ensures Parked(Without(p, {v}), h, tx, now).byHash.Keys == p.byHash.Keys - {p.bySeq[v].hash} + {h}
  {
  }

  lemma EvictKeepsBest(p: Pool, cfg: Config, h: TxHash, tx: Transaction, now: U64, feeOf: TxHash -> U64,
                       offered: set<TxHash>)
    requires Inverse(p) && Tracked(p, feeOf) && feeOf(h) == tx.fee && |p.byHash| == cfg.maxSize
    requires h !in p.byHash && Best(p.byHash.Keys, offered, cfg.maxSize, feeOf) && Evicts(p, cfg, tx.fee)
    ensures var v := First(p.bySeq, false);
      Best(Parked(Without(p, {v}), h, tx, now).byHash.Keys, offered + {h}, cfg.maxSize, feeOf)
  {
    hide Best;
    var v := First(p.bySeq, false);
    forall g | g in p.byHash.Keys ensures feeOf(p.bySeq[v].hash) <= feeOf(g) {
      CheapestFee(p, feeOf, g);
    }
    Replace(p.byHash.Keys, offered, cfg.maxSize, feeOf, p.bySeq[v].hash, h);
    EvictedHashes(p, h, tx, now, v);
  }

  lemma RefuseKeepsBest(p: Pool, cfg: Config, h: TxHash, tx: Transaction, feeOf: TxHash -> U64,
                        offered: set<TxHash>)
    requires Inverse(p) && Tracked(p, feeOf) && feeOf(h) == tx.fee && |p.bySeq| == |p.byHash| == cfg.maxSize
    requires h !in p.byHash && Best(p.byHash.Keys, offered, cfg.maxSize, feeOf) && !Evicts(p, cfg, tx.fee)
    ensures Best(p.byHash.Keys, offered + {h}, cfg.maxSize, feeOf)
  {
    hide Best;
    forall g | g in p.byHash.Keys ensures feeOf(h) <= feeOf(g) {
      assert p.byHash[g] in p.bySeq;
      CheapestFee(p, feeOf, g);
    }
    Refuse(p.byHash.Keys, offered, cfg.maxSize, feeOf, h);
  }

  /** Admitting one more distinct offer keeps the pool the best of the offers. */
  lemma AdmitKeepsBest(s: State, cfg: Config, h: TxHash, tx: Transaction, now: U64, feeOf: TxHash -> U64,
                       offered: set<TxHash>)
    requires Ok(s, cfg) && Tracked(s.pool, feeOf) && feeOf(h) == tx.fee
    requires h !in s.pool.byHash && Best(s.pool.byHash.Keys, offered, cfg.maxSize, feeOf)
    ensures var p := AfterAdmit(s, cfg, h, tx, now).0.pool;
      Tracked(p, feeOf) && Best(p.byHash.Keys, offered + {h}, cfg.maxSize, feeOf)
  {
    AdmitKeepsTracked(s, cfg, h, tx, now, feeOf);
    SameSize(s.pool);
    hide Best;
    hide Tracked;
    hide Inverse;
    if |s.pool.bySeq| < cfg.maxSize {
      Grow(s.pool.byHash.Keys, offered, cfg.maxSize, feeOf, h);
      assert Parked(s.pool, h, tx, now).byHash.Keys == s.pool.byHash.Keys + {h};
    } else if Evicts(s.pool, cfg, tx.fee) {
      EvictKeepsBest(s.pool, cfg, h, tx, now, feeOf, offered);
    } else {
      RefuseKeepsBest(s.pool, cfg, h, tx, feeOf, offered);
    }
  }

  predicate Eligible(cfg: Config, tx: Transaction) {
    tx.signatureOk && tx.fee >= cfg.minFee
  }

  /** One more offer that expires nothing. */
  lemma InsertKeepsBest(s: State, cfg: Config, h: TxHash, tx: Transaction, now: U64, feeOf: TxHash -> U64,
                        offered: set<TxHash>)
    requires Ok(s, cfg) && Tracked(s.pool, feeOf) && feeOf(h) == tx.fee
    requires Best(s.pool.byHash.Keys, offered, cfg.maxSize, feeOf)
    requires AfterInsert(s, cfg, h, tx, now).0.expired == s.expired
    ensures var p := AfterInsert(s, cfg, h, tx, now).0.pool;
      Tracked(p, feeOf) && Best(p.byHash.Keys, if Eligible(cfg, tx) then offered + {h} else offered, cfg.maxSize, feeOf)
  {
    if Eligible(cfg, tx) {
      if h in s.pool.byHash {
        assert offered + {h} == offered;
      } else {
        NothingExpired(s, cfg.maxAge, now);
        AdmitKeepsBest(s, cfg, h, tx, now, feeOf, offered);
      }
    }
    hide AfterAdmit;
    hide Best;
    hide Ok;
  }

  /** The distinct eligible hashes among the offers. */
  function Offered(cfg: Config, hash: Transaction -> TxHash, rs: seq<Request>): set<TxHash> {
    set i | 0 <= i < |rs| && rs[i].Insert? && Eligible(cfg, rs[i].tx) :: hash(rs[i].tx)
  }

  /** Equal hashes mean equal fees among the offers. */
  predicate FeesKnown(hash: Transaction -> TxHash, feeOf: TxHash -> U64, rs: seq<Request>) {
    forall i :: 0 <= i < |rs| && rs[i].Insert? ==> feeOf(hash(rs[i].tx)) == rs[i].tx.fee
  }

  lemma CountersGrow(s: State, cfg: Config, hash: Transaction -> TxHash, r: Request)
    ensures After(s, cfg, hash, r).expired >= s.expired && After(s, cfg, hash, r).taken >= s.taken
  {
  }

  /** A request that neither expires nor takes anything out, and is no offer, changes nothing. */
  lemma IdleRequest(s: State, cfg: Config, hash: Transaction -> TxHash, r: Request)
    requires !r.Insert? && After(s, cfg, hash, r).expired == s.expired && After(s, cfg, hash, r).taken == s.taken
    ensures After(s, cfg, hash, r) == s
  {
    match r {
      case Drain(limit) =>
        assert Top(s.pool.bySeq, limit) == [];
        assert Elements([]) == {};
        assert Without(s.pool, {}) == s.pool;
      case Remove(h) =>
      case Expire(now) =>
        NothingExpired(s, cfg.maxAge, now);
    }
  }

  /** In any run in which nothing expires and nothing is taken out, the pool holds the maxSize best-paying
  of the distinct eligible transactions offered, or all of them. */
  lemma {:induction false} OnlineTopK(cfg: Config, hash: Transaction -> TxHash, feeOf: TxHash -> U64, rs: seq<Request>)
    requires FeesKnown(hash, feeOf, rs) && Run(cfg, hash, rs).expired == 0 && Run(cfg, hash, rs).taken == 0
    ensures var p := Run(cfg, hash, rs).pool;
      Tracked(p, feeOf) && Best(p.byHash.Keys, Offered(cfg, hash, rs), cfg.maxSize, feeOf)
    decreases |rs|
  {
    if rs == [] {
      assert Offered(cfg, hash, rs) == {};
    } else {
      var n := |rs| - 1;
      var s, r := Run(cfg, hash, rs[..n]), rs[n];
      RunUnfold(cfg, hash, rs);
      CountersGrow(s, cfg, hash, r);
      OnlineTopK(cfg, hash, feeOf, rs[..n]);
      OfferedStep(cfg, hash, rs);
      hide Best;
      hide Offered;
      hide Tracked;
      if r.Insert? {
        RunOk(cfg, hash, rs[..n]);
        InsertKeepsBest(s, cfg, hash(r.tx), r.tx, r.now, feeOf, Offered(cfg, hash, rs[..n]));
      } else {
        IdleRequest(s, cfg, hash, r);
      }
    }
  }

  lemma RunUnfold(cfg: Config, hash: Transaction -> TxHash, rs: seq<Request>)
    requires rs != []
    ensures Run(cfg, hash, rs) == After(Run(cfg, hash, rs[..|rs| - 1]), cfg, hash, rs[|rs| - 1])
  {
  }

  // ---------- one age window ----------

  predicate InWindow(cfg: Config, since: U64, rs: seq<Request>) {
    forall i :: 0 <= i < |rs| ==> rs[i].Insert? && since <= rs[i].now <= since + cfg.maxAge
  }

  ghost predicate ReceivedSince(p: Pool, since: U64) {
    forall q :: q in p.bySeq ==> p.bySeq[q].receivedAt >= since
  }

  lemma WindowInsert(s: State, cfg: Config, h: TxHash, tx: Transaction, now: U64, since: U64)
    requires ReceivedSince(s.pool, since) && since <= now <= since + cfg.maxAge
    ensures var t := AfterInsert(s, cfg, h, tx, now).0;
      ReceivedSince(t.pool, since) && t.expired == s.expired && t.taken == s.taken
  {
    assert Stale(s.pool.bySeq, cfg.maxAge, now) == {};
  }

  /** For instance, inserts within one age window expire nothing. */
  lemma {:induction false} WindowExpiresNothing(cfg: Config, hash: Transaction -> TxHash, since: U64, rs: seq<Request>)
    requires InWindow(cfg, since, rs)
    ensures ReceivedSince(Run(cfg, hash, rs).pool, since)
    ensures Run(cfg, hash, rs).expired == 0 && Run(cfg, hash, rs).taken == 0
    decreases |rs|
  {
    if rs != [] {
      var n := |rs| - 1;
      WindowExpiresNothing(cfg, hash, since, rs[..n]);
      WindowInsert(Run(cfg, hash, rs[..n]), cfg, hash(rs[n].tx), rs[n].tx, rs[n].now, since);
      RunUnfold(cfg, hash, rs);
      hide Run;
      hide AfterInsert;
    }
  }

  lemma OfferedStep(cfg: Config, hash: Transaction -> TxHash, rs: seq<Request>)
    requires rs != []
    ensures var n := |rs| - 1;
      Offered(cfg, hash, rs) == Offered(cfg, hash, rs[..n]) +
      if rs[n].Insert? && Eligible(cfg, rs[n].tx) then {hash(rs[n].tx)} else {}
  {
    var n := |rs| - 1;
    var before := Offered(cfg, hash, rs[..n]);
    forall h | h in Offered(cfg, hash, rs)
      ensures h in before || (rs[n].Insert? && Eligible(cfg, rs[n].tx) && h == hash(rs[n].tx))
    {
      var i :| 0 <= i < |rs| && rs[i].Insert? && Eligible(cfg, rs[i].tx) && h == hash(rs[i].tx);
      if i < n { assert rs[..n][i] == rs[i]; }
    }
    forall h | h in before ensures h in Offered(cfg, hash, rs) {
      var i :| 0 <= i < n && rs[..n][i].Insert? && Eligible(cfg, rs[..n][i].tx) && h == hash(rs[..n][i].tx);
      assert rs[..n][i] == rs[i];
    }
  }
}
