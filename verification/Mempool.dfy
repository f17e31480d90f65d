/** The mempool as the program keeps it: two maps and counters updated in place. */
module Mempool {
  import opened Bytes
  import opened Wrappers
  import opened Transactions
  import opened MempoolModel

  function TransactionsOf(bySeq: map<nat, Entry>, seqs: seq<nat>): (txs: seq<Transaction>)
    requires forall q :: q in seqs ==> q in bySeq
    ensures |txs| == |seqs| && forall i :: 0 <= i < |seqs| ==> txs[i] == bySeq[seqs[i]].tx
  {
    seq(|seqs|, i requires 0 <= i < |seqs| => bySeq[seqs[i]].tx)
  }

  /** The first entry in eviction or draining order, by one pass over the entries. */
  method FindFirst(bySeq: map<nat, Entry>, dear: bool) returns (a: nat)
    requires bySeq != map[]
    ensures a == First(bySeq, dear)
  {
    a :| a in bySeq;
    var left := bySeq.Keys - {a};
    while left != {}
      invariant left <= bySeq.Keys && a in bySeq && a !in left
      invariant forall b :: b in bySeq && b !in left && b != a ==> Before(bySeq, dear, a, b)
      decreases left
    {
      var b :| b in left;
      if Before(bySeq, dear, b, a) {
        a := b;
      }
      left := left - {b};
    }
    FirstUnique(bySeq, dear, a);
  }

  /** All entries in draining order. */
  method SortEntries(bySeq: map<nat, Entry>) returns (ordered: seq<nat>)
    ensures ordered == Top(bySeq, |bySeq|)
  {
    hide Top;
    ordered := [];
    var rest := bySeq;
    assert ordered + Top(rest, |rest|) == Top(rest, |rest|);
    while rest != map[]
      invariant Top(bySeq, |bySeq|) == ordered + Top(rest, |rest|)
      decreases |rest|
    {
      var a := FindFirst(rest, true);
      TopUnfold(rest, |rest|);
      RemoveSize(rest, a);
      ghost var tail := Top(rest - {a}, |rest| - 1);
      assert ordered + ([a] + tail) == ordered + [a] + tail;
      ordered := ordered + [a];
      rest := rest - {a};
    }
    TopUnfold(rest, |rest|);
    assert ordered + [] == ordered;
  }

  lemma {:induction false} TopPrefix(bySeq: map<nat, Entry>, n: nat, m: nat)
    requires n <= m
    ensures |Top(bySeq, n)| <= |Top(bySeq, m)| && Top(bySeq, n) == Top(bySeq, m)[..|Top(bySeq, n)|]
    decreases n
  {
    hide Top;
    TopUnfold(bySeq, n);
    TopUnfold(bySeq, m);
    if n > 0 && bySeq != map[] {
      var a := First(bySeq, true);
      TopPrefix(bySeq - {a}, n - 1, m - 1);
    }
  }

  /** Removing in two goes. */
  lemma WithoutTwice(p: Pool, a: set<nat>, b: set<nat>)
    ensures Without(Without(p, a), b) == Without(p, a + b)
  {
    assert p.bySeq - a - b == p.bySeq - (a + b);
  }

  lemma NothingRemoved(p: Pool)
    ensures Without(p, Elements([])) == p
  {
    assert Elements([]) == {};
  }

  lemma StillThere(p: Pool, seqs: seq<nat>, i: nat)
    requires i < |seqs| && seqs[i] in p.bySeq && forall i, j :: 0 <= i < j < |seqs| ==> seqs[i] != seqs[j]
    ensures var p' := Without(p, Elements(seqs[..i])); seqs[i] in p'.bySeq && p'.bySeq[seqs[i]] == p.bySeq[seqs[i]]
  {
  }

  /** The elements of a set, in some order. */
  method ListOf(s: set<nat>) returns (list: seq<nat>)
    ensures Elements(list) == s && forall i, j :: 0 <= i < j < |list| ==> list[i] != list[j]
  {
    list := [];
    var left := s;
    while left != {}
      invariant left <= s && Elements(list) == s - left
      invariant forall i, j :: 0 <= i < j < |list| ==> list[i] != list[j]
      decreases left
    {
      var q :| q in left;
      assert q !in Elements(list) && Elements(list + [q]) == Elements(list) + {q};
      list := list + [q];
      left := left - {q};
    }
  }

  class Mempool {
    const config: Config
    const hash: Transaction -> TxHash
    var byHash: map<TxHash, nat>
    var bySeq: map<nat, Entry>
    var nextSeq: nat
    var totalAccepted: nat
    var totalRejected: nat
    var totalEvicted: nat
    var totalExpired: nat
    ghost var taken: nat

    ghost function Pool(): Pool reads this`byHash, this`bySeq, this`nextSeq {
      MempoolModel.Pool(byHash, bySeq, nextSeq)
    }

    ghost function State(): State reads this {
      MempoolModel.State(Pool(), totalAccepted, totalRejected, totalEvicted, totalExpired, taken)
    }

    ghost predicate Valid() reads this {
      Ok(State(), config)
    }

    constructor (config: Config, hash: Transaction -> TxHash)
      ensures Valid() && this.config == config && this.hash == hash && State() == EMPTY
    {
      this.config, this.hash := config, hash;
      byHash, bySeq, nextSeq := map[], map[], 0;
      totalAccepted, totalRejected, totalEvicted, totalExpired, taken := 0, 0, 0, 0, 0;
    }

    method RemoveSeq(q: nat) returns (entry: Option<Entry>)
      requires Inverse(Pool())
      modifies this`byHash, this`bySeq
      ensures Inverse(Pool()) && Pool() == Without(old(Pool()), {q})
      ensures entry == if q in old(bySeq) then Some(old(bySeq)[q]) else None
    {
      WithoutInverse(Pool(), {q});
      if q !in bySeq {
        assert Without(Pool(), {q}) == Pool();
        return None;
      }
      entry := Some(bySeq[q]);
      bySeq := bySeq - {q};
      byHash := byHash - {entry.value.hash};
    }

    /** Remove the listed entries one by one, returning their transactions. */
    method RemoveAll(seqs: seq<nat>) returns (out: seq<Transaction>)
      requires Inverse(Pool()) && (forall q :: q in seqs ==> q in bySeq)
      requires forall i, j :: 0 <= i < j < |seqs| ==> seqs[i] != seqs[j]
      modifies this`byHash, this`bySeq
      ensures Pool() == Without(old(Pool()), Elements(seqs))
      ensures out == TransactionsOf(old(bySeq), seqs)
    {
      ghost var before := Pool();
      assert Without(before, {}) == before;
      hide Inverse;
      out := [];
      for i := 0 to |seqs|
        invariant Inverse(Pool()) && Pool() == Without(before, Elements(seqs[..i]))
        invariant out == TransactionsOf(before.bySeq, seqs[..i])
      {
        StillThere(before, seqs, i);
        hide Without;
        var entry := RemoveSeq(seqs[i]);
        if entry.Some? {
          out := out + [entry.value.tx];
        }
        WithoutTwice(before, Elements(seqs[..i]), {seqs[i]});
        assert seqs[..i + 1] == seqs[..i] + [seqs[i]];
        assert Elements(seqs[..i + 1]) == Elements(seqs[..i]) + {seqs[i]};
      }
      assert seqs[..|seqs|] == seqs;
    }

    method ExpireLocked(now: U64) returns (n: nat)
      requires Valid()
      modifies this`byHash, this`bySeq, this`totalExpired
      ensures Valid() && State() == AfterExpire(old(State()), config.maxAge, now)
      ensures n == |Stale(old(bySeq), config.maxAge, now)|
    {
      ghost var before, after := State(), AfterExpire(State(), config.maxAge, now);
      ExpireKeeps(before, config, now);
      hide Inverse;
      hide Without;
      hide Stale;
      n := DropStale(now);
      assert State() == after.(expired := before.expired);
      totalExpired := totalExpired + n;
      assert State() == after;
    }

    method DropStale(now: U64) returns (n: nat)
      requires Inverse(Pool())
      modifies this`byHash, this`bySeq
      ensures Pool() == Without(old(Pool()), Stale(old(bySeq), config.maxAge, now))
      ensures n == |Stale(old(bySeq), config.maxAge, now)|
    {
      hide Inverse;
      hide Without;
      var stale := ListOf(Stale(bySeq, config.maxAge, now));
      n := |stale|;
      DistinctSize(stale);
      assert forall q :: q in stale ==> q in Elements(stale);
      hide Elements;
      var dropped := RemoveAll(stale);
    }

    /** Prune entries past their age. */
    method Expire(now: U64) returns (n: nat)
      requires Valid()
      modifies this`byHash, this`bySeq, this`totalExpired
      ensures Valid() && State() == AfterExpire(old(State()), config.maxAge, now)
      ensures n == |Stale(old(bySeq), config.maxAge, now)|
    {
      n := ExpireLocked(now);
    }

    /** Admit a transaction, evicting the cheapest entry of a full pool for a dearer one. */
    method Insert(tx: Transaction, now: U64) returns (result: Admission)
      requires Valid()
      modifies this
      ensures Valid() && (State(), result) == AfterInsert(old(State()), config, hash(tx), tx, now)
    {
      InsertKeeps(State(), config, hash(tx), tx, now);
      if !tx.signatureOk {
        totalRejected := totalRejected + 1;
        return Refused(InvalidSignature);
      }
      if tx.fee < config.minFee {
        totalRejected := totalRejected + 1;
        return Refused(FeeTooLow);
      }
      var h := hash(tx);
      if h in byHash {
        totalRejected := totalRejected + 1;
        return Refused(Duplicate);
      }
      var n := ExpireLocked(now);
      result := Admit(h, tx, now);
    }

    method Admit(h: TxHash, tx: Transaction, now: U64) returns (result: Admission)
      requires Inverse(Pool())
      modifies this
      ensures (State(), result) == AfterAdmit(old(State()), config, h, tx, now)
    {
      hide Inverse;
      hide Without;
      if |bySeq| >= config.maxSize {
        if bySeq == map[] {
          totalRejected := totalRejected + 1;
          return Refused(Full);
        }
        var victim := FindFirst(bySeq, false);
        if tx.fee <= bySeq[victim].fee {
          totalRejected := totalRejected + 1;
          return Refused(Full);
        }
        var entry := RemoveSeq(victim);
        totalEvicted := totalEvicted + 1;
      }
      var q := nextSeq;
      nextSeq := nextSeq + 1;
      byHash := byHash[h := q];
      bySeq := bySeq[q := Entry(h, tx, tx.fee, now)];
      totalAccepted := totalAccepted + 1;
      result := Admitted(h);
    }

    /** Take out up to `limit` transactions, highest fee first, equal fees by arrival. */
    method Drain(limit: nat) returns (out: seq<Transaction>)
      requires Valid()
      modifies this
      ensures Valid() && State() == AfterDrain(old(State()), limit)
      ensures (forall q :: q in Top(old(bySeq), limit) ==> q in old(bySeq)) &&
              out == TransactionsOf(old(bySeq), Top(old(bySeq), limit))
    {
      ghost var before, after := State(), AfterDrain(State(), limit);
      DrainKeeps(before, config, limit);
      out := TakeTop(limit);
      taken := taken + |out|;
      assert State() == after;
    }

    method TakeTop(limit: nat) returns (out: seq<Transaction>)
      requires Inverse(Pool())
      modifies this`byHash, this`bySeq
      ensures Pool() == Without(old(Pool()), Elements(Top(old(bySeq), limit)))
      ensures (forall q :: q in Top(old(bySeq), limit) ==> q in old(bySeq)) &&
              out == TransactionsOf(old(bySeq), Top(old(bySeq), limit))
    {
      TopLists(bySeq, limit);
      hide Inverse;
      hide Without;
      hide Top;
      hide Elements;
      if limit == 0 || bySeq == map[] {
        NothingRemoved(Pool());
        return [];
      }
      var ordered := SortEntries(bySeq);
      var take := if limit < |ordered| then limit else |ordered|;
      TopPrefixExact(bySeq, limit);
      out := RemoveAll(ordered[..take]);
    }

    /** Take out one transaction by its hash. */
    method Remove(h: TxHash) returns (tx: Option<Transaction>)
      requires Valid()
      modifies this
      ensures Valid() && State() == AfterRemove(old(State()), h)
      ensures tx == if h in old(byHash) then Some(old(bySeq)[old(byHash)[h]].tx) else None
    {
      RemoveKeeps(State(), config, h);
      hide Without;
      if h !in byHash { return None; }
      var entry := RemoveSeq(byHash[h]);
      taken := taken + 1;
      tx := Some(entry.value.tx);
    }
  }

  lemma TopPrefixExact(bySeq: map<nat, Entry>, limit: nat)
    ensures var ordered := Top(bySeq, |bySeq|);
      var take := if limit < |ordered| then limit else |ordered|;
      ordered[..take] == Top(bySeq, limit)
  {
    hide Top;
    TopMembers(bySeq, |bySeq|);
    TopMembers(bySeq, limit);
    if limit <= |bySeq| {
      TopPrefix(bySeq, limit, |bySeq|);
    } else {
      TopPrefix(bySeq, |bySeq|, limit);
      assert Top(bySeq, limit)[..|bySeq|] == Top(bySeq, limit);
    }
  }
}
