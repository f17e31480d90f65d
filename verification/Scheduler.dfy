/** The batch scheduler: greedy grouping of queued transactions into conflict-free batches. */
module Scheduler {
  import opened Bytes
  import opened Wrappers
  import opened Ledger
  import opened Transactions

  datatype Batch = Batch(index: nat, transactions: seq<Transaction>, totalCompute: U64)

  datatype Limits = Limits(size: nat, compute: U64)

  function SumCompute(txs: seq<Transaction>): nat {
    if txs == [] then 0 else SumCompute(txs[..|txs| - 1]) + txs[|txs| - 1].computeBudget
  }

  /** The 64-bit sum that a batch keeps. */
  function TotalCompute(txs: seq<Transaction>): U64 { Wrap(SumCompute(txs)) }

  ghost predicate NoConflict(batch: seq<Transaction>, tx: Transaction) {
    forall i :: 0 <= i < |batch| ==> !ConflictsWith(batch[i], tx)
  }

  /** Whether the open batch takes the transaction: there is room, the compute budget fits and
  nothing conflicts; an empty batch also takes a transaction that exceeds the compute cap alone. */
  ghost predicate Accepts(batch: seq<Transaction>, tx: Transaction, lim: Limits) {
    && |batch| < lim.size
    && if Wrap(SumCompute(batch) + tx.computeBudget) > lim.compute then batch == [] else NoConflict(batch, tx)
  }

  /** One pass over the queue: the filled batch and what is left, in queue order. */
  ghost function Fill(queue: seq<Transaction>, batch: seq<Transaction>, lim: Limits): (seq<Transaction>, seq<Transaction>) {
    if queue == [] then (batch, [])
    else if Accepts(batch, queue[0], lim) then Fill(queue[1..], batch + [queue[0]], lim)
    else
      var r := Fill(queue[1..], batch, lim);
      (r.0, [queue[0]] + r.1)
  }

  lemma FillUnfold(queue: seq<Transaction>, batch: seq<Transaction>, lim: Limits)
    requires queue != []
    ensures if Accepts(batch, queue[0], lim) then Fill(queue, batch, lim) == Fill(queue[1..], batch + [queue[0]], lim)
            else var r := Fill(queue[1..], batch, lim); Fill(queue, batch, lim) == (r.0, [queue[0]] + r.1)
  {
  }

  lemma FillEmpty(batch: seq<Transaction>, lim: Limits)
    ensures Fill([], batch, lim) == (batch, [])
  {
  }

  lemma {:induction false} FillGrows(queue: seq<Transaction>, batch: seq<Transaction>, lim: Limits)
    ensures batch <= Fill(queue, batch, lim).0
    ensures |Fill(queue, batch, lim).0| + |Fill(queue, batch, lim).1| == |batch| + |queue|
    decreases |queue|
  {
    if queue != [] {
      if Accepts(batch, queue[0], lim) {
        FillGrows(queue[1..], batch + [queue[0]], lim);
        assert batch <= batch + [queue[0]];
      } else {
        FillGrows(queue[1..], batch, lim);
      }
    }
  }

  /** All passes: the new batches in order, and what no batch could take. */
  ghost function Batches(queue: seq<Transaction>, lim: Limits): (r: (seq<seq<Transaction>>, seq<Transaction>))
    decreases |queue|
  {
    var f := Fill(queue, [], lim);
    FillGrows(queue, [], lim);
    if queue == [] || f.0 == [] then ([], queue)
    else
      var r := Batches(f.1, lim);
      ([f.0] + r.0, r.1)
  }

  function Flatten(bs: seq<seq<Transaction>>): seq<Transaction> {
    if bs == [] then [] else bs[0] + Flatten(bs[1..])
  }

  // ---------- what one pass guarantees ----------

  lemma Regroup<T>(a: multiset<T>, x: multiset<T>, b: multiset<T>, c: multiset<T>, d: multiset<T>)
    requires a + b == c + d
    ensures a + (x + b) == c + (x + d)
  {
    assert a + (x + b) == x + (a + b);
    assert c + (x + d) == x + (c + d);
  }

  lemma {:induction false} FillPermutes(queue: seq<Transaction>, batch: seq<Transaction>, lim: Limits)
    ensures multiset(Fill(queue, batch, lim).0) + multiset(Fill(queue, batch, lim).1) == multiset(batch) + multiset(queue)
    decreases |queue|
  {
    if queue != [] {
      assert queue == [queue[0]] + queue[1..];
      if Accepts(batch, queue[0], lim) {
        FillPermutes(queue[1..], batch + [queue[0]], lim);
      } else {
        FillPermutes(queue[1..], batch, lim);
        var r := Fill(queue[1..], batch, lim);
        assert Fill(queue, batch, lim) == (r.0, [queue[0]] + r.1);
        Regroup(multiset(r.0), multiset([queue[0]]), multiset(r.1), multiset(batch), multiset(queue[1..]));
      }
    }
  }

  /** Pairwise conflict-free, within size, and within compute unless a single transaction. */
  ghost predicate WellFormed(batch: seq<Transaction>, lim: Limits) {
    && (forall i, j :: 0 <= i < j < |batch| ==> !ConflictsWith(batch[i], batch[j]))
    && |batch| <= lim.size
    && (TotalCompute(batch) <= lim.compute || |batch| == 1)
  }

  lemma AcceptKeepsWellFormed(batch: seq<Transaction>, tx: Transaction, lim: Limits)
    requires WellFormed(batch, lim) && Accepts(batch, tx, lim)
    ensures WellFormed(batch + [tx], lim)
  {
    var b := batch + [tx];
    assert b[..|batch|] == batch;
    forall i, j | 0 <= i < j < |b| ensures !ConflictsWith(b[i], b[j]) {
      if j == |batch| { assert !ConflictsWith(batch[i], tx); }
    }
  }

  lemma {:induction false} FillWellFormed(queue: seq<Transaction>, batch: seq<Transaction>, lim: Limits)
    requires WellFormed(batch, lim)
    ensures WellFormed(Fill(queue, batch, lim).0, lim)
    decreases |queue|
  {
    if queue != [] {
      if Accepts(batch, queue[0], lim) {
        AcceptKeepsWellFormed(batch, queue[0], lim);
        FillWellFormed(queue[1..], batch + [queue[0]], lim);
      } else {
        FillWellFormed(queue[1..], batch, lim);
      }
    }
  }

  lemma {:induction false} SumComputePrefix(a: seq<Transaction>, b: seq<Transaction>)
    requires a <= b
    ensures SumCompute(a) <= SumCompute(b)
    decreases |b|
  {
    if a != b {
      assert a <= b[..|b| - 1];
      SumComputePrefix(a, b[..|b| - 1]);
    }
  }

  /** A refusal by a batch is a refusal by every larger one whose sum does not overflow. */
  lemma RefusalLasts(small: seq<Transaction>, big: seq<Transaction>, tx: Transaction, lim: Limits)
    requires small <= big && !Accepts(small, tx, lim) && SumCompute(big) + tx.computeBudget < U64_LIMIT
    ensures !Accepts(big, tx, lim)
  {
    SumComputePrefix(small, big);
    WrapSmall(SumCompute(small) + tx.computeBudget);
    WrapSmall(SumCompute(big) + tx.computeBudget);
    hide Wrap;
    if NoConflict(big, tx) {
      assert forall i :: 0 <= i < |small| ==> small[i] == big[i];
      assert NoConflict(small, tx);
    }
  }

  /** Greedy maximality: the finished batch could take a transaction left behind only if the 64-bit sum
  overflowed. */
  lemma {:induction false} FillMaximal(queue: seq<Transaction>, batch: seq<Transaction>, lim: Limits, tx: Transaction)
    requires tx in Fill(queue, batch, lim).1 && Accepts(Fill(queue, batch, lim).0, tx, lim)
    ensures SumCompute(Fill(queue, batch, lim).0) + tx.computeBudget >= U64_LIMIT
    decreases |queue|
  {
    hide Accepts;
    hide SumCompute;
    FillUnfold(queue, batch, lim);
    if Accepts(batch, queue[0], lim) {
      FillMaximal(queue[1..], batch + [queue[0]], lim, tx);
    } else {
      var f := Fill(queue[1..], batch, lim);
      FillGrows(queue[1..], batch, lim);
      if tx in f.1 {
        FillMaximal(queue[1..], batch, lim, tx);
      } else if SumCompute(f.0) + tx.computeBudget < U64_LIMIT {
        RefusalLasts(batch, f.0, tx, lim);
      }
    }
  }

  function Take(s: seq<Transaction>, n: nat): seq<Transaction> {
    if n <= |s| then s[..n] else s
  }

  /** What is left of the first n queued transactions is at the front of what is left. */
  lemma {:induction false} FillPrefix(queue: seq<Transaction>, batch: seq<Transaction>, lim: Limits, n: nat)
    requires n <= |queue|
    ensures var f := Fill(queue, batch, lim);
      multiset(batch) + multiset(queue[..n]) <= multiset(f.0) + multiset(Take(f.1, n))
    decreases |queue|
  {
    hide Accepts;
    if n == 0 {
      FillGrows(queue, batch, lim);
      var b := Fill(queue, batch, lim).0;
      assert b == batch + b[|batch|..];
      assert queue[..n] == [];
    } else {
      var x, rest := queue[0], queue[1..];
      assert queue[..n] == [x] + rest[..n - 1];
      if Accepts(batch, x, lim) {
        FillPrefix(rest, batch + [x], lim, n - 1);
        var f := Fill(rest, batch + [x], lim);
        assert Fill(queue, batch, lim) == f;
        TakeMore(f.1, n - 1);
        assert multiset(batch + [x]) + multiset(rest[..n - 1]) == multiset(batch) + multiset(queue[..n]);
      } else {
        FillPrefix(rest, batch, lim, n - 1);
        var f := Fill(rest, batch, lim);
        assert Fill(queue, batch, lim) == (f.0, [x] + f.1);
        TakeCons(x, f.1, n);
        RegroupLe(multiset(batch), multiset([x]), multiset(rest[..n - 1]), multiset(f.0), multiset(Take(f.1, n - 1)));
      }
    }
  }

  lemma TakeCons(x: Transaction, s: seq<Transaction>, n: nat)
    requires n > 0
    ensures multiset(Take([x] + s, n)) == multiset([x]) + multiset(Take(s, n - 1))
  {
    assert Take([x] + s, n) == [x] + Take(s, n - 1);
  }

  lemma RegroupLe<T>(a: multiset<T>, x: multiset<T>, b: multiset<T>, c: multiset<T>, d: multiset<T>)
    requires a + b <= c + d
    ensures a + (x + b) <= c + (x + d)
  {
    assert a + (x + b) == x + (a + b);
    assert c + (x + d) == x + (c + d);
  }

  lemma TakeMore(s: seq<Transaction>, n: nat)
    ensures multiset(Take(s, n)) <= multiset(Take(s, n + 1))
  {
    if n + 1 <= |s| {
      assert s[..n + 1] == s[..n] + [s[n]];
    } else if n == |s| {
      assert s[..n] == s;
    }
  }

  // ---------- what scheduling guarantees ----------

  lemma FlattenCons(b: seq<Transaction>, bs: seq<seq<Transaction>>)
    ensures Flatten([b] + bs) == b + Flatten(bs)
    ensures multiset(Flatten([b] + bs)) == multiset(b) + multiset(Flatten(bs))
  {
    assert ([b] + bs)[1..] == bs;
  }

  /** The new batches and the leftovers are a permutation of the queue. */
  lemma {:induction false} SchedulePermutes(queue: seq<Transaction>, lim: Limits)
    ensures multiset(Flatten(Batches(queue, lim).0)) + multiset(Batches(queue, lim).1) == multiset(queue)
    decreases |queue|
  {
    var f := Fill(queue, [], lim);
    FillGrows(queue, [], lim);
    if queue != [] && f.0 != [] {
      FillPermutes(queue, [], lim);
      SchedulePermutes(f.1, lim);
      var r := Batches(f.1, lim);
      FlattenCons(f.0, r.0);
      assert Batches(queue, lim) == ([f.0] + r.0, r.1);
      assert multiset(f.0) + multiset(Flatten(r.0)) + multiset(r.1) == multiset(f.0) + (multiset(Flatten(r.0)) + multiset(r.1));
    }
  }

  /** Every batch is nonempty, conflict-free and within the limits. */
  lemma {:induction false} ScheduleWellFormed(queue: seq<Transaction>, lim: Limits)
    ensures forall b :: b in Batches(queue, lim).0 ==> b != [] && WellFormed(b, lim)
    decreases |queue|
  {
    hide WellFormed;
    var f := Fill(queue, [], lim);
    FillGrows(queue, [], lim);
    if queue != [] && f.0 != [] {
      EmptyWellFormed(lim);
      FillWellFormed(queue, [], lim);
      ScheduleWellFormed(f.1, lim);
    }
  }

  lemma EmptyWellFormed(lim: Limits)
    ensures WellFormed([], lim)
  {
  }

  /** The true sum of every batch is within the limit, unless it is a singleton or overflows 64 bits. */
  lemma ScheduleWithinCompute(queue: seq<Transaction>, lim: Limits, b: seq<Transaction>)
    requires b in Batches(queue, lim).0
    ensures SumCompute(b) <= lim.compute || |b| == 1 || SumCompute(b) >= U64_LIMIT
  {
    ScheduleWellFormed(queue, lim);
    if SumCompute(b) < U64_LIMIT { WrapSmall(SumCompute(b)); }
  }

  /** Transactions placed after batch i, or left over. */
  ghost predicate PlacedAfter(r: (seq<seq<Transaction>>, seq<Transaction>), i: nat, tx: Transaction)
    requires i < |r.0|
  {
    tx in Flatten(r.0[i + 1..]) || tx in r.1
  }

  lemma {:induction false} LaterOnlyByOverflow(queue: seq<Transaction>, lim: Limits, i: nat, tx: Transaction)
    requires i < |Batches(queue, lim).0| && PlacedAfter(Batches(queue, lim), i, tx)
    requires Accepts(Batches(queue, lim).0[i], tx, lim)
    ensures SumCompute(Batches(queue, lim).0[i]) + tx.computeBudget >= U64_LIMIT
    decreases |queue|
  {
    hide Accepts;
    hide SumCompute;
    var f := Fill(queue, [], lim);
    FillGrows(queue, [], lim);
    var inner, r := Batches(f.1, lim), Batches(queue, lim);
    assert r == ([f.0] + inner.0, inner.1);
    if i == 0 {
      assert r.0[1..] == inner.0;
      SchedulePermutes(f.1, lim);
      assert tx in multiset(Flatten(inner.0)) + multiset(inner.1);
      assert tx in multiset(f.1);
      FillMaximal(queue, [], lim, tx);
    } else {
      assert r.0[i + 1..] == inner.0[i..];
      LaterOnlyByOverflow(f.1, lim, i - 1, tx);
    }
  }

  /** Exactly when a batch could take a transaction that was placed later or left over: there is room,
  nothing conflicts, and the sum with it overflows to a value within the limit. So without overflow no
  batch could. */
  lemma ScheduleMaximal(queue: seq<Transaction>, lim: Limits, i: nat, tx: Transaction)
    requires i < |Batches(queue, lim).0| && PlacedAfter(Batches(queue, lim), i, tx)
    ensures var b := Batches(queue, lim).0[i];
      var sum := SumCompute(b) + tx.computeBudget;
      Accepts(b, tx, lim) <==> |b| < lim.size && NoConflict(b, tx) && sum >= U64_LIMIT && Wrap(sum) <= lim.compute
  {
    var b := Batches(queue, lim).0[i];
    ScheduleWellFormed(queue, lim);
    assert b in Batches(queue, lim).0 && b != [];
    if Accepts(b, tx, lim) { LaterOnlyByOverflow(queue, lim, i, tx); }
  }

  function Plain(compute: U64): Transaction { Transaction(true, 7, [], [], compute, 5000) }

  lemma PlainApart(a: U64, b: U64)
    ensures !ConflictsWith(Plain(a), Plain(b))
  {
  }

  const SMALL_LIMITS := Limits(10, 10)

  /** Overflow breaks maximality: after budgets of 6 and 2^64 - 6 the sum has wrapped to 0, and the batch
  would take the budget of 5 that it refused in between. */
  lemma OverflowBreaksMaximality()
    ensures var a, b, c := Plain(6), Plain(5), Plain(U64_LIMIT - 6);
      Fill([a, b, c], [], SMALL_LIMITS) == ([a, c], [b]) && Accepts([a, c], b, SMALL_LIMITS)
  {
    var a, b, c := Plain(6), Plain(5), Plain(U64_LIMIT - 6);
    PlainApart(6, U64_LIMIT - 6);
    PlainApart(6, 5);
    PlainApart(U64_LIMIT - 6, 5);
    assert SumCompute([a]) == 6 by { assert [a][..0] == []; }
    assert SumCompute([a, c]) == U64_LIMIT by { assert [a, c][..1] == [a]; }
    assert Accepts([], a, SMALL_LIMITS) && !Accepts([a], b, SMALL_LIMITS) && Accepts([a], c, SMALL_LIMITS);
    hide Accepts;
    var q := [a, b, c];
    assert q[1..] == [b, c] && [b, c][1..] == [c] && [c][1..] == [];
    FillUnfold([c], [a], SMALL_LIMITS);
    FillUnfold([b, c], [a], SMALL_LIMITS);
    FillUnfold(q, [], SMALL_LIMITS);
    FillEmpty([a, c], SMALL_LIMITS);
    assert [a] + [c] == [a, c] && [] + [a] == [a] && [b] + [] == [b];
  }

  lemma FirstIsTaken(queue: seq<Transaction>, lim: Limits)
    requires queue != [] && lim.size > 0
    ensures Accepts([], queue[0], lim) && Fill(queue, [], lim).0 != []
  {
    FillGrows(queue[1..], [] + [queue[0]], lim);
  }

  function FlattenFirst(bs: seq<seq<Transaction>>, n: nat): seq<Transaction> {
    Flatten(if n <= |bs| then bs[..n] else bs)
  }

  /** With a nonzero batch size the first n queued transactions are all in the first n batches, so
  nothing is left over and the i-th one (from 0) is in one of the first i + 1. */
  lemma {:induction false} ScheduleIsFair(queue: seq<Transaction>, lim: Limits, n: nat)
    requires lim.size > 0 && n <= |queue|
    ensures multiset(queue[..n]) <= multiset(FlattenFirst(Batches(queue, lim).0, n))
    ensures Batches(queue, lim).1 == []
    decreases |queue|
  {
    if queue != [] {
      var f := Fill(queue, [], lim);
      FillGrows(queue, [], lim);
      FirstIsTaken(queue, lim);
      var inner := Batches(f.1, lim);
      assert Batches(queue, lim) == ([f.0] + inner.0, inner.1);
      hide Fill;
      hide Batches;
      hide Flatten;
      var m := if n == 0 then 0 else if n - 1 <= |f.1| then n - 1 else |f.1|;
      ScheduleIsFair(f.1, lim, m);
      if n > 0 {
        FairFirst(queue, lim, n);
        FlattenMore(f.0, inner.0, n);
        FlattenMono(inner.0, m, n - 1);
        FairStep(queue[..n], f.0, f.1[..m], FlattenFirst(inner.0, m), FlattenFirst(inner.0, n - 1));
      }
    }
    assert n == 0 ==> queue[..n] == [];
  }

  lemma FairStep(first: seq<Transaction>, b: seq<Transaction>, rest: seq<Transaction>,
                 placed: seq<Transaction>, more: seq<Transaction>)
    requires multiset(first) <= multiset(b) + multiset(rest)
    requires multiset(rest) <= multiset(placed) && multiset(placed) <= multiset(more)
    ensures multiset(first) <= multiset(b) + multiset(more)
  {
  }

  lemma FairFirst(queue: seq<Transaction>, lim: Limits, n: nat)
    requires queue != [] && lim.size > 0 && 0 < n <= |queue|
    ensures var f := Fill(queue, [], lim);
      multiset(queue[..n]) <= multiset(f.0) + multiset(f.1[..if n - 1 <= |f.1| then n - 1 else |f.1|])
  {
    FirstIsTaken(queue, lim);
    var x, rest := queue[0], queue[1..];
    assert queue[..n] == [x] + rest[..n - 1];
    FillPrefix(rest, [] + [x], lim, n - 1);
    var f := Fill(queue, [], lim);
    assert f == Fill(rest, [] + [x], lim);
    assert f.1[..if n - 1 <= |f.1| then n - 1 else |f.1|] == Take(f.1, n - 1);
  }

  lemma FlattenMore(b: seq<Transaction>, bs: seq<seq<Transaction>>, n: nat)
    requires n > 0
    ensures FlattenFirst([b] + bs, n) == b + FlattenFirst(bs, n - 1)
    ensures multiset(FlattenFirst([b] + bs, n)) == multiset(b) + multiset(FlattenFirst(bs, n - 1))
  {
    var cs := [b] + bs;
    var first := if n <= |cs| then cs[..n] else cs;
    assert first[1..] == if n - 1 <= |bs| then bs[..n - 1] else bs;
  }

  lemma {:induction false} FlattenMono(bs: seq<seq<Transaction>>, m: nat, n: nat)
    requires m <= n
    ensures multiset(FlattenFirst(bs, m)) <= multiset(FlattenFirst(bs, n))
    decreases m
  {
    if m > 0 && bs != [] {
      FlattenMono(bs[1..], m - 1, n - 1);
      assert bs == [bs[0]] + bs[1..];
      FlattenMore(bs[0], bs[1..], m);
      FlattenMore(bs[0], bs[1..], n);
    }
  }

  // ---------- the scheduler object ----------

  /** The keys collected from the members of a batch. */
  ghost predicate KeysOf(batch: seq<Transaction>, writeKeys: seq<Pubkey>, readKeys: seq<Pubkey>) {
    && (forall k :: k in writeKeys <==> exists i :: 0 <= i < |batch| && k in WriteAccounts(batch[i]))
    && (forall k :: k in readKeys <==> exists i :: 0 <= i < |batch| && k in ReadAccounts(batch[i]))
  }

  lemma AppendKeys(batch: seq<Transaction>, writeKeys: seq<Pubkey>, readKeys: seq<Pubkey>, tx: Transaction)
    requires KeysOf(batch, writeKeys, readKeys)
    ensures KeysOf(batch + [tx], writeKeys + WriteAccounts(tx), readKeys + ReadAccounts(tx))
  {
    hide WriteAccounts;
    hide ReadAccounts;
    var b := batch + [tx];
    assert b[|batch|] == tx && forall i :: 0 <= i < |batch| ==> b[i] == batch[i];
    forall k ensures k in writeKeys + WriteAccounts(tx) <==> exists i :: 0 <= i < |b| && k in WriteAccounts(b[i]) {
      if k in writeKeys {
        var i :| 0 <= i < |batch| && k in WriteAccounts(batch[i]);
        assert k in WriteAccounts(b[i]);
      }
    }
    forall k ensures k in readKeys + ReadAccounts(tx) <==> exists i :: 0 <= i < |b| && k in ReadAccounts(b[i]) {
      if k in readKeys {
        var i :| 0 <= i < |batch| && k in ReadAccounts(batch[i]);
        assert k in ReadAccounts(b[i]);
      }
    }
  }

  lemma TotalAppend(txs: seq<Transaction>, tx: Transaction)
    ensures TotalCompute(txs + [tx]) == Wrap(TotalCompute(txs) + tx.computeBudget)
  {
    assert (txs + [tx])[..|txs|] == txs;
    WrapAdd(SumCompute(txs), tx.computeBudget);
  }

  lemma NoKeys()
    ensures KeysOf([], [], [])
  {
  }

  /** Batches numbered consecutively after the first `base` ones. */
  ghost predicate Appended(batches: seq<Batch>, base: seq<Batch>, bs: seq<seq<Transaction>>) {
    && |batches| == |base| + |bs|
    && batches[..|base|] == base
    && forall i :: 0 <= i < |bs| ==>
      && batches[|base| + i].index == |base| + i
      && batches[|base| + i].transactions == bs[i]
      && batches[|base| + i].totalCompute == TotalCompute(bs[i])
  }

  lemma AppendedMore(batches: seq<Batch>, base: seq<Batch>, bs: seq<seq<Transaction>>, batch: Batch)
    requires Appended(batches, base, bs)
    requires batch.index == |batches| && batch.totalCompute == TotalCompute(batch.transactions)
    ensures Appended(batches + [batch], base, bs + [batch.transactions])
  {
  }

  lemma SumNothing()
    ensures SumCompute([]) == 0
  {
  }

  /** A pass that places nothing leaves the queue as it was. */
  lemma {:induction false} FillNothing(queue: seq<Transaction>, lim: Limits)
    requires Fill(queue, [], lim).0 == []
    ensures Fill(queue, [], lim).1 == queue
  {
    if queue != [] {
      if Accepts([], queue[0], lim) {
        FillGrows(queue[1..], [] + [queue[0]], lim);
      } else {
        FillNothing(queue[1..], lim);
      }
    }
  }

  lemma {:induction false} FlattenSnoc(bs: seq<seq<Transaction>>, b: seq<Transaction>)
    ensures |Flatten(bs + [b])| == |Flatten(bs)| + |b|
  {
    if bs == [] {
      assert ([] + [b])[1..] == [];
    } else {
      assert (bs + [b])[1..] == bs[1..] + [b];
      FlattenSnoc(bs[1..], b);
    }
  }

  lemma ConflictsByList(batch: seq<Transaction>, writeKeys: seq<Pubkey>, readKeys: seq<Pubkey>, tx: Transaction)
    requires KeysOf(batch, writeKeys, readKeys)
    ensures NoConflict(batch, tx) <==>
      && (forall w :: w in WriteAccounts(tx) ==> w !in writeKeys && w !in readKeys)
      && (forall r :: r in ReadAccounts(tx) ==> r !in writeKeys)
  {
  }

  class Scheduler {
    var pending: seq<Transaction>
    var batches: seq<Batch>
    var totalScheduled: nat
    const lim: Limits

    constructor (maxBatchSize: nat, maxBatchCompute: U64)
      ensures pending == [] && batches == [] && totalScheduled == 0
      ensures lim == Limits(maxBatchSize, maxBatchCompute)
    {
      pending, batches, totalScheduled := [], [], 0;
      lim := Limits(maxBatchSize, maxBatchCompute);
    }

    method Enqueue(tx: Transaction)
      modifies this
      ensures pending == old(pending) + [tx]
      ensures batches == old(batches) && totalScheduled == old(totalScheduled)
    {
      pending := pending + [tx];
    }

    method NextBatch() returns (b: Option<Batch>)
      modifies this
      ensures old(batches) == [] ==> b == None && batches == []
      ensures old(batches) != [] ==> b == Some(old(batches)[0]) && batches == old(batches)[1..]
      ensures pending == old(pending) && totalScheduled == old(totalScheduled)
    {
      if batches == [] {
        return None;
      }
      b := Some(batches[0]);
      batches := batches[1..];
    }

    /** One pass over the remaining transactions. */
    method FillBatch(index: nat, remaining: seq<Transaction>) returns (batch: Batch, still: seq<Transaction>)
      ensures (batch.transactions, still) == Fill(remaining, [], lim)
      ensures batch.index == index && batch.totalCompute == TotalCompute(batch.transactions)
    {
      hide Fill;
      hide Accepts;
      hide KeysOf;
      SumNothing();
      WrapSmall(0);
      NoKeys();
      hide SumCompute;
      hide Wrap;
      hide WriteAccounts;
      hide ReadAccounts;
      var txs: seq<Transaction> := [];
      var compute: U64 := 0;
      var writeKeys: seq<Pubkey>, readKeys: seq<Pubkey> := [], [];
      still := [];
      assert remaining[0..] == remaining;
      assert [] + Fill(remaining, [], lim).1 == Fill(remaining, [], lim).1;
      for i := 0 to |remaining|
        invariant compute == TotalCompute(txs)
        invariant KeysOf(txs, writeKeys, readKeys)
        invariant var f := Fill(remaining[i..], txs, lim);
          Fill(remaining, [], lim) == (f.0, still + f.1)
      {
        var tx := remaining[i];
        assert remaining[i..][1..] == remaining[i + 1..];
        FillUnfold(remaining[i..], txs, lim);
        var accept := TakesTransaction(txs, compute, writeKeys, readKeys, tx);
        if accept {
          AppendKeys(txs, writeKeys, readKeys, tx);
          TotalAppend(txs, tx);
          txs := txs + [tx];
          compute := Wrap(compute + tx.computeBudget);
          writeKeys := writeKeys + WriteAccounts(tx);
          readKeys := readKeys + ReadAccounts(tx);
        } else {
          ghost var f := Fill(remaining[i + 1..], txs, lim);
          assert still + ([tx] + f.1) == still + [tx] + f.1;
          still := still + [tx];
        }
      }
      FillEmpty(txs, lim);
      assert still + [] == still;
      batch := Batch(index, txs, compute);
    }

    /** The checks of the inner loop: room, compute, conflicts with the keys collected so far. */
    method TakesTransaction(txs: seq<Transaction>, compute: U64, writeKeys: seq<Pubkey>, readKeys: seq<Pubkey>,
                            tx: Transaction) returns (accept: bool)
      requires compute == TotalCompute(txs)
      requires KeysOf(txs, writeKeys, readKeys)
      ensures accept == Accepts(txs, tx, lim)
    {
      if |txs| >= lim.size {
        return false;
      }
      WrapAdd(SumCompute(txs), tx.computeBudget);
      if Wrap(compute + tx.computeBudget) > lim.compute {
        return txs == [];
      }
      ConflictsByList(txs, writeKeys, readKeys, tx);
      var clash := AnyIn(WriteAccounts(tx), writeKeys, readKeys);
      if clash {
        return false;
      }
      clash := AnyIn(ReadAccounts(tx), writeKeys, []);
      return !clash;
    }

    static method AnyIn(keys: seq<Pubkey>, a: seq<Pubkey>, b: seq<Pubkey>) returns (found: bool)
      ensures found <==> exists k :: k in keys && (k in a || k in b)
    {
      for i := 0 to |keys|
        invariant forall j :: 0 <= j < i ==> keys[j] !in a && keys[j] !in b
      {
        if keys[i] in a || keys[i] in b {
          return true;
        }
      }
      return false;
    }

    /** Group everything pending into batches; what cannot be placed goes back to the queue. */
    method Schedule()
      modifies this
      ensures pending == Batches(old(pending), lim).1
      ensures Appended(batches, old(batches), Batches(old(pending), lim).0)
      ensures totalScheduled == old(totalScheduled) + |Flatten(Batches(old(pending), lim).0)|
    {
      hide Accepts;
      hide Fill;
      hide SumCompute;
      var remaining := pending;
      pending := [];
      ghost var done: seq<seq<Transaction>> := [];
      while remaining != []
        invariant pending == []
        invariant Batches(old(pending), lim).0 == done + Batches(remaining, lim).0
        invariant Batches(old(pending), lim).1 == Batches(remaining, lim).1
        invariant Appended(batches, old(batches), done)
        invariant totalScheduled == old(totalScheduled) + |Flatten(done)|
        decreases |remaining|
      {
        var batch, still := FillBatch(|batches|, remaining);
        FillGrows(remaining, [], lim);
        if batch.transactions == [] {
          FillNothing(remaining, lim);
          pending := still;
          assert done + [] == done;
          break;
        }
        FlattenSnoc(done, batch.transactions);
        assert done + ([batch.transactions] + Batches(still, lim).0) == done + [batch.transactions] + Batches(still, lim).0;
        AppendedMore(batches, old(batches), done, batch);
        remaining := still;
        totalScheduled := totalScheduled + |batch.transactions|;
        batches := batches + [batch];
        done := done + [batch.transactions];
      }
      assert done + [] == done;
    }
  }
}
