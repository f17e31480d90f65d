/** The scheduler's passes, one batch after another over what is left, place every transaction where going
through the queue once and putting each into the first batch that takes it would. */
module FirstFit {
  import opened Bytes
  import opened Transactions
  import opened Scheduler

  /** An account that one of them declares writable and the other declares. */
  predicate Shares(a: Transaction, b: Transaction) {
    || (exists k :: k in WriteAccounts(a) && (k in WriteAccounts(b) || k in ReadAccounts(b)))
    || (exists k :: k in ReadAccounts(a) && k in WriteAccounts(b))
  }

  /** Room, and either an empty batch, or a 64-bit compute sum within the limit and no shared account. */
  ghost predicate Takes(batch: seq<Transaction>, tx: Transaction, lim: Limits) {
    && |batch| < lim.size
    && (batch == [] || ((SumCompute(batch) + tx.computeBudget) % U64_LIMIT <= lim.compute &&
                        forall i :: 0 <= i < |batch| ==> !Shares(batch[i], tx)))
  }

  lemma TakesIffAccepts(batch: seq<Transaction>, tx: Transaction, lim: Limits)
    ensures Takes(batch, tx, lim) <==> Accepts(batch, tx, lim)
  {
    forall i | 0 <= i < |batch| ensures Shares(batch[i], tx) <==> ConflictsWith(batch[i], tx) { }
    hide Shares;
    hide ConflictsWith;
    assert Wrap(SumCompute(batch) + tx.computeBudget) == (SumCompute(batch) + tx.computeBudget) % U64_LIMIT;
    hide Wrap;
    hide SumCompute;
  }

  /** Into the first batch that takes it, or a new one. */
  ghost function Place(bs: seq<seq<Transaction>>, tx: Transaction, lim: Limits): seq<seq<Transaction>> {
    if bs == [] then [[tx]]
    else if Takes(bs[0], tx, lim) then [bs[0] + [tx]] + bs[1..]
    else [bs[0]] + Place(bs[1..], tx, lim)
  }

  ghost function PlaceAll(bs: seq<seq<Transaction>>, queue: seq<Transaction>, lim: Limits): seq<seq<Transaction>>
    decreases |queue|
  {
    if queue == [] then bs else PlaceAll(Place(bs, queue[0], lim), queue[1..], lim)
  }

  /** The first batch is what one pass makes of it; the others only see what that pass leaves. */
  lemma {:induction false} FirstBatch(b: seq<Transaction>, bs: seq<seq<Transaction>>, queue: seq<Transaction>, lim: Limits)
    ensures PlaceAll([b] + bs, queue, lim) == [Fill(queue, b, lim).0] + PlaceAll(bs, Fill(queue, b, lim).1, lim)
    decreases |queue|
  {
    hide Accepts;
    hide Takes;
    if queue != [] {
      var tx, rest, all := queue[0], queue[1..], [b] + bs;
      TakesIffAccepts(b, tx, lim);
      FillUnfold(queue, b, lim);
      assert all[0] == b && all[1..] == bs;
      if Takes(b, tx, lim) {
        FirstBatch(b + [tx], bs, rest, lim);
      } else {
        FirstBatch(b, Place(bs, tx, lim), rest, lim);
        var left := [tx] + Fill(rest, b, lim).1;
        assert left[0] == tx && left[1..] == Fill(rest, b, lim).1;
      }
    }
  }

  /** With a nonzero batch size the batches are those of first fit; with none nothing is placed. */
  lemma {:induction false} ScheduleIsFirstFit(queue: seq<Transaction>, lim: Limits)
    ensures Batches(queue, lim) == if lim.size > 0 then (PlaceAll([], queue, lim), []) else ([], queue)
    decreases |queue|
  {
    hide Accepts;
    hide Takes;
    if lim.size == 0 {
      NothingFits(queue, [], lim);
    } else if queue != [] {
      var tx, rest := queue[0], queue[1..];
      FirstIsTaken(queue, lim);
      FillUnfold(queue, [], lim);
      assert [] + [tx] == [tx];
      FillGrows(queue, [], lim);
      var left := Fill(queue, [], lim).1;
      FirstBatch([tx], [], rest, lim);
      assert Place([], tx, lim) == [[tx]] && [[tx]] + [] == [[tx]];
      ScheduleIsFirstFit(left, lim);
    }
  }

  lemma {:induction false} NothingFits(queue: seq<Transaction>, b: seq<Transaction>, lim: Limits)
    requires lim.size == 0
    ensures Fill(queue, b, lim) == (b, queue)
    decreases |queue|
  {
    if queue != [] {
      NothingFits(queue[1..], b, lim);
      assert [queue[0]] + queue[1..] == queue;
    }
  }
}
