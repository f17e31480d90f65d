/** A scheduled batch has one outcome: neither the order of its transactions nor the interleaving of
their threads matters. */
module BatchOrder {
  import opened Ledger
  import opened Transactions
  import opened Execution
  import opened ExecutionLaws
  import opened Interleaving
  import Sched = Scheduler

  /** No member touches the fee payer of another. The scheduler does not look at fee payers. */
  ghost predicate PayersApart(txs: seq<Transaction>) {
    forall t, u :: 0 <= t < |txs| && 0 <= u < |txs| && t != u ==> !Touches(txs[u], txs[t].signer)
  }

  /** What one transaction holds exclusively, the other does not touch. */
  ghost predicate Apart(a: Transaction, b: Transaction) {
    forall k :: Exclusive(a, k) ==> !Touches(b, k)
  }

  ghost predicate AllApart(txs: seq<Transaction>) {
    forall t, u :: 0 <= t < |txs| && 0 <= u < |txs| && t != u ==> Apart(txs[t], txs[u])
  }

  /** Members of a scheduled batch whose payers are apart are apart altogether. */
  lemma BatchApart(txs: seq<Transaction>, lim: Sched.Limits)
    requires Sched.WellFormed(txs, lim) && PayersApart(txs)
    ensures AllApart(txs)
  {
    forall t, u | 0 <= t < |txs| && 0 <= u < |txs| && t != u ensures Apart(txs[t], txs[u]) {
      assert !ConflictsWith(txs[t], txs[u]) by {
        ConflictsSymmetric(txs[t], txs[u]);
      }
      forall k | Exclusive(txs[t], k) ensures !Touches(txs[u], k) {
        if k in WriteAccounts(txs[t]) {
          assert k !in WriteAccounts(txs[u]) && k !in ReadAccounts(txs[u]);
        }
      }
    }
  }

  /** Transactions that ran before leave a later one's accounts alone. */
  lemma {:induction false} SerialLeavesAlone(txs: seq<Transaction>, order: seq<nat>, mem: Accounts, t: nat)
    requires AllFlagged(txs) && AllApart(txs) && IsOrder(txs, order) && t < |txs| && t !in order
    ensures AgreeOn(txs[t], mem, Serial(txs, order, mem))
    decreases |order|
  {
    if order != [] {
      var prefix, u := order[..|order| - 1], order[|order| - 1];
      var s := Serial(txs, prefix, mem);
      SerialLeavesAlone(txs, prefix, mem, t);
      ExecuteFrame(txs[u], s, s);
      forall k | Touches(txs[t], k) ensures Agree(mem, Serial(txs, order, mem), k) {
        assert Apart(txs[u], txs[t]);
        assert !Exclusive(txs[u], k);
        assert Agree(mem, s, k);
        assert Agree(s, Execute(txs[u], s).accounts, k);
      }
    }
  }

  ghost predicate OwnedIn(txs: seq<Transaction>, order: seq<nat>, k: Pubkey)
    requires IsOrder(txs, order)
  {
    exists i :: 0 <= i < |order| && Exclusive(txs[order[i]], k)
  }

  /** The serial state, account by account: the owner's result from the initial state, or the
  initial value. */
  lemma {:induction false} SerialAt(txs: seq<Transaction>, order: seq<nat>, mem: Accounts, k: Pubkey)
    requires AllFlagged(txs) && AllApart(txs) && IsOrder(txs, order)
    ensures forall i :: 0 <= i < |order| && Exclusive(txs[order[i]], k) ==>
      Agree(Execute(txs[order[i]], mem).accounts, Serial(txs, order, mem), k)
    ensures !OwnedIn(txs, order, k) ==> Agree(mem, Serial(txs, order, mem), k)
    decreases |order|
  {
    if order != [] {
      var prefix, u := order[..|order| - 1], order[|order| - 1];
      var s := Serial(txs, prefix, mem);
      SerialAt(txs, prefix, mem, k);
      SerialLeavesAlone(txs, prefix, mem, u);
      ExecuteFrame(txs[u], mem, s);
      ExecuteFrame(txs[u], s, s);
      if Exclusive(txs[u], k) {
        assert Touches(txs[u], k);
        assert Agree(Execute(txs[u], mem).accounts, Execute(txs[u], s).accounts, k);
        forall i | 0 <= i < |order| && Exclusive(txs[order[i]], k) ensures order[i] == u {
          assert order[i] == u || Apart(txs[order[i]], txs[u]);
        }
      } else {
        assert Agree(s, Execute(txs[u], s).accounts, k);
        forall i | 0 <= i < |order| && Exclusive(txs[order[i]], k)
          ensures Agree(Execute(txs[order[i]], mem).accounts, Serial(txs, order, mem), k)
        {
          assert prefix[i] == order[i];
        }
        assert OwnedIn(txs, prefix, k) ==> OwnedIn(txs, order, k);
      }
    }
  }

  ghost predicate Complete(txs: seq<Transaction>, order: seq<nat>) {
    IsOrder(txs, order) && forall t :: 0 <= t < |txs| ==> t in order
  }

  /** Any two serial orders of the batch give the same accounts, and every transaction the outcome
  it has when it runs first. */
  lemma AnyOrderSameResult(txs: seq<Transaction>, order: seq<nat>, order': seq<nat>, mem: Accounts)
    requires AllFlagged(txs) && AllApart(txs) && Complete(txs, order) && Complete(txs, order')
    ensures Serial(txs, order, mem) == Serial(txs, order', mem)
    ensures forall i :: 0 <= i < |order| ==>
      Execute(txs[order[i]], Serial(txs, order[..i], mem)).success == Execute(txs[order[i]], mem).success
  {
    forall k ensures Agree(Serial(txs, order, mem), Serial(txs, order', mem), k) {
      AnyOrderSameAt(txs, order, order', mem, k);
    }
    LookupExt(Serial(txs, order, mem), Serial(txs, order', mem));
    forall i | 0 <= i < |order|
      ensures Execute(txs[order[i]], Serial(txs, order[..i], mem)).success == Execute(txs[order[i]], mem).success
    {
      OutcomeInPlace(txs, order, mem, i);
    }
  }

  lemma OutcomeInPlace(txs: seq<Transaction>, order: seq<nat>, mem: Accounts, i: nat)
    requires AllFlagged(txs) && AllApart(txs) && IsOrder(txs, order) && i < |order|
    ensures Execute(txs[order[i]], Serial(txs, order[..i], mem)).success == Execute(txs[order[i]], mem).success
  {
    SerialLeavesAlone(txs, order[..i], mem, order[i]);
    ExecuteFrame(txs[order[i]], mem, Serial(txs, order[..i], mem));
  }

  lemma OwnedInBoth(txs: seq<Transaction>, order: seq<nat>, order': seq<nat>, k: Pubkey) returns (i: nat, j: nat)
    requires Complete(txs, order) && Complete(txs, order') && OwnedIn(txs, order, k)
    ensures i < |order| && j < |order'| && order[i] == order'[j] && Exclusive(txs[order[i]], k)
  {
    i :| 0 <= i < |order| && Exclusive(txs[order[i]], k);
    assert order[i] in order';
    j :| 0 <= j < |order'| && order'[j] == order[i];
  }

  lemma AnyOrderSameAt(txs: seq<Transaction>, order: seq<nat>, order': seq<nat>, mem: Accounts, k: Pubkey)
    requires AllFlagged(txs) && AllApart(txs) && Complete(txs, order) && Complete(txs, order')
    ensures Agree(Serial(txs, order, mem), Serial(txs, order', mem), k)
  {
    SerialAt(txs, order, mem, k);
    SerialAt(txs, order', mem, k);
    hide Execute;
    if OwnedIn(txs, order, k) {
      var _, _ := OwnedInBoth(txs, order, order', k);
    } else if OwnedIn(txs, order', k) {
      var _, _ := OwnedInBoth(txs, order', order, k);
    }
  }

  /** Running a scheduled batch on threads, under any interleaving, equals running it in queue order
  on one thread. */
  lemma BatchIsDeterministic(txs: seq<Transaction>, lim: Sched.Limits, mem: Accounts, schedule: seq<nat>, w: World,
                             order: seq<nat>)
    requires Sched.WellFormed(txs, lim) && AllFlagged(txs) && PayersApart(txs) && Complete(txs, order)
    requires Reaches(txs, mem, schedule, w) && |w.threads| == |txs|
    requires forall t :: 0 <= t < |txs| ==> w.threads[t].Finished?
    ensures w.mem == Serial(txs, order, mem)
    ensures forall t :: 0 <= t < |txs| ==> w.threads[t] == Finished(Execute(txs[t], mem).success)
  {
    hide Execute;
    BatchApart(txs, lim);
    var o := Serializable(txs, mem, schedule, w);
    AnyOrderSameResult(txs, o, order, mem);
    forall t | 0 <= t < |txs| ensures w.threads[t] == Finished(Execute(txs[t], mem).success) {
      assert t in o;
      var i :| 0 <= i < |o| && o[i] == t;
    }
  }
}
