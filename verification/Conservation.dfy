/** Conservation across concurrent runs: what one transaction keeps, every run of many keeps. */
module Conservation {
  import opened Ledger
  import opened ProgramLaws
  import opened Transactions
  import opened Execution
  import opened ExecutionLaws
  import opened Interleaving

  /** The fees charged when the transactions run in the given order. */
  function FeesCharged(txs: seq<Transaction>, order: seq<nat>, mem: Accounts): nat
    requires forall i :: 0 <= i < |order| ==> order[i] < |txs|
  {
    if order == [] then 0
    else
      var n := |order| - 1;
      var tx, s := txs[order[n]], Serial(txs, order[..n], mem);
      FeesCharged(txs, order[..n], mem) + if FeeCharged(tx, s) then tx.fee else 0
  }

  /** The lamports created by successful self-transfers when they run in the given order. */
  function CreditsEarned(txs: seq<Transaction>, order: seq<nat>, mem: Accounts): nat
    requires forall i :: 0 <= i < |order| ==> order[i] < |txs|
  {
    if order == [] then 0
    else
      var n := |order| - 1;
      var tx, s := txs[order[n]], Serial(txs, order[..n], mem);
      CreditsEarned(txs, order[..n], mem) + if Execute(tx, s).success then SelfCredits(tx, 0) else 0
  }

  lemma {:induction false} SerialLamports(txs: seq<Transaction>, order: seq<nat>, mem: Accounts)
    requires AllFlagged(txs) && forall i :: 0 <= i < |order| ==> order[i] < |txs|
    ensures TotalLamports(Serial(txs, order, mem)) + FeesCharged(txs, order, mem) ==
            TotalLamports(mem) + CreditsEarned(txs, order, mem)
    decreases |order|
  {
    if order != [] {
      hide Execute;
      hide FeeCharged;
      hide SelfCredits;
      hide Flagged;
      var n := |order| - 1;
      SerialLamports(txs, order[..n], mem);
      LamportsFallByTheFee(txs[order[n]], Serial(txs, order[..n], mem));
    }
  }

  lemma {:induction false} SerialSupply(txs: seq<Transaction>, order: seq<nat>, mem: Accounts)
    requires AllFlagged(txs) && SupplyOk(mem) && forall i :: 0 <= i < |order| ==> order[i] < |txs|
    ensures SupplyOk(Serial(txs, order, mem))
    decreases |order|
  {
    if order != [] {
      hide Execute;
      hide SupplyOk;
      hide Flagged;
      var n := |order| - 1;
      SerialSupply(txs, order[..n], mem);
      TransactionKeepsSupply(txs[order[n]], Serial(txs, order[..n], mem));
    }
  }

  /** However the threads of a batch interleave, total lamports fall by exactly the fees charged, and rise
  by exactly what self-transfers create, in the serial order the run amounts to. */
  lemma RunTakesTheFees(txs: seq<Transaction>, mem: Accounts, schedule: seq<nat>, w: World) returns (order: seq<nat>)
    requires AllFlagged(txs) && Reaches(txs, mem, schedule, w) && |w.threads| == |txs|
    requires forall t :: 0 <= t < |txs| ==> w.threads[t].Finished?
    ensures IsOrder(txs, order) && forall t :: 0 <= t < |txs| ==> t in order
    ensures w.mem == Serial(txs, order, mem)
    ensures TotalLamports(w.mem) + FeesCharged(txs, order, mem) == TotalLamports(mem) + CreditsEarned(txs, order, mem)
  {
    order := Serializable(txs, mem, schedule, w);
    SerialLamports(txs, order, mem);
  }

  /** However the threads of a batch interleave, recorded supply stays the sum of the balances. */
  lemma RunKeepsSupply(txs: seq<Transaction>, mem: Accounts, schedule: seq<nat>, w: World)
    requires AllFlagged(txs) && SupplyOk(mem) && Reaches(txs, mem, schedule, w) && |w.threads| == |txs|
    requires forall t :: 0 <= t < |txs| ==> w.threads[t].Finished?
    ensures SupplyOk(w.mem)
  {
    var order := Serializable(txs, mem, schedule, w);
    SerialSupply(txs, order, mem);
  }
}
