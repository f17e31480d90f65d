/** Every run of the threads is finite and can be brought to its end. */
module Termination {
  import opened Wrappers
  import opened Ledger
  import opened Programs
  import opened Transactions
  import opened Execution
  import opened Interleaving

  /** No block loads or stores more accounts than this. */
  function Width(tx: Transaction): nat { |MutableAccounts(tx)| + 2 }

  function BlockCost(tx: Transaction): nat { 2 * Width(tx) + 2 }

  /** The blocks from pc on, at full cost. */
  function Ahead(tx: Transaction, pc: Pc): nat { Rank(tx, pc) * BlockCost(tx) }

  function Minus(a: nat, b: nat): nat { if b <= a then a - b else 0 }

  /** A bound on the steps a thread still has to take. */
  function StepsLeft(tx: Transaction, th: Thread): nat {
    match th
    case Waiting(n) => Ahead(tx, Fee) + |Locks(tx)| + Width(tx) + 2 + Minus(|Locks(tx)|, n)
    case Loading(pc, got) => Ahead(tx, pc) + |Locks(tx)| + 1 + Minus(|Loads(tx, pc)|, |got|)
    case Storing(pc, todo) => Ahead(tx, pc) + |Locks(tx)| + Width(tx) + 2 + |todo|
    case Releasing(_, n) => 1 + Minus(|Locks(tx)|, n)
    case Finished(_) => 0
  }

  lemma LoadsBound(tx: Transaction, pc: Pc)
    ensures |Loads(tx, pc)| <= Width(tx)
  {
    hide MutableAccounts;
    if pc.Ix? && pc.i < |tx.instructions| && Named(tx, pc.i).Some? {
      var op, ks := Decode(tx.instructions[pc.i]), Named(tx, pc.i).value;
      hide Decode;
      hide Named;
      assert |ks| == Arity(op);
      assert |Needs(op, ks)| <= 2;
    }
  }

  lemma DecideBound(op: Op, signer: Pubkey, ks: seq<Pubkey>, vals: seq<Option<Account>>)
    requires |ks| == Arity(op) && |vals| == |Needs(op, ks)|
    ensures Decide(op, signer, ks, vals).Some? ==> |Decide(op, signer, ks, vals).value| <= 2
  {
  }

  lemma StoresBound(tx: Transaction, pc: Pc, vals: seq<Option<Account>>)
    requires PcOk(tx, pc) && |vals| == |Loads(tx, pc)|
    ensures |Step(tx, pc, vals).0| <= Width(tx)
  {
    hide MutableAccounts;
    if pc.Ix? && pc.i < |tx.instructions| && Named(tx, pc.i).Some? {
      DecideBound(Decode(tx.instructions[pc.i]), tx.signer, Named(tx, pc.i).value, vals);
    }
    hide Decide;
    hide Decode;
    hide Named;
  }

  lemma MulMono(a: nat, b: nat, c: nat)
    requires a <= b
    ensures a * c <= b * c
  {
  }

  lemma AheadFalls(tx: Transaction, pc: Pc, pc': Pc)
    requires Rank(tx, pc') < Rank(tx, pc)
    ensures Ahead(tx, pc') + BlockCost(tx) <= Ahead(tx, pc)
  {
    hide Rank;
    hide BlockCost;
    MulMono(Rank(tx, pc') + 1, Rank(tx, pc), BlockCost(tx));
  }

  /** Every step brings its thread closer to the end. */
  lemma StepsFall(tx: Transaction, th: Thread, mem: Accounts)
    requires ThreadOk(tx, th) && !th.Finished?
    ensures ThreadOk(tx, Advance(tx, th, mem))
    ensures StepsLeft(tx, Advance(tx, th, mem)) < StepsLeft(tx, th)
  {
    AdvanceOk(tx, th, mem);
    hide Loads;
    hide Locks;
    hide MutableAccounts;
    match th {
      case Waiting(n) =>
        LoadsBound(tx, Fee);
      case Loading(pc, got) =>
        if |got| == |Loads(tx, pc)| {
          StoresBound(tx, pc, got);
          AheadFalls(tx, pc, Step(tx, pc, got).1);
          hide Step;
          hide Ahead;
        }
      case Storing(pc, todo) =>
        LoadsBound(tx, pc);
      case Releasing(_, _) =>
    }
  }

  // ---------- the whole world ----------

  ghost function TotalLeft(txs: seq<Transaction>, threads: seq<Thread>): nat
    requires |txs| == |threads|
  {
    if txs == [] then 0
    else
      var n := |txs| - 1;
      TotalLeft(txs[..n], threads[..n]) + StepsLeft(txs[n], threads[n])
  }

  lemma {:induction false} TotalFalls(txs: seq<Transaction>, threads: seq<Thread>, t: nat, th: Thread)
    requires |txs| == |threads|
    requires t < |txs| && StepsLeft(txs[t], th) < StepsLeft(txs[t], threads[t])
    ensures TotalLeft(txs, threads[t := th]) < TotalLeft(txs, threads)
    decreases |txs|
  {
    hide StepsLeft;
    var n := |txs| - 1;
    var after := threads[t := th];
    if t == n {
      assert after[..n] == threads[..n];
    } else {
      assert after[..n] == threads[..n][t := th];
      TotalFalls(txs[..n], threads[..n], t, th);
    }
  }

  lemma StepTotal(txs: seq<Transaction>, w: World, t: nat)
    requires WorldOk(txs, w) && t < |txs| && !w.threads[t].Finished?
    ensures WorldOk(txs, StepOf(txs, w, t))
    ensures TotalLeft(txs, StepOf(txs, w, t).threads) < TotalLeft(txs, w.threads)
  {
    StepsFall(txs[t], w.threads[t], w.mem);
    StepKeepsOk(txs, w, t);
    hide Advance;
    hide StepsLeft;
    hide TotalLeft;
    TotalFalls(txs, w.threads, t, Advance(txs[t], w.threads[t], w.mem));
  }

  /** The last step of a run takes one off the bound. */
  lemma LastStep(txs: seq<Transaction>, mem: Accounts, schedule: seq<nat>, w: World) returns (v: World)
    requires Reaches(txs, mem, schedule, w) && schedule != []
    ensures Reaches(txs, mem, schedule[..|schedule| - 1], v) && WorldOk(txs, v) && WorldOk(txs, w)
    ensures TotalLeft(txs, w.threads) < TotalLeft(txs, v.threads)
  {
    hide TotalLeft;
    hide StepOf;
    var prefix, t := schedule[..|schedule| - 1], schedule[|schedule| - 1];
    v :| Reaches(txs, mem, prefix, v) && WorldOk(txs, v) && t < |txs| && Enabled(txs, v, t) && w == StepOf(txs, v, t);
    assert !v.threads[t].Finished?;
    StepTotal(txs, v, t);
  }

  /** No run is longer than a bound fixed by the transactions. */
  lemma {:induction false} RunsAreFinite(txs: seq<Transaction>, mem: Accounts, schedule: seq<nat>, w: World)
    requires Reaches(txs, mem, schedule, w)
    ensures WorldOk(txs, w)
    ensures |schedule| + TotalLeft(txs, w.threads) <= TotalLeft(txs, Start(txs, mem).threads)
    decreases |schedule|
  {
    hide TotalLeft;
    if schedule != [] {
      hide Reaches;
      var v := LastStep(txs, mem, schedule, w);
      RunsAreFinite(txs, mem, schedule[..|schedule| - 1], v);
    }
  }

  lemma MoveOn(txs: seq<Transaction>, mem: Accounts, schedule: seq<nat>, w: World, u: nat) returns (t: nat, v: World)
    requires Reaches(txs, mem, schedule, w) && WorldOk(txs, w)
    requires u < |txs| && !w.threads[u].Finished?
    ensures Reaches(txs, mem, schedule + [t], v) && WorldOk(txs, v)
    ensures TotalLeft(txs, v.threads) < TotalLeft(txs, w.threads)
  {
    t := Progress(txs, w, u);
    StepTotal(txs, w, t);
    v := StepOf(txs, w, t);
    var longer := schedule + [t];
    assert longer[..|longer| - 1] == schedule;
    hide TotalLeft;
  }

  lemma {:induction false} CompleteFrom(txs: seq<Transaction>, mem: Accounts, schedule: seq<nat>, w: World)
    returns (more: seq<nat>, end: World)
    requires Reaches(txs, mem, schedule, w) && WorldOk(txs, w)
    ensures Reaches(txs, mem, schedule + more, end) && WorldOk(txs, end)
    ensures forall t :: 0 <= t < |txs| ==> end.threads[t].Finished?
    decreases TotalLeft(txs, w.threads)
  {
    hide Reaches;
    hide TotalLeft;
    if u :| 0 <= u < |txs| && !w.threads[u].Finished? {
      var t, v := MoveOn(txs, mem, schedule, w, u);
      more, end := CompleteFrom(txs, mem, schedule + [t], v);
      more := [t] + more;
      assert schedule + more == schedule + [t] + more[1..];
    } else {
      more, end := [], w;
      assert schedule + more == schedule;
    }
  }

  /** From every reachable world some continuation finishes every transaction. */
  lemma RunsComplete(txs: seq<Transaction>, mem: Accounts, schedule: seq<nat>, w: World)
    returns (more: seq<nat>, end: World)
    requires Reaches(txs, mem, schedule, w)
    ensures Reaches(txs, mem, schedule + more, end) && |end.threads| == |txs|
    ensures forall t :: 0 <= t < |txs| ==> end.threads[t].Finished?
  {
    ReachableExclusion(txs, mem, schedule, w);
    hide Reaches;
    more, end := CompleteFrom(txs, mem, schedule, w);
  }
}
