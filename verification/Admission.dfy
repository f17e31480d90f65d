/** Exactly which transactions are let in, what they pay, and which succeed; nothing else changes an
account, alone or among concurrent threads. */
module Admission {
  import opened Wrappers
  import opened Ledger
  import opened Programs
  import opened Transactions
  import opened Execution
  import opened ExecutionLaws
  import opened Interleaving

  /** A verified signature, an instruction, and the least fee. */
  predicate Presentable(tx: Transaction) {
    tx.signatureOk && tx.instructions != [] && tx.computeBudget != 0 && tx.fee >= 5000
  }

  /** And enough compute and lamports for the fee. */
  predicate Admissible(tx: Transaction, s: Accounts) {
    Presentable(tx) && tx.computeBudget >= 150 && tx.signer in s && s[tx.signer].lamports >= tx.fee
  }

  /** Anything but a failure that changes nothing takes a presentable transaction that can pay. */
  lemma OnlyAdmissibleAct(tx: Transaction, s: Accounts)
    ensures Execute(tx, s) != Result(s, false) ==> Admissible(tx, s)
  {
    if !FeeCharged(tx, s) { NoFee(tx, s); }
  }

  /** Of every admissible transaction the fee is taken: what a failing one leaves on the accounts it may
  mutate is the state after the fee. */
  lemma AdmissiblePays(tx: Transaction, s: Accounts, k: Pubkey)
    requires Admissible(tx, s) && !Execute(tx, s).success && (k == tx.signer || k in WriteAccounts(tx))
    ensures Agree(Execute(tx, s).accounts, s[tx.signer := s[tx.signer].(lamports := s[tx.signer].lamports - tx.fee)], k)
  {
    hide Execute;
    FailureExactly(tx, s, k);
  }

  // ---------- success ----------

  /** Instruction i takes the accounts from a to b: its signer metas name the signer, and the program
  succeeds. */
  ghost predicate Runs(tx: Transaction, i: nat, a: Accounts, b: Accounts)
    requires i < |tx.instructions|
  {
    var ix := tx.instructions[i];
    && (forall j :: 0 <= j < |ix.metas| && ix.metas[j].isSigner ==>
          ix.metas[j].index < |tx.accountKeys| && tx.accountKeys[ix.metas[j].index] == tx.signer)
    && Processed(ix, tx.signer, tx.accountKeys, a) == Some(b)
  }

  /** The states between the instructions from i on. */
  ghost predicate Trace(tx: Transaction, i: nat, states: seq<Accounts>)
    requires i <= |tx.instructions|
    ensures Trace(tx, i, states) ==> |states| == |tx.instructions| - i + 1
    decreases |tx.instructions| - i
  {
    if i == |tx.instructions| then |states| == 1
    else |states| >= 2 && Runs(tx, i, states[0], states[1]) && Trace(tx, i + 1, states[1..])
  }

  function UnitsFrom(tx: Transaction, i: nat): nat
    requires i <= |tx.instructions|
    decreases |tx.instructions| - i
  {
    if i == |tx.instructions| then 0 else UnitsOf(tx.instructions[i]) + UnitsFrom(tx, i + 1)
  }

  lemma RunsIffEffect(tx: Transaction, i: nat, a: Accounts)
    requires i < |tx.instructions|
    ensures EffectAt(tx, i, a).Some? <==> Runs(tx, i, a, AfterAt(tx, i, a))
    ensures forall b :: Runs(tx, i, a, b) ==> b == AfterAt(tx, i, a)
  {
    var ix := tx.instructions[i];
    hide Effect;
    hide After;
    assert SignersOk(tx, ix) <==> forall j :: 0 <= j < |ix.metas| && ix.metas[j].isSigner ==>
      ix.metas[j].index < |tx.accountKeys| && tx.accountKeys[ix.metas[j].index] == tx.signer;
    EffectResolves(Decode(ix), ix.metas, tx.signer, tx.accountKeys, a);
  }

  lemma EffectResolves(op: Op, metas: seq<Meta>, signer: Pubkey, keys: seq<Pubkey>, s: Accounts)
    ensures Effect(op, metas, signer, keys, s).Some? ==> Resolve(op, metas, keys).Some?
  {
  }

  lemma {:induction false} SuccessTraces(tx: Transaction, i: nat, units: nat, snap: seq<Option<Account>>, a: Accounts)
    returns (states: seq<Accounts>)
    requires i <= |tx.instructions| && |snap| == |MutableAccounts(tx)| && units <= tx.computeBudget
    requires RunFrom(tx, Ix(i, units, snap), a).success
    ensures Trace(tx, i, states) && states[0] == a
    ensures states[|tx.instructions| - i] == RunFrom(tx, Ix(i, units, snap), a).accounts
    ensures units + UnitsFrom(tx, i) <= tx.computeBudget
    decreases |tx.instructions| - i
  {
    hide RunFrom;
    hide EffectAt;
    hide AfterAt;
    hide MutableAccounts;
    hide Runs;
    hide Decode;
    if i < |tx.instructions| {
      InstructionResult(tx, i, units, snap, a);
      RunsIffEffect(tx, i, a);
      var rest := SuccessTraces(tx, i + 1, units + UnitsOf(tx.instructions[i]), snap, AfterAt(tx, i, a));
      states := [a] + rest;
      assert states[1..] == rest;
    } else {
      DoneResult(tx, units, snap, a);
      states := [a];
    }
  }

  lemma {:induction false} TraceSucceeds(tx: Transaction, i: nat, units: nat, snap: seq<Option<Account>>,
                                         states: seq<Accounts>)
    requires i <= |tx.instructions| && |snap| == |MutableAccounts(tx)| && Trace(tx, i, states)
    requires units + UnitsFrom(tx, i) <= tx.computeBudget
    ensures RunFrom(tx, Ix(i, units, snap), states[0]) == Result(states[|tx.instructions| - i], true)
    decreases |tx.instructions| - i
  {
    hide RunFrom;
    hide EffectAt;
    hide AfterAt;
    hide MutableAccounts;
    hide Runs;
    hide Decode;
    if i < |tx.instructions| {
      RunsIffEffect(tx, i, states[0]);
      InstructionResult(tx, i, units, snap, states[0]);
      TraceSucceeds(tx, i + 1, units + UnitsOf(tx.instructions[i]), snap, states[1..]);
    } else {
      DoneResult(tx, units, snap, states[0]);
    }
  }

  /** A transaction succeeds with a result if and only if it is admissible, its instructions lead one after
  another from the state after the fee to the result, and their units fit the budget. */
  lemma SucceedsExactly(tx: Transaction, s: Accounts, out: Accounts)
    ensures Execute(tx, s) == Result(out, true) <==>
      && Admissible(tx, s)
      && 150 + UnitsFrom(tx, 0) <= tx.computeBudget
      && exists states :: Trace(tx, 0, states) && states[|tx.instructions|] == out &&
           states[0] == s[tx.signer := s[tx.signer].(lamports := s[tx.signer].lamports - tx.fee)]
  {
    hide Execute;
    hide RunFrom;
    hide MutableAccounts;
    hide Runs;
    if Execute(tx, s) == Result(out, true) { OnlyAdmissibleAct(tx, s); }
    if Admissible(tx, s) {
      var c := Charged(tx, s);
      var snap := LookupAll(c, MutableAccounts(tx));
      AfterFee(tx, s);
      if Execute(tx, s) == Result(out, true) {
        var states := SuccessTraces(tx, 0, FEE_UNITS, snap, c);
      }
      if states :| Trace(tx, 0, states) && states[|tx.instructions|] == out && states[0] == c {
        if 150 + UnitsFrom(tx, 0) <= tx.computeBudget { TraceSucceeds(tx, 0, FEE_UNITS, snap, states); }
      }
    }
  }

  // ---------- concurrent runs ----------

  lemma {:induction false} RefusedThread(txs: seq<Transaction>, mem: Accounts, schedule: seq<nat>, w: World, t: nat)
    requires Reaches(txs, mem, schedule, w) && t < |txs| && !Presentable(txs[t])
    ensures |w.threads| == |txs| && (w.threads[t] == Waiting(0) || w.threads[t] == Finished(false))
    decreases |schedule|
  {
    if schedule != [] {
      var prefix, u := schedule[..|schedule| - 1], schedule[|schedule| - 1];
      var v :| Reaches(txs, mem, prefix, v) && WorldOk(txs, v) && u < |txs| && Enabled(txs, v, u) && w == StepOf(txs, v, u);
      RefusedThread(txs, mem, prefix, v, t);
    }
  }

  /** In every interleaving, a thread whose transaction is not presentable holds no lock, changes no
  account, and reports failure. */
  lemma RefusedIsSilent(txs: seq<Transaction>, mem: Accounts, schedule: seq<nat>, w: World, t: nat)
    requires Reaches(txs, mem, schedule, w) && t < |txs| && !Presentable(txs[t])
    ensures |w.threads| == |txs| && Held(txs[t], w.threads[t]) == []
    ensures StepOf(txs, w, t).mem == w.mem
    ensures Done(w.threads[t]) ==> w.threads[t] == Finished(false)
  {
    RefusedThread(txs, mem, schedule, w, t);
  }
}
