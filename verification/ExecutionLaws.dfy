/** What a transaction promises as a whole: all or nothing, lamports, token supply. */
module ExecutionLaws {
  import opened Wrappers
  import opened Ledger
  import opened Programs
  import opened ProgramMethods
  import opened ProgramLaws
  import opened Transactions
  import opened Execution

  // ---------- all or nothing ----------

  predicate FeeCharged(tx: Transaction, s: Accounts) {
    Admitted(tx) && tx.computeBudget >= FEE_UNITS && tx.signer in s && s[tx.signer].lamports >= tx.fee
  }

  /** The state with only the fee taken. */
  function Charged(tx: Transaction, s: Accounts): Accounts
    requires FeeCharged(tx, s)
  {
    s[tx.signer := s[tx.signer].(lamports := s[tx.signer].lamports - tx.fee)]
  }

  lemma LookupExt(s: Accounts, t: Accounts)
    requires forall k :: Agree(s, t, k)
    ensures s == t
  {
    forall k ensures k in s <==> k in t { assert Agree(s, t, k); }
    forall k | k in s ensures s[k] == t[k] { assert Agree(s, t, k); }
  }

  lemma {:induction false} RollbackAt(keys: seq<Pubkey>, before: Accounts, s: Accounts, k: Pubkey)
    ensures Lookup(Apply(Rollback(keys, LookupAll(before, keys)), s), k) ==
            if k in keys then Lookup(before, k) else Lookup(s, k)
    decreases |keys|
  {
    var ws := Rollback(keys, LookupAll(before, keys));
    if keys != [] {
      assert ws[1..] == Rollback(keys[1..], LookupAll(before, keys[1..]));
      RollbackAt(keys[1..], before, ApplyOne(ws[0], s), k);
      assert k in keys <==> k == keys[0] || k in keys[1..];
    }
  }

  /** Writing the snapshot back restores the snapshotted state exactly when nothing outside the
  mutable accounts has changed since. */
  lemma RollbackRestoresIff(tx: Transaction, before: Accounts, s: Accounts)
    ensures Apply(Rollback(MutableAccounts(tx), LookupAll(before, MutableAccounts(tx))), s) == before <==>
            AgreeOutside(tx, before, s)
  {
    var keys := MutableAccounts(tx);
    var restored := Apply(Rollback(keys, LookupAll(before, keys)), s);
    MutableExact(tx);
    forall k ensures Agree(restored, before, k) <==> (Exclusive(tx, k) || Agree(before, s, k)) {
      RollbackAt(keys, before, s, k);
    }
    if AgreeOutside(tx, before, s) {
      LookupExt(restored, before);
    }
  }

  lemma AgreeTrans(tx: Transaction, a: Accounts, b: Accounts, c: Accounts)
    requires AgreeOutside(tx, a, b) && AgreeOutside(tx, b, c)
    ensures AgreeOutside(tx, a, c)
  {
    forall k | !Exclusive(tx, k) ensures Agree(a, c, k) {
      assert Agree(a, b, k) && Agree(b, c, k);
    }
  }

  /** The run after a charged fee. */
  lemma AfterFee(tx: Transaction, s: Accounts)
    requires FeeCharged(tx, s)
    ensures Execute(tx, s) ==
            RunFrom(tx, Ix(0, FEE_UNITS, LookupAll(Charged(tx, s), MutableAccounts(tx))), Charged(tx, s))
  {
    var r := Step(tx, Fee, LookupAll(s, Loads(tx, Fee)));
    ApplySingle(r.0[0], s);
    assert r.0 == [r.0[0]];
    assert Apply(r.0, s) == Charged(tx, s) && r.1 == Snap;
    var c := Charged(tx, s);
    assert RunFrom(tx, Snap, c) == RunFrom(tx, Ix(0, FEE_UNITS, LookupAll(c, MutableAccounts(tx))), c);
  }

  lemma NoFee(tx: Transaction, s: Accounts)
    requires !FeeCharged(tx, s)
    ensures Execute(tx, s) == Result(s, false)
  {
    if Admitted(tx) {
      var r := Step(tx, Fee, LookupAll(s, Loads(tx, Fee)));
      assert r.0 == [] && r.1 == Halt(false);
      HaltResult(tx, false, s);
    }
  }

  // ---------- lamports ----------

  /** Lamports that the instructions from i on would create by transferring from a key to itself. */
  function SelfCredits(tx: Transaction, i: nat): nat
    requires i <= |tx.instructions|
    decreases |tx.instructions| - i
  {
    if i == |tx.instructions| then 0
    else
      var op := Decode(tx.instructions[i]);
      (if op.SystemTransfer? && Named(tx, i).Some? then LamportsCreated(op, Named(tx, i).value) else 0) +
      SelfCredits(tx, i + 1)
  }

  lemma PutsKeepKey(op: Op, metas: seq<Meta>, signer: Pubkey, keys: seq<Pubkey>, s: Accounts, k: Pubkey)
    requires k in s
    ensures k in After(op, metas, signer, keys, s)
  {
    var e := Effect(op, metas, signer, keys, s);
    if e.Some? {
      if |e.value| == 2 {
        assert e.value == [e.value[0], e.value[1]];
        ApplyTwo(e.value[0], e.value[1], s);
      } else {
        assert e.value == [e.value[0]];
        ApplySingle(e.value[0], s);
      }
    }
  }

  lemma HaltResult(tx: Transaction, ok: bool, s: Accounts)
    ensures RunFrom(tx, Halt(ok), s) == Result(s, ok)
  {
  }

  lemma DoneResult(tx: Transaction, units: nat, snapshot: seq<Option<Account>>, s: Accounts)
    requires |snapshot| == |MutableAccounts(tx)|
    ensures RunFrom(tx, Ix(|tx.instructions|, units, snapshot), s) == Result(s, true)
  {
    var pc := Ix(|tx.instructions|, units, snapshot);
    assert Step(tx, pc, LookupAll(s, Loads(tx, pc))) == ([], Halt(true));
    HaltResult(tx, true, s);
  }

  /** The effect of instruction i, in the terms of the programs. */
  function EffectAt(tx: Transaction, i: nat, s: Accounts): Option<seq<Write>>
    requires i < |tx.instructions|
  {
    if Named(tx, i).None? then None
    else Effect(Decode(tx.instructions[i]), tx.instructions[i].metas, tx.signer, tx.accountKeys, s)
  }

  function AfterAt(tx: Transaction, i: nat, s: Accounts): Accounts
    requires i < |tx.instructions|
  {
    After(Decode(tx.instructions[i]), tx.instructions[i].metas, tx.signer, tx.accountKeys, s)
  }

  lemma StepAt(tx: Transaction, i: nat, units: nat, snapshot: seq<Option<Account>>, s: Accounts)
    requires i < |tx.instructions| && |snapshot| == |MutableAccounts(tx)|
    ensures var pc := Ix(i, units, snapshot);
      var r := Step(tx, pc, LookupAll(s, Loads(tx, pc)));
      var units' := units + 150 + Cost(Decode(tx.instructions[i]));
      if EffectAt(tx, i, s).Some? && units' <= tx.computeBudget
      then r == (EffectAt(tx, i, s).value, Ix(i + 1, units', snapshot))
      else r.1 == Halt(false)
  {
  }

  /** A successful run from instruction i on: instruction i took effect and the rest succeeded. */
  lemma SuccessStep(tx: Transaction, i: nat, units: nat, snapshot: seq<Option<Account>>, s: Accounts)
    requires i < |tx.instructions| && |snapshot| == |MutableAccounts(tx)|
    requires RunFrom(tx, Ix(i, units, snapshot), s).success
    ensures EffectAt(tx, i, s).Some?
    ensures RunFrom(tx, Ix(i, units, snapshot), s) ==
      RunFrom(tx, Ix(i + 1, units + 150 + Cost(Decode(tx.instructions[i])), snapshot), AfterAt(tx, i, s))
  {
    var pc := Ix(i, units, snapshot);
    StepAt(tx, i, units, snapshot, s);
    hide Step;
    hide Loads;
    var r := Step(tx, pc, LookupAll(s, Loads(tx, pc)));
    if r.1 == Halt(false) {
      HaltResult(tx, false, Apply(r.0, s));
    }
  }

  lemma InstructionResult(tx: Transaction, i: nat, units: nat, snapshot: seq<Option<Account>>, s: Accounts)
    requires i < |tx.instructions| && |snapshot| == |MutableAccounts(tx)|
    ensures var units' := units + 150 + Cost(Decode(tx.instructions[i]));
      var t := if EffectAt(tx, i, s).Some? then AfterAt(tx, i, s) else s;
      RunFrom(tx, Ix(i, units, snapshot), s) ==
      if EffectAt(tx, i, s).Some? && units' <= tx.computeBudget
      then RunFrom(tx, Ix(i + 1, units', snapshot), t)
      else Result(Apply(Rollback(MutableAccounts(tx), snapshot), t), false)
  {
    StepAt(tx, i, units, snapshot, s);
    FailedStepAt(tx, i, units, snapshot, s);
    hide Step;
    hide Loads;
    var pc := Ix(i, units, snapshot);
    var r := Step(tx, pc, LookupAll(s, Loads(tx, pc)));
    if r.1 == Halt(false) {
      HaltResult(tx, false, Apply(r.0, s));
    }
  }

  lemma FailedStepAt(tx: Transaction, i: nat, units: nat, snapshot: seq<Option<Account>>, s: Accounts)
    requires i < |tx.instructions| && |snapshot| == |MutableAccounts(tx)|
    ensures var pc := Ix(i, units, snapshot);
      var r := Step(tx, pc, LookupAll(s, Loads(tx, pc)));
      var t := if EffectAt(tx, i, s).Some? then AfterAt(tx, i, s) else s;
      r.1 == Halt(false) ==> Apply(r.0, s) == Apply(Rollback(MutableAccounts(tx), snapshot), t)
  {
    if EffectAt(tx, i, s).Some? {
      ApplyAppend(EffectAt(tx, i, s).value, Rollback(MutableAccounts(tx), snapshot), s);
    }
  }

  // ---------- failures ----------

  /** Where the instructions have brought the state when they stop: after the last one that took
  effect, including one that took effect but exceeded the compute budget. */
  function Reached(tx: Transaction, i: nat, units: nat, s: Accounts): Accounts
    requires i <= |tx.instructions|
    decreases |tx.instructions| - i
  {
    if i == |tx.instructions| || EffectAt(tx, i, s).None? then s
    else
      var units' := units + 150 + Cost(Decode(tx.instructions[i]));
      var t := AfterAt(tx, i, s);
      if units' > tx.computeBudget then t else Reached(tx, i + 1, units', t)
  }

  /** A failing run of the instructions ends in the rolled back state they reached. */
  lemma {:induction false} InstructionsFail(tx: Transaction, i: nat, units: nat, snapshot: seq<Option<Account>>, s: Accounts)
    requires i <= |tx.instructions| && |snapshot| == |MutableAccounts(tx)|
    requires !RunFrom(tx, Ix(i, units, snapshot), s).success
    ensures RunFrom(tx, Ix(i, units, snapshot), s).accounts ==
            Apply(Rollback(MutableAccounts(tx), snapshot), Reached(tx, i, units, s))
    decreases |tx.instructions| - i
  {
    hide RunFrom;
    hide EffectAt;
    hide AfterAt;
    hide Rollback;
    hide MutableAccounts;
    if i < |tx.instructions| {
      InstructionResult(tx, i, units, snapshot, s);
      var units' := units + 150 + Cost(Decode(tx.instructions[i]));
      if EffectAt(tx, i, s).Some? && units' <= tx.computeBudget {
        InstructionsFail(tx, i + 1, units', snapshot, AfterAt(tx, i, s));
      }
    } else {
      DoneResult(tx, units, snapshot, s);
    }
  }

  /** Every failed transaction that paid, flagged or not: an account it may mutate is back to its value
  after the fee, and any other account is left as the instructions had changed it. */
  lemma FailureExactly(tx: Transaction, s: Accounts, k: Pubkey)
    requires FeeCharged(tx, s) && !Execute(tx, s).success
    ensures Lookup(Execute(tx, s).accounts, k) ==
      if Exclusive(tx, k) then Lookup(Charged(tx, s), k)
      else Lookup(Reached(tx, 0, FEE_UNITS, Charged(tx, s)), k)
  {
    hide Execute;
    hide RunFrom;
    hide Reached;
    hide MutableAccounts;
    var c := Charged(tx, s);
    var snapshot := LookupAll(c, MutableAccounts(tx));
    AfterFee(tx, s);
    InstructionsFail(tx, 0, FEE_UNITS, snapshot, c);
    RollbackAt(MutableAccounts(tx), c, Reached(tx, 0, FEE_UNITS, c), k);
    MutableExact(tx);
  }

  /** So it is atomic if and only if its instructions, up to the one that failed, left every account
  alone that is neither flagged writable nor the fee payer's. */
  lemma FailureAtomicIff(tx: Transaction, s: Accounts)
    requires FeeCharged(tx, s) && !Execute(tx, s).success
    ensures Execute(tx, s).accounts == Charged(tx, s) <==>
            AgreeOutside(tx, Charged(tx, s), Reached(tx, 0, FEE_UNITS, Charged(tx, s)))
  {
    hide Execute;
    hide Reached;
    var c, r, out := Charged(tx, s), Reached(tx, 0, FEE_UNITS, Charged(tx, s)), Execute(tx, s).accounts;
    forall k ensures Agree(out, c, k) <==> (Exclusive(tx, k) || Agree(c, r, k)) {
      FailureExactly(tx, s, k);
    }
    if AgreeOutside(tx, c, r) {
      LookupExt(out, c);
    }
  }

  lemma AgreeSelf(tx: Transaction, s: Accounts)
    ensures AgreeOutside(tx, s, s)
  {
  }

  lemma AfterWithin(tx: Transaction, i: nat, s: Accounts)
    requires Flagged(tx) && i < |tx.instructions| && EffectAt(tx, i, s).Some?
    ensures AgreeOutside(tx, s, AfterAt(tx, i, s))
  {
    hide Decide;
    hide Decode;
    hide Flagged;
    var op, ks := Decode(tx.instructions[i]), Named(tx, i).value;
    EffectWithin(tx, i, LookupAll(s, Needs(op, ks)));
    ApplyOutside(tx, EffectAt(tx, i, s).value, s);
  }

  /** Flagged transactions leave everything else alone. */
  lemma {:induction false} ReachedWithin(tx: Transaction, i: nat, units: nat, s: Accounts)
    requires Flagged(tx) && i <= |tx.instructions|
    ensures AgreeOutside(tx, s, Reached(tx, i, units, s))
    decreases |tx.instructions| - i
  {
    hide EffectAt;
    hide AfterAt;
    hide AgreeOutside;
    hide Flagged;
    AgreeSelf(tx, s);
    if i < |tx.instructions| && EffectAt(tx, i, s).Some? {
      AfterWithin(tx, i, s);
      var t := AfterAt(tx, i, s);
      var units' := units + 150 + Cost(Decode(tx.instructions[i]));
      AgreeSelf(tx, t);
      ReachedWithin(tx, i + 1, units', t);
      AgreeTrans(tx, s, t, Reached(tx, i + 1, units', t));
    }
  }

  /** A failed flagged transaction, wherever it fails, leaves every account as it was, except that the
  signer has paid the fee if it could be charged. */
  lemma FailureIsAtomic(tx: Transaction, s: Accounts)
    requires Flagged(tx) && !Execute(tx, s).success
    ensures Execute(tx, s).accounts == if FeeCharged(tx, s) then Charged(tx, s) else s
  {
    if FeeCharged(tx, s) {
      FailureAtomicIff(tx, s);
      ReachedWithin(tx, 0, FEE_UNITS, Charged(tx, s));
    } else {
      NoFee(tx, s);
    }
  }

  // ---------- lamports of whole transactions ----------

  /** While the signer's account exists no mint can be created. */
  lemma NoMintForExistingSigner(op: Op, metas: seq<Meta>, signer: Pubkey, keys: seq<Pubkey>, s: Accounts)
    requires signer in s && op.InitializeMint?
    ensures Effect(op, metas, signer, keys, s).None?
  {
  }

  lemma {:induction false} InstructionsLamports(tx: Transaction, i: nat, units: nat, snapshot: seq<Option<Account>>, s: Accounts)
    requires i <= |tx.instructions| && |snapshot| == |MutableAccounts(tx)| && tx.signer in s
    requires RunFrom(tx, Ix(i, units, snapshot), s).success
    ensures TotalLamports(RunFrom(tx, Ix(i, units, snapshot), s).accounts) == TotalLamports(s) + SelfCredits(tx, i)
    ensures forall j :: i <= j < |tx.instructions| ==> !Decode(tx.instructions[j]).InitializeMint?
    decreases |tx.instructions| - i
  {
    hide RunFrom;
    hide Decode;
    hide MutableAccounts;
    if i < |tx.instructions| {
      var ix := tx.instructions[i];
      var op := Decode(ix);
      SuccessStep(tx, i, units, snapshot, s);
      if op.InitializeMint? {
        NoMintForExistingSigner(op, ix.metas, tx.signer, tx.accountKeys, s);
      }
      LamportsBalance(op, ix.metas, tx.signer, tx.accountKeys, s);
      PutsKeepKey(op, ix.metas, tx.signer, tx.accountKeys, s, tx.signer);
      hide After;
      hide Effect;
      InstructionsLamports(tx, i + 1, units + 150 + Cost(op), snapshot, AfterAt(tx, i, s));
    } else {
      DoneResult(tx, units, snapshot, s);
    }
  }

  lemma ChargedLamports(tx: Transaction, s: Accounts)
    requires FeeCharged(tx, s)
    ensures TotalLamports(Charged(tx, s)) + tx.fee == TotalLamports(s)
  {
    SumPut(s, Lamports(), tx.signer, Charged(tx, s)[tx.signer]);
  }

  /** Total lamports fall by exactly the fee, plus whatever self-transfers create. In particular a
  successful transaction destroys exactly its fee if and only if it holds no self-transfer of a
  positive amount. */
  lemma SuccessLamports(tx: Transaction, s: Accounts)
    requires Execute(tx, s).success
    ensures FeeCharged(tx, s)
    ensures TotalLamports(Execute(tx, s).accounts) + tx.fee == TotalLamports(s) + SelfCredits(tx, 0)
  {
    if !FeeCharged(tx, s) {
      NoFee(tx, s);
    } else {
      AfterFee(tx, s);
      ChargedLamports(tx, s);
      InstructionsLamports(tx, 0, FEE_UNITS, LookupAll(Charged(tx, s), MutableAccounts(tx)), Charged(tx, s));
    }
  }

  /** Whether or not it succeeds, a transaction takes exactly the fee it was charged, and creates lamports
  only if it succeeds with self-transfers of positive amounts. A failing one must be flagged, so that it
  is rolled back. */
  lemma LamportsFallByTheFee(tx: Transaction, s: Accounts)
    requires Flagged(tx) || Execute(tx, s).success
    ensures TotalLamports(Execute(tx, s).accounts) + (if FeeCharged(tx, s) then tx.fee else 0) ==
            TotalLamports(s) + (if Execute(tx, s).success then SelfCredits(tx, 0) else 0)
  {
    if Execute(tx, s).success {
      SuccessLamports(tx, s);
    } else {
      FailureIsAtomic(tx, s);
      if FeeCharged(tx, s) { ChargedLamports(tx, s); }
    }
  }

  /** No transaction that tries to create a mint ever succeeds: the fee step needs the signer's
  account to exist and the mint must be that account and not exist. */
  lemma MintCreationAlwaysFails(tx: Transaction, s: Accounts, j: nat)
    requires j < |tx.instructions| && Decode(tx.instructions[j]).InitializeMint?
    ensures !Execute(tx, s).success
  {
    if Execute(tx, s).success {
      SuccessLamports(tx, s);
      AfterFee(tx, s);
      InstructionsLamports(tx, 0, FEE_UNITS, LookupAll(Charged(tx, s), MutableAccounts(tx)), Charged(tx, s));
    }
  }

  // ---------- token supply ----------

  lemma {:induction false} InstructionsSupply(tx: Transaction, i: nat, units: nat, snapshot: seq<Option<Account>>, s: Accounts)
    requires i <= |tx.instructions| && |snapshot| == |MutableAccounts(tx)| && SupplyOk(s)
    requires RunFrom(tx, Ix(i, units, snapshot), s).success
    ensures SupplyOk(RunFrom(tx, Ix(i, units, snapshot), s).accounts)
    decreases |tx.instructions| - i
  {
    hide RunFrom;
    if i < |tx.instructions| {
      var ix := tx.instructions[i];
      SuccessStep(tx, i, units, snapshot, s);
      InstructionKeepsSupply(Decode(ix), ix.metas, tx.signer, tx.accountKeys, s);
      hide After;
      hide Effect;
      InstructionsSupply(tx, i + 1, units + 150 + Cost(Decode(ix)), snapshot, AfterAt(tx, i, s));
    } else {
      DoneResult(tx, units, snapshot, s);
    }
  }

  /** Every successful transaction, and every failing one that is flagged, keeps recorded supply equal to the
  sum of balances. */
  lemma TransactionKeepsSupply(tx: Transaction, s: Accounts)
    requires SupplyOk(s) && (Flagged(tx) || Execute(tx, s).success)
    ensures SupplyOk(Execute(tx, s).accounts)
  {
    if FeeCharged(tx, s) {
      SameDataKeepsSupply(s, tx.signer, Charged(tx, s)[tx.signer]);
      if Execute(tx, s).success {
        AfterFee(tx, s);
        InstructionsSupply(tx, 0, FEE_UNITS, LookupAll(Charged(tx, s), MutableAccounts(tx)), Charged(tx, s));
      } else {
        FailureIsAtomic(tx, s);
      }
    } else {
      NoFee(tx, s);
    }
  }
}
