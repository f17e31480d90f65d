/** The transaction executor as it runs, proved against `Execution.Execute`. */
module Executor {
  import opened Wrappers
  import opened Ledger
  import opened Programs
  import PM = ProgramMethods
  import opened Transactions
  import opened Execution
  import opened ExecutionLaws

  /** Load the current value of every mutable account. */
  method Snapshot(db: Database, keys: seq<Pubkey>) returns (snapshot: seq<Option<Account>>)
    ensures snapshot == LookupAll(db.accounts, keys)
  {
    snapshot := [];
    for i := 0 to |keys|
      invariant |snapshot| == i && forall j :: 0 <= j < i ==> snapshot[j] == Lookup(db.accounts, keys[j])
    {
      var prev := db.Load(keys[i]);
      snapshot := snapshot + [prev];
    }
  }

  /** Store what existed, remove what did not. */
  method RollbackTransaction(db: Database, keys: seq<Pubkey>, snapshot: seq<Option<Account>>)
    requires |keys| == |snapshot|
    modifies db
    ensures db.accounts == Apply(Rollback(keys, snapshot), old(db.accounts))
  {
    ghost var ws := Rollback(keys, snapshot);
    for i := 0 to |keys|
      invariant Apply(ws[i..], db.accounts) == Apply(ws, old(db.accounts))
    {
      assert ws[i..][1..] == ws[i + 1..];
      if snapshot[i].Some? {
        db.Store(keys[i], snapshot[i].value);
      } else {
        db.Remove(keys[i]);
      }
    }
  }

  /** Charge the fee to the signer. */
  method PayFee(db: Database, tx: Transaction) returns (ok: bool)
    requires Admitted(tx)
    modifies db
    ensures ok == FeeCharged(tx, old(db.accounts))
    ensures db.accounts == if ok then Charged(tx, old(db.accounts)) else old(db.accounts)
  {
    if FEE_UNITS > tx.computeBudget {
      return false;
    }
    var account := db.Load(tx.signer);
    if account.None? || account.value.lamports < tx.fee {
      return false;
    }
    db.Store(tx.signer, account.value.(lamports := account.value.lamports - tx.fee));
    return true;
  }

  method CheckSigners(tx: Transaction, ix: Instruction) returns (ok: bool)
    ensures ok == SignersOk(tx, ix)
  {
    for j := 0 to |ix.metas|
      invariant forall m :: m in ix.metas[..j] && m.isSigner ==>
        m.index < |tx.accountKeys| && tx.accountKeys[m.index] == tx.signer
    {
      var m := ix.metas[j];
      if m.isSigner && (m.index >= |tx.accountKeys| || tx.accountKeys[m.index] != tx.signer) {
        assert m in ix.metas;
        return false;
      }
      assert ix.metas[..j + 1] == ix.metas[..j] + [m];
    }
    assert ix.metas[..|ix.metas|] == ix.metas;
    return true;
  }

  /** Run instruction i, adding its compute units; the writes of a program that succeeds but exceeds
  the transaction's budget are left for the caller to roll back. */
  method ExecuteInstruction(db: Database, tx: Transaction, i: nat, units: nat) returns (ok: bool, units': nat)
    requires i < |tx.instructions|
    modifies db
    ensures db.accounts == if EffectAt(tx, i, old(db.accounts)).Some?
                           then AfterAt(tx, i, old(db.accounts)) else old(db.accounts)
    ensures ok <==> EffectAt(tx, i, old(db.accounts)).Some? &&
                    units + 150 + Cost(Decode(tx.instructions[i])) <= tx.computeBudget
    ensures ok ==> units' == units + 150 + Cost(Decode(tx.instructions[i]))
  {
    var ix := tx.instructions[i];
    var signers := CheckSigners(tx, ix);
    if !signers {
      return false, units;
    }
    var r, used := PM.ProcessInstruction(ix, tx.signer, tx.accountKeys, db);
    units' := units + used;
    if units' > tx.computeBudget {
      return false, units';
    }
    ok := r.Ok?;
  }

  /** Run the instructions in order; the first failure rolls everything back. */
  method RunInstructions(db: Database, tx: Transaction, keys: seq<Pubkey>, snapshot: seq<Option<Account>>)
    returns (ok: bool)
    requires keys == MutableAccounts(tx) && |snapshot| == |keys|
    modifies db
    ensures Result(db.accounts, ok) == RunFrom(tx, Ix(0, FEE_UNITS, snapshot), old(db.accounts))
  {
    hide RunFrom;
    hide EffectAt;
    hide AfterAt;
    hide Rollback;
    hide MutableAccounts;
    var units := FEE_UNITS;
    for i := 0 to |tx.instructions|
      invariant RunFrom(tx, Ix(i, units, snapshot), db.accounts) ==
                RunFrom(tx, Ix(0, FEE_UNITS, snapshot), old(db.accounts))
    {
      InstructionResult(tx, i, units, snapshot, db.accounts);
      var done;
      done, units := ExecuteInstruction(db, tx, i, units);
      if !done {
        RollbackTransaction(db, keys, snapshot);
        return false;
      }
    }
    DoneResult(tx, units, snapshot, db.accounts);
    return true;
  }

  /** Execute one transaction under its locks. */
  method ExecuteTransaction(db: Database, tx: Transaction) returns (ok: bool)
    modifies db
    ensures Result(db.accounts, ok) == Execute(tx, old(db.accounts))
  {
    if !Validates(tx) || !tx.signatureOk {
      return false;
    }
    var paid := PayFee(db, tx);
    if !paid {
      NoFee(tx, old(db.accounts));
      return false;
    }
    AfterFee(tx, old(db.accounts));
    var keys := MutableAccounts(tx);
    var snapshot := Snapshot(db, keys);
    ok := RunInstructions(db, tx, keys, snapshot);
  }

  /** Collect, sort and deduplicate the locks of a transaction. */
  method LockAccounts(tx: Transaction) returns (locks: seq<Lock>)
    ensures locks == LockList(tx)
  {
    var combined: seq<Lock> := [];
    var ws, rs := WriteAccounts(tx), ReadAccounts(tx);
    for i := 0 to |ws|
      invariant combined == Tagged(ws[..i], true)
    {
      combined := combined + [Lock(ws[i], true)];
    }
    assert ws[..|ws|] == ws;
    combined := combined + [Lock(tx.signer, true)];
    for i := 0 to |rs|
      invariant combined == Tagged(ws, true) + [Lock(tx.signer, true)] + Tagged(rs[..i], false)
    {
      combined := combined + [Lock(rs[i], false)];
    }
    assert rs[..|rs|] == rs;
    var sorted := StableSort(combined);
    locks := DedupByKey(sorted);
  }

  /** Keep the first of equal neighbours, as `dedup_by` does. */
  method DedupByKey(xs: seq<Lock>) returns (ys: seq<Lock>)
    ensures ys == Dedup(xs)
  {
    ys := [];
    var i := |xs|;
    while i > 0
      invariant 0 <= i <= |xs| && ys == Dedup(xs[i..])
    {
      i := i - 1;
      assert xs[i..][1..] == xs[i + 1..];
      if i + 1 < |xs| && xs[i].key == xs[i + 1].key {
        ys := [xs[i]] + ys[1..];
      } else {
        ys := [xs[i]] + ys;
      }
    }
    assert xs[0..] == xs;
  }
}
