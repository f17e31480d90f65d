/** What executing one transaction does, as a sequence of blocks.

After its locks are taken a transaction charges the fee, snapshots the accounts it may mutate, runs
its instructions one after another, and on a failure writes the snapshot back. Each of these is a
block: it loads some accounts (`Loads`) and then, as a function of the loaded copies, performs some
writes and moves on (`Step`). Running the blocks to the end on one state gives the sequential
meaning `Execute`; module Interleaving runs the blocks of many transactions load by load and write
by write.
*/
module Execution {
  import opened Wrappers
  import opened Ledger
  import opened Programs
  import opened Transactions

  const FEE_UNITS: nat := 150

  datatype Pc =
    | Fee
    | Snap
    | Ix(i: nat, units: nat, snapshot: seq<Option<Account>>)
    | Halt(ok: bool)

  /** Every meta flagged as signer must resolve to the verified signer. */
  predicate SignersOk(tx: Transaction, ix: Instruction) {
    forall m :: m in ix.metas && m.isSigner ==> m.index < |tx.accountKeys| && tx.accountKeys[m.index] == tx.signer
  }

  /** The keys named by an instruction, when it gets as far as reading accounts. */
  function Named(tx: Transaction, i: nat): Option<seq<Pubkey>>
    requires i < |tx.instructions|
  {
    var ix := tx.instructions[i];
    if SignersOk(tx, ix) then Resolve(Decode(ix), ix.metas, tx.accountKeys) else None
  }

  function Loads(tx: Transaction, pc: Pc): seq<Pubkey> {
    match pc
    case Fee => if tx.computeBudget < FEE_UNITS then [] else [tx.signer]
    case Snap => MutableAccounts(tx)
    case Ix(i, _, _) =>
      if i < |tx.instructions| && Named(tx, i).Some? then Needs(Decode(tx.instructions[i]), Named(tx, i).value) else []
    case Halt(_) => []
  }

  /** Writing the snapshot back: stored accounts are stored again, absent ones removed. */
  function Rollback(keys: seq<Pubkey>, snapshot: seq<Option<Account>>): seq<Write>
    requires |keys| == |snapshot|
  {
    seq(|keys|, i requires 0 <= i < |keys| => if snapshot[i].Some? then Put(keys[i], snapshot[i].value) else Del(keys[i]))
  }

  predicate PcOk(tx: Transaction, pc: Pc) {
    pc.Ix? ==> pc.i <= |tx.instructions| && |pc.snapshot| == |MutableAccounts(tx)|
  }

  function Step(tx: Transaction, pc: Pc, vals: seq<Option<Account>>): (r: (seq<Write>, Pc))
    requires PcOk(tx, pc) && |vals| == |Loads(tx, pc)|
    ensures PcOk(tx, r.1) && (!pc.Halt? ==> Rank(tx, r.1) < Rank(tx, pc))
  {
    match pc
    case Fee =>
      if tx.computeBudget < FEE_UNITS || vals[0].None? || vals[0].value.lamports < tx.fee then ([], Halt(false))
      else ([Put(tx.signer, vals[0].value.(lamports := vals[0].value.lamports - tx.fee))], Snap)
    case Snap => ([], Ix(0, FEE_UNITS, vals))
    case Ix(i, units, snapshot) =>
      if i == |tx.instructions| then ([], Halt(true))
      else
        var undo := Rollback(MutableAccounts(tx), snapshot);
        var op := Decode(tx.instructions[i]);
        var effect := if Named(tx, i).Some? then Decide(op, tx.signer, Named(tx, i).value, vals) else None;
        if effect.None? then (undo, Halt(false))
        else
          var units' := units + 150 + Cost(op);
          if units' > tx.computeBudget then (effect.value + undo, Halt(false))
          else (effect.value, Ix(i + 1, units', snapshot))
    case Halt(_) => ([], pc)
  }

  function Rank(tx: Transaction, pc: Pc): nat {
    match pc
    case Fee => |tx.instructions| + 4
    case Snap => |tx.instructions| + 3
    case Ix(i, _, _) => if i <= |tx.instructions| then |tx.instructions| - i + 1 else 1
    case Halt(_) => 0
  }

  datatype Result = Result(accounts: Accounts, success: bool)

  /** Run the remaining blocks on one state. */
  function RunFrom(tx: Transaction, pc: Pc, s: Accounts): Result
    requires PcOk(tx, pc)
    decreases Rank(tx, pc)
  {
    if pc.Halt? then Result(s, pc.ok)
    else
      var r := Step(tx, pc, LookupAll(s, Loads(tx, pc)));
      RunFrom(tx, r.1, Apply(r.0, s))
  }

  predicate Admitted(tx: Transaction) {
    Validates(tx) && tx.signatureOk
  }

  /** The sequential meaning of a transaction. */
  function Execute(tx: Transaction, s: Accounts): Result {
    if Admitted(tx) then RunFrom(tx, Fee, s) else Result(s, false)
  }

  // ---------- footprint ----------

  /** Keys a successful instruction may store to, besides the signer's. */
  function StoresTo(op: Op, ks: seq<Pubkey>): set<Pubkey>
    requires |ks| == Arity(op)
  {
    match op
    case SystemTransfer(_) => {ks[1]}
    case CreateAccount(_, _, _) => {ks[1]}
    case InitializeAccount(_) => {ks[1]}
    case TokenTransfer(_) => {ks[0], ks[1]}
    case MintTo(_) => {ks[0], ks[1]}
    case Burn(_) => {ks[0], ks[1]}
    case _ => {}
  }

  /** Every account the transaction can change is flagged writable, or is the fee payer's. */
  ghost predicate Flagged(tx: Transaction) {
    forall i :: 0 <= i < |tx.instructions| && Named(tx, i).Some? ==>
      forall k :: k in StoresTo(Decode(tx.instructions[i]), Named(tx, i).value) ==> Exclusive(tx, k)
  }

  ghost predicate WritesWithin(ws: seq<Write>, tx: Transaction) {
    forall i :: 0 <= i < |ws| ==> Exclusive(tx, ws[i].key)
  }

  lemma EffectWithin(tx: Transaction, i: nat, vals: seq<Option<Account>>)
    requires Flagged(tx) && i < |tx.instructions| && Named(tx, i).Some?
    requires |vals| == |Needs(Decode(tx.instructions[i]), Named(tx, i).value)|
    ensures var e := Decide(Decode(tx.instructions[i]), tx.signer, Named(tx, i).value, vals);
      e.Some? ==> WritesWithin(e.value, tx)
  {
  }

  lemma RollbackWithin(tx: Transaction, snapshot: seq<Option<Account>>)
    requires |snapshot| == |MutableAccounts(tx)|
    ensures WritesWithin(Rollback(MutableAccounts(tx), snapshot), tx)
  {
    MutableExact(tx);
  }

  /** A block writes only accounts that the transaction holds exclusively. */
  lemma StepWritesWithin(tx: Transaction, pc: Pc, vals: seq<Option<Account>>)
    requires Flagged(tx) && PcOk(tx, pc) && |vals| == |Loads(tx, pc)|
    ensures WritesWithin(Step(tx, pc, vals).0, tx)
  {
    if pc.Ix? && pc.i < |tx.instructions| {
      RollbackWithin(tx, pc.snapshot);
      if Named(tx, pc.i).Some? {
        EffectWithin(tx, pc.i, vals);
      }
    }
  }

  /** A block loads only accounts that the transaction has locked. */
  lemma LoadsTouched(tx: Transaction, pc: Pc)
    ensures forall j :: 0 <= j < |Loads(tx, pc)| ==> Touches(tx, Loads(tx, pc)[j])
  {
    MutableExact(tx);
    if pc.Ix? && pc.i < |tx.instructions| && Named(tx, pc.i).Some? {
      var ix := tx.instructions[pc.i];
      var ks := Named(tx, pc.i).value;
      forall j | 0 <= j < |Loads(tx, pc)| ensures Touches(tx, Loads(tx, pc)[j]) {
        assert KeyAt(ix.metas, j, tx.accountKeys) == Some(ks[j]);
        ResolvedIsDeclared(tx, pc.i, j);
      }
    }
  }

  ghost predicate Agree(s: Accounts, t: Accounts, k: Pubkey) {
    Lookup(s, k) == Lookup(t, k)
  }

  /** Same values on every account the transaction touches. */
  ghost predicate AgreeOn(tx: Transaction, s: Accounts, t: Accounts) {
    forall k :: Touches(tx, k) ==> Agree(s, t, k)
  }

  ghost predicate AgreeOutside(tx: Transaction, s: Accounts, t: Accounts) {
    forall k :: !Exclusive(tx, k) ==> Agree(s, t, k)
  }

  lemma {:induction false} ApplyAgree(ws: seq<Write>, s: Accounts, t: Accounts, k: Pubkey)
    requires Agree(s, t, k)
    ensures Agree(Apply(ws, s), Apply(ws, t), k)
    decreases |ws|
  {
    if ws != [] {
      ApplyAgree(ws[1..], ApplyOne(ws[0], s), ApplyOne(ws[0], t), k);
    }
  }

  lemma {:induction false} ApplyOutside(tx: Transaction, ws: seq<Write>, s: Accounts)
    requires WritesWithin(ws, tx)
    ensures AgreeOutside(tx, s, Apply(ws, s))
    decreases |ws|
  {
    if ws != [] {
      ApplyOutside(tx, ws[1..], ApplyOne(ws[0], s));
      forall k | !Exclusive(tx, k) ensures Agree(s, Apply(ws, s), k) {
        assert Agree(s, ApplyOne(ws[0], s), k);
        assert Agree(ApplyOne(ws[0], s), Apply(ws, s), k);
      }
    }
  }

  lemma LoadsAgree(tx: Transaction, pc: Pc, s: Accounts, t: Accounts)
    requires AgreeOn(tx, s, t)
    ensures LookupAll(s, Loads(tx, pc)) == LookupAll(t, Loads(tx, pc))
  {
    LoadsTouched(tx, pc);
    forall j | 0 <= j < |Loads(tx, pc)| ensures Lookup(s, Loads(tx, pc)[j]) == Lookup(t, Loads(tx, pc)[j]) {
      assert Agree(s, t, Loads(tx, pc)[j]);
    }
  }

  /** Only the touched accounts matter, and only exclusive ones change. */
  lemma {:induction false} RunFrame(tx: Transaction, pc: Pc, s: Accounts, t: Accounts)
    requires Flagged(tx) && PcOk(tx, pc) && AgreeOn(tx, s, t)
    ensures RunFrom(tx, pc, s).success == RunFrom(tx, pc, t).success
    ensures AgreeOn(tx, RunFrom(tx, pc, s).accounts, RunFrom(tx, pc, t).accounts)
    ensures AgreeOutside(tx, s, RunFrom(tx, pc, s).accounts)
    decreases Rank(tx, pc)
  {
    if !pc.Halt? {
      LoadsAgree(tx, pc, s, t);
      var vals := LookupAll(s, Loads(tx, pc));
      var r := Step(tx, pc, vals);
      StepWritesWithin(tx, pc, vals);
      ApplyOutside(tx, r.0, s);
      forall k | Touches(tx, k) ensures Agree(Apply(r.0, s), Apply(r.0, t), k) {
        ApplyAgree(r.0, s, t, k);
      }
      RunFrame(tx, r.1, Apply(r.0, s), Apply(r.0, t));
      forall k | !Exclusive(tx, k) ensures Agree(s, RunFrom(tx, pc, s).accounts, k) {
        assert Agree(s, Apply(r.0, s), k);
        assert Agree(Apply(r.0, s), RunFrom(tx, pc, s).accounts, k);
      }
    }
  }

  lemma ExecuteFrame(tx: Transaction, s: Accounts, t: Accounts)
    requires Flagged(tx) && AgreeOn(tx, s, t)
    ensures Execute(tx, s).success == Execute(tx, t).success
    ensures AgreeOn(tx, Execute(tx, s).accounts, Execute(tx, t).accounts)
    ensures AgreeOutside(tx, s, Execute(tx, s).accounts)
  {
    if Admitted(tx) {
      RunFrame(tx, Fee, s, t);
    }
  }
}
