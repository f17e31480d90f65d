/** Who may take what: lamports leave only signers' accounts, tokens only accounts whose authority signs,
and supply grows only when the mint's authority signs; from one instruction to whole concurrent runs. */
module Permissions {
  import opened Bytes
  import opened Wrappers
  import opened Ledger
  import opened Programs
  import opened ProgramMethods
  import opened Transactions
  import opened Execution
  import opened ExecutionLaws
  import opened Interleaving

  /** The change of account data is one that the signers allow. */
  predicate DataAllowed(before: AccountData, after: AccountData, signers: set<Pubkey>) {
    match before
    case Token(mint, authority, amount) =>
      after.Token? && after.mint == mint && after.authority == authority &&
      (after.amount < amount ==> authority in signers)
    case Mint(authority, supply) =>
      after.Mint? && after.mintAuthority == authority && (after.supply > supply ==> authority in signers)
    case _ => after == before
  }

  /** Account k is still there, and changed only as the signers allow. */
  ghost predicate AllowedAt(s: Accounts, t: Accounts, signers: set<Pubkey>, k: Pubkey)
    requires k in s
  {
    && k in t
    && (t[k].lamports < s[k].lamports ==> k in signers)
    && (t[k].owner != s[k].owner ==> k in signers)
    && t[k].executable == s[k].executable
    && DataAllowed(s[k].data, t[k].data, signers)
  }

  ghost predicate Allowed(s: Accounts, t: Accounts, signers: set<Pubkey>) {
    forall k :: k in s ==> AllowedAt(s, t, signers, k)
  }

  lemma AllowedTrans(a: Accounts, b: Accounts, c: Accounts, signers: set<Pubkey>)
    requires Allowed(a, b, signers) && Allowed(b, c, signers)
    ensures Allowed(a, c, signers)
  {
    forall k | k in a ensures AllowedAt(a, c, signers, k) {
      assert AllowedAt(a, b, signers, k) && AllowedAt(b, c, signers, k);
    }
  }

  lemma AllowedMore(s: Accounts, t: Accounts, signers: set<Pubkey>, more: set<Pubkey>)
    requires Allowed(s, t, signers) && signers <= more
    ensures Allowed(s, t, more)
  {
    forall k | k in s ensures AllowedAt(s, t, more, k) {
      assert AllowedAt(s, t, signers, k);
    }
  }

  /** Every instruction changes existing accounts only as its signer allows, and removes none. */
  lemma InstructionAllowed(op: Op, metas: seq<Meta>, signer: Pubkey, keys: seq<Pubkey>, s: Accounts)
    ensures Allowed(s, After(op, metas, signer, keys, s), {signer})
  {
    var e := Effect(op, metas, signer, keys, s);
    if e.Some? {
      if |e.value| == 1 {
        assert e.value == [e.value[0]];
        ApplySingle(e.value[0], s);
      } else {
        assert e.value == [e.value[0], e.value[1]];
        ApplyTwo(e.value[0], e.value[1], s);
      }
    }
  }

  lemma FeeAllowed(tx: Transaction, s: Accounts)
    requires FeeCharged(tx, s)
    ensures Allowed(s, Charged(tx, s), {tx.signer})
  {
  }

  lemma {:induction false} InstructionsAllowed(tx: Transaction, i: nat, units: nat, snapshot: seq<Option<Account>>, s: Accounts)
    requires i <= |tx.instructions| && |snapshot| == |MutableAccounts(tx)|
    requires RunFrom(tx, Ix(i, units, snapshot), s).success
    ensures Allowed(s, RunFrom(tx, Ix(i, units, snapshot), s).accounts, {tx.signer})
    decreases |tx.instructions| - i
  {
    hide RunFrom;
    hide After;
    hide Effect;
    hide Allowed;
    if i < |tx.instructions| {
      var ix := tx.instructions[i];
      SuccessStep(tx, i, units, snapshot, s);
      InstructionAllowed(Decode(ix), ix.metas, tx.signer, tx.accountKeys, s);
      var t := AfterAt(tx, i, s);
      var units' := units + 150 + Cost(Decode(ix));
      InstructionsAllowed(tx, i + 1, units', snapshot, t);
      AllowedTrans(s, t, RunFrom(tx, Ix(i + 1, units', snapshot), t).accounts, {tx.signer});
    } else {
      DoneResult(tx, units, snapshot, s);
      AllowedRefl(s, {tx.signer});
    }
  }

  lemma AllowedRefl(s: Accounts, signers: set<Pubkey>)
    ensures Allowed(s, s, signers)
  {
  }

  lemma {:induction false} ReachedAllowed(tx: Transaction, i: nat, units: nat, s: Accounts)
    requires i <= |tx.instructions|
    ensures Allowed(s, Reached(tx, i, units, s), {tx.signer})
    decreases |tx.instructions| - i
  {
    AllowedRefl(s, {tx.signer});
    hide After;
    hide Effect;
    hide Allowed;
    if i < |tx.instructions| && EffectAt(tx, i, s).Some? {
      var ix := tx.instructions[i];
      InstructionAllowed(Decode(ix), ix.metas, tx.signer, tx.accountKeys, s);
      var t := AfterAt(tx, i, s);
      var units' := units + 150 + Cost(Decode(ix));
      ReachedAllowed(tx, i + 1, units', t);
      AllowedTrans(s, t, Reached(tx, i + 1, units', t), {tx.signer});
    }
  }

  lemma FailureAllowed(tx: Transaction, s: Accounts)
    requires FeeCharged(tx, s) && !Execute(tx, s).success
    ensures Allowed(Charged(tx, s), Execute(tx, s).accounts, {tx.signer})
  {
    hide Execute;
    hide Reached;
    var c, out := Charged(tx, s), Execute(tx, s).accounts;
    var r := Reached(tx, 0, FEE_UNITS, c);
    ReachedAllowed(tx, 0, FEE_UNITS, c);
    AllowedRefl(c, {tx.signer});
    forall k | k in c ensures AllowedAt(c, out, {tx.signer}, k) {
      FailureExactly(tx, s, k);
      assert AllowedAt(c, r, {tx.signer}, k) && AllowedAt(c, c, {tx.signer}, k);
    }
  }

  /** A transaction, flagged or not, takes only what its signer may give, whether or not it succeeds. */
  lemma TransactionAllowed(tx: Transaction, s: Accounts)
    ensures Allowed(s, Execute(tx, s).accounts, {tx.signer})
  {
    AllowedRefl(s, {tx.signer});
    hide Execute;
    hide RunFrom;
    hide Allowed;
    if !FeeCharged(tx, s) {
      NoFee(tx, s);
    } else {
      var c := Charged(tx, s);
      FeeAllowed(tx, s);
      if Execute(tx, s).success {
        AfterFee(tx, s);
        InstructionsAllowed(tx, 0, FEE_UNITS, LookupAll(c, MutableAccounts(tx)), c);
      } else {
        FailureAllowed(tx, s);
      }
      AllowedTrans(s, c, Execute(tx, s).accounts, {tx.signer});
    }
  }

  function Signers(txs: seq<Transaction>): set<Pubkey> {
    set t | 0 <= t < |txs| :: txs[t].signer
  }

  lemma {:induction false} SerialAllowed(txs: seq<Transaction>, order: seq<nat>, mem: Accounts)
    requires forall i :: 0 <= i < |order| ==> order[i] < |txs|
    ensures Allowed(mem, Serial(txs, order, mem), Signers(txs))
    decreases |order|
  {
    AllowedRefl(mem, Signers(txs));
    if order != [] {
      hide Execute;
      hide Allowed;
      var n := |order| - 1;
      var tx, s := txs[order[n]], Serial(txs, order[..n], mem);
      SerialAllowed(txs, order[..n], mem);
      TransactionAllowed(tx, s);
      assert tx.signer in Signers(txs);
      AllowedMore(s, Execute(tx, s).accounts, {tx.signer}, Signers(txs));
      AllowedTrans(mem, s, Execute(tx, s).accounts, Signers(txs));
    }
  }

  /** However the threads interleave, an account loses lamports only if it signs one of the transactions,
  a token balance falls only if its authority does, and supply grows only if the mint's authority does. */
  lemma RunAllowed(txs: seq<Transaction>, mem: Accounts, schedule: seq<nat>, w: World)
    requires AllFlagged(txs) && Reaches(txs, mem, schedule, w) && |w.threads| == |txs|
    requires forall t :: 0 <= t < |txs| ==> w.threads[t].Finished?
    ensures Allowed(mem, w.mem, Signers(txs))
  {
    var order := Serializable(txs, mem, schedule, w);
    SerialAllowed(txs, order, mem);
  }

  // ---------- what moves where ----------

  /** A successful transfer between two accounts takes the amount from the first and adds it to the
  second, which is created if it was absent; nothing else changes. */
  lemma TransferMoves(lamports: U64, metas: seq<Meta>, signer: Pubkey, keys: seq<Pubkey>, s: Accounts, from: Pubkey, to: Pubkey)
    requires Resolve(SystemTransfer(lamports), metas, keys) == Some([from, to]) && from != to
    requires Effect(SystemTransfer(lamports), metas, signer, keys, s).Some?
    ensures var t := After(SystemTransfer(lamports), metas, signer, keys, s);
      && t.Keys == s.Keys + {to} && from in s && from == signer
      && t[from] == s[from].(lamports := t[from].lamports) && t[from].lamports + lamports == s[from].lamports
      && t[to].lamports == lamports + (if to in s then s[to].lamports else 0)
      && (to in s ==> t[to] == s[to].(lamports := t[to].lamports))
      && (forall k :: k in s && k != from && k != to ==> t[k] == s[k])
  {
    var ws := Effect(SystemTransfer(lamports), metas, signer, keys, s).value;
    assert ws == [ws[0], ws[1]];
    ApplyTwo(ws[0], ws[1], s);
  }

  /** A successful token transfer moves the amount between two balances of one mint; nothing else
  changes. */
  lemma TokensMove(amount: U64, metas: seq<Meta>, signer: Pubkey, keys: seq<Pubkey>, s: Accounts, from: Pubkey, to: Pubkey)
    requires Resolve(TokenTransfer(amount), metas, keys) == Some([from, to])
    requires Effect(TokenTransfer(amount), metas, signer, keys, s).Some?
    ensures var t := After(TokenTransfer(amount), metas, signer, keys, s);
      && t.Keys == s.Keys && from in s && to in s && from != to
      && s[from].data.Token? && s[to].data.Token? && s[from].data.mint == s[to].data.mint
      && t[from].data.Token? && t[to].data.Token?
      && t[from].data.amount + amount == s[from].data.amount
      && t[to].data.amount == s[to].data.amount + amount
      && (forall k :: k in s ==> t[k].lamports == s[k].lamports && (k != from && k != to ==> t[k] == s[k]))
  {
    var ws := Effect(TokenTransfer(amount), metas, signer, keys, s).value;
    assert ws == [ws[0], ws[1]];
    ApplyTwo(ws[0], ws[1], s);
  }
}
