/** Why the laws of execution need their hypotheses: concrete transactions for which they fail. */
module Caveats {
  import opened Bytes
  import opened Wrappers
  import opened Ledger
  import opened Programs
  import opened ProgramMethods
  import opened Transactions
  import opened Execution
  import opened ExecutionLaws
  import SharedPayers

  function TransferIx(lamports: nat, flagSource: bool, flagTarget: bool): Instruction {
    Instruction(SYSTEM_PROGRAM, [Meta(0, true, flagSource), Meta(1, false, flagTarget)], [2] + ToLe(lamports, 8))
  }

  lemma TransferDecodes(lamports: U64, fs: bool, ft: bool)
    ensures Decode(TransferIx(lamports, fs, ft)) == SystemTransfer(lamports)
  {
    var data := [2] + ToLe(lamports, 8);
    assert data[1..9] == ToLe(lamports, 8);
    Widths();
    FromToLe(lamports, 8);
  }

  lemma TransferNamed(tx: Transaction, lamports: U64, fs: bool, ft: bool, to: Pubkey)
    requires |tx.instructions| > 0 && tx.instructions[0] == TransferIx(lamports, fs, ft)
    requires tx.accountKeys == [tx.signer, to]
    ensures Named(tx, 0) == Some([tx.signer, to])
  {
    TransferDecodes(lamports, fs, ft);
    var metas := tx.instructions[0].metas;
    assert KeyAt(metas, 0, tx.accountKeys) == Some(tx.signer);
    assert KeyAt(metas, 1, tx.accountKeys) == Some(to);
    var ks := Resolve(SystemTransfer(lamports), metas, tx.accountKeys);
    assert ks.Some?;
    assert ks.value == [tx.signer, to];
  }

  lemma TransferEffect(tx: Transaction, lamports: U64, fs: bool, ft: bool, to: Pubkey, s: Accounts)
    requires |tx.instructions| > 0 && tx.instructions[0] == TransferIx(lamports, fs, ft)
    requires tx.accountKeys == [tx.signer, to] && to !in s
    requires tx.signer in s && s[tx.signer].lamports >= lamports
    ensures EffectAt(tx, 0, s).Some? && to in AfterAt(tx, 0, s)
  {
    TransferDecodes(lamports, fs, ft);
    TransferNamed(tx, lamports, fs, ft, to);
    var e := EffectAt(tx, 0, s);
    assert e.value == [e.value[0], e.value[1]] && e.value[1].key == to;
    ApplyTwo(e.value[0], e.value[1], s);
  }

  /** A transfer to an account that is not flagged writable, followed by an unknown program. */
  function Unflagged(): Transaction {
    Transaction(true, 7, [7, 8], [TransferIx(1, true, false), Instruction(99, [], [])], 200_000, 5000)
  }

  /** Rollback misses accounts that are not flagged: after the failure the recipient keeps the
  transferred lamport. */
  lemma UnflaggedWriteSurvives()
    ensures var s := map[7 := NewSystemAccount(10_000)];
      FeeCharged(Unflagged(), s) && !Execute(Unflagged(), s).success && 8 !in s && 8 in Execute(Unflagged(), s).accounts
  {
    hide Execute;
    hide RunFrom;
    hide MutableAccounts;
    var s := map[7 := NewSystemAccount(10_000)];
    var tx := Unflagged();
    var c := Charged(tx, s);
    AfterFee(tx, s);
    UnflaggedRun(c);
  }

  lemma UnflaggedRun(c: Accounts)
    requires 8 !in c && 7 in c && c[7].lamports >= 1
    ensures var tx := Unflagged();
      var r := RunFrom(tx, Ix(0, FEE_UNITS, LookupAll(c, MutableAccounts(tx))), c);
      !r.success && 8 in r.accounts
  {
    hide RunFrom;
    hide MutableAccounts;
    hide Decode;
    var tx := Unflagged();
    TransferEffect(tx, 1, true, false, 8, c);
    var snapshot := LookupAll(c, MutableAccounts(tx));
    InstructionResult(tx, 0, FEE_UNITS, snapshot, c);
    var t := AfterAt(tx, 0, c);
    UnflaggedSteps(t);
    hide EffectAt;
    hide AfterAt;
    InstructionResult(tx, 1, FEE_UNITS + 300, snapshot, t);
    UnflaggedWrites();
    MutableExact(tx);
    RollbackAt(MutableAccounts(tx), c, t, 8);
  }

  lemma UnflaggedSteps(t: Accounts)
    ensures Cost(Decode(Unflagged().instructions[0])) == 150
    ensures EffectAt(Unflagged(), 1, t).None?
  {
    TransferDecodes(1, true, false);
  }

  lemma UnflaggedWrites()
    ensures !Exclusive(Unflagged(), 8)
  {
    var tx := Unflagged();
    var metas := tx.instructions[0].metas;
    assert metas[1..] == [metas[1]];
    assert metas[1..][1..] == [];
    assert MetaKeys(metas, tx.accountKeys, true) == [7];
    assert tx.instructions[1..] == [tx.instructions[1]];
    assert WriteAccounts(tx) == [7];
  }

  /** One transaction per recipient, both paid by account 7 with different fees. */
  function PaidBy7(to: Pubkey, fee: U64): Transaction {
    Transaction(true, 7, [7, to], [TransferIx(0, false, true)], 200_000, fee)
  }

  function MetaKey(m: Meta, keys: seq<Pubkey>, w: bool): seq<Pubkey> {
    if m.isWritable == w && m.index < |keys| then [keys[m.index]] else []
  }

  lemma TwoMetas(metas: seq<Meta>, keys: seq<Pubkey>, w: bool)
    requires |metas| == 2
    ensures MetaKeys(metas, keys, w) == MetaKey(metas[0], keys, w) + MetaKey(metas[1], keys, w)
  {
    var rest := metas[1..];
    assert rest[1..] == [];
    assert MetaKeys(rest, keys, w) == MetaKey(metas[1], keys, w) + MetaKeys(rest[1..], keys, w);
  }

  lemma PaidBy7Accounts(to: Pubkey, fee: U64)
    ensures WriteAccounts(PaidBy7(to, fee)) == [to] && ReadAccounts(PaidBy7(to, fee)) == [7]
  {
    var tx := PaidBy7(to, fee);
    var metas := tx.instructions[0].metas;
    TwoMetas(metas, tx.accountKeys, true);
    TwoMetas(metas, tx.accountKeys, false);
    assert tx.instructions[1..] == [];
    assert MetaKeys(metas, tx.accountKeys, true) == [to];
    assert MetaKeys(metas, tx.accountKeys, false) == [7];
    assert DeclaredKeys([], tx.accountKeys, true) == DeclaredKeys([], tx.accountKeys, false) == [];
  }

  lemma PaidBy7Runs(to: Pubkey, fee: U64, s: Accounts)
    requires to !in s && 7 in s && s[7].lamports >= fee >= MIN_FEE
    ensures Execute(PaidBy7(to, fee), s).success
  {
    var tx := PaidBy7(to, fee);
    var c := Charged(tx, s);
    AfterFee(tx, s);
    TransferDecodes(0, false, true);
    TransferEffect(tx, 0, false, true, to, c);
    var snapshot := LookupAll(c, MutableAccounts(tx));
    InstructionResult(tx, 0, FEE_UNITS, snapshot, c);
    DoneResult(tx, FEE_UNITS + 300, snapshot, AfterAt(tx, 0, c));
  }

  lemma PaidBy7Apart()
    ensures !ConflictsWith(PaidBy7(8, 5000), PaidBy7(9, 6000))
    ensures !ConflictsWith(PaidBy7(9, 6000), PaidBy7(8, 5000))
  {
    PaidBy7Accounts(8, 5000);
    PaidBy7Accounts(9, 6000);
  }

  lemma PaidBy7Spends(to: Pubkey, fee: U64, s: Accounts)
    requires to != 7 && Execute(PaidBy7(to, fee), s).success
    ensures TotalLamports(Execute(PaidBy7(to, fee), s).accounts) + fee == TotalLamports(s)
  {
    hide Execute;
    hide Named;
    hide Decode;
    var tx := PaidBy7(to, fee);
    SuccessLamports(tx, s);
    TransferNamed(tx, 0, false, true, to);
    TransferDecodes(0, false, true);
    assert SelfCredits(tx, 1) == 0;
  }

  /** The scheduler sees no conflict between transactions that only share their fee payer, yet their
  order decides which of them can pay. */
  lemma SharedPayerOrderMatters()
    ensures var s := map[7 := NewSystemAccount(10_000)];
      var a, b := PaidBy7(8, 5000), PaidBy7(9, 6000);
      && !ConflictsWith(a, b)
      && Execute(b, s).success
      && Execute(a, s).success
      && !Execute(b, Execute(a, s).accounts).success
  {
    hide Execute;
    hide ConflictsWith;
    var s := map[7 := NewSystemAccount(10_000)];
    PaidBy7Apart();
    PaidBy7Runs(8, 5000, s);
    PaidBy7Runs(9, 6000, s);
    PaidBy7Spends(8, 5000, s);
    OneAccountTotal(s);
    CannotPay(PaidBy7(9, 6000), Execute(PaidBy7(8, 5000), s).accounts);
  }

  lemma PaidBy7PaysOut(to: Pubkey, fee: U64)
    requires to != 7
    ensures Flagged(PaidBy7(to, fee)) && SharedPayers.PaysOut(PaidBy7(to, fee))
    ensures SharedPayers.Outflow(PaidBy7(to, fee)) == fee
  {
    var tx := PaidBy7(to, fee);
    TransferDecodes(0, false, true);
    TransferNamed(tx, 0, false, true, to);
    PaidBy7Accounts(to, fee);
    hide Decode;
    hide Named;
    hide WriteAccounts;
    assert SharedPayers.OutflowFrom(tx, 1) == 0;
  }

  /** One transaction for each of the recipients 8 and 9. */
  function Pair(): seq<Transaction> { [PaidBy7(8, 5000), PaidBy7(9, 6000)] }

  lemma PairOwes()
    ensures SharedPayers.Owed(Pair(), SharedPayers.Ids(Pair()), 7) == 11_000
  {
    var txs := Pair();
    PaidBy7PaysOut(8, 5000);
    PaidBy7PaysOut(9, 6000);
    hide SharedPayers.Outflow;
    assert SharedPayers.Ids(txs) - {0} == {1} && {1} - {1} == {};
    SharedPayers.OwedRemove(txs, SharedPayers.Ids(txs), 7, 0);
    SharedPayers.OwedRemove(txs, {1}, 7, 1);
  }

  lemma OnePayerOnlyPays(a: Transaction, b: Transaction)
    requires Flagged(a) && Flagged(b) && SharedPayers.PaysOut(a) && SharedPayers.PaysOut(b)
    requires a.signer == b.signer && !ConflictsWith(a, b) && !ConflictsWith(b, a)
    ensures SharedPayers.PayersOnlyPay([a, b])
  {
    hide Flagged;
    hide SharedPayers.PaysOut;
    hide ConflictsWith;
  }

  lemma PairOnlyPays()
    ensures SharedPayers.PayersOnlyPay(Pair())
  {
    hide Flagged;
    hide SharedPayers.PaysOut;
    hide ConflictsWith;
    hide SharedPayers.PayersOnlyPay;
    PaidBy7PaysOut(8, 5000);
    PaidBy7PaysOut(9, 6000);
    PaidBy7Apart();
    OnePayerOnlyPays(PaidBy7(8, 5000), PaidBy7(9, 6000));
  }

  lemma PairCovered(n: U64)
    ensures SharedPayers.Covered(Pair(), map[7 := NewSystemAccount(n)]) <==> n >= 11_000
  {
    PairOwes();
    hide SharedPayers.Owed;
    hide SharedPayers.Ids;
    assert Pair()[0].signer == Pair()[1].signer == 7;
    hide Pair;
  }

  lemma PairAlone(n: U64)
    requires n >= 6000
    ensures SharedPayers.SucceedAlone(Pair(), map[7 := NewSystemAccount(n)])
  {
    hide Execute;
    PaidBy7Runs(8, 5000, map[7 := NewSystemAccount(n)]);
    PaidBy7Runs(9, 6000, map[7 := NewSystemAccount(n)]);
  }

  /** For every balance from which each succeeds alone, the pair has one outcome exactly when account 7
  holds both fees. */
  lemma SharedPayerOutcome(n: U64)
    requires n >= 6000
    ensures var s := map[7 := NewSystemAccount(n)];
      SharedPayers.SucceedAlone(Pair(), s) && (SharedPayers.OneOutcome(Pair(), s) <==> n >= 11_000)
  {
    hide *;
    PairOnlyPays();
    PairAlone(n);
    PairCovered(n);
    SharedPayers.OneOutcomeIff(Pair(), map[7 := NewSystemAccount(n)]);
  }

  lemma CannotPay(tx: Transaction, s: Accounts)
    requires TotalLamports(s) < tx.fee
    ensures !Execute(tx, s).success
  {
    if tx.signer in s { SumAtLeast(s, Lamports(), tx.signer); }
    NoFee(tx, s);
  }

  lemma OneAccountTotal(s: Accounts)
    requires s == map[7 := NewSystemAccount(10_000)]
    ensures TotalLamports(s) == 10_000
  {
    SumRemove(s, Lamports(), 7);
    assert s - {7} == map[];
  }

  // ---------- paying oneself ----------

  /** A transfer of 6000 lamports from account 7 to itself. */
  function PaysItself(): Transaction {
    Transaction(true, 7, [7, 7], [TransferIx(6000, true, true)], 200_000, 5000)
  }

  lemma PaysItselfEffect(s: Accounts)
    requires 7 in s && 6000 <= s[7].lamports < U64_LIMIT - 6000
    ensures Named(PaysItself(), 0) == Some([7, 7]) && EffectAt(PaysItself(), 0, s).Some?
  {
    TransferDecodes(6000, true, true);
    TransferNamed(PaysItself(), 6000, true, true, 7);
  }

  /** It succeeds and raises the total: both copies are loaded before either is stored, so the credit
  overwrites the debit. */
  lemma SelfTransferCreatesLamports()
    ensures var s := map[7 := NewSystemAccount(20_000)];
      Execute(PaysItself(), s).success && TotalLamports(Execute(PaysItself(), s).accounts) == TotalLamports(s) + 1000
  {
    hide Execute;
    hide RunFrom;
    hide Named;
    hide Decode;
    hide EffectAt;
    hide MutableAccounts;
    var s := map[7 := NewSystemAccount(20_000)];
    var tx := PaysItself();
    var c := Charged(tx, s);
    AfterFee(tx, s);
    PaysItselfEffect(c);
    TransferDecodes(6000, true, true);
    var snapshot := LookupAll(c, MutableAccounts(tx));
    InstructionResult(tx, 0, FEE_UNITS, snapshot, c);
    DoneResult(tx, FEE_UNITS + 300, snapshot, AfterAt(tx, 0, c));
    SuccessLamports(tx, s);
    assert SelfCredits(tx, 1) == 0;
  }
}
