/** The native programs as they run: they load copies, check, and store back into the database. */
module ProgramMethods {
  import opened Bytes
  import opened Wrappers
  import opened Ledger
  import opened Programs

  datatype InstructionError =
    | InsufficientComputeUnits
    | InvalidInstructionData
    | AccountNotFound
    | InsufficientFunds
    | ProgramError
    | InvalidAccountOwner
    | IncorrectAuthority
    | MintMismatch
    | DataSizeTooLarge
    | ArithmeticOverflow

  datatype Result = Ok | Err(error: InstructionError)

  class ComputeBudget {
    const max: nat
    var consumed: nat

    constructor (limit: nat)
      ensures max == limit && consumed == 0
    {
      max := limit;
      consumed := 0;
    }

    /** Charge `units`; they stay charged even when the budget is exceeded. */
    method Consume(units: nat) returns (ok: bool)
      modifies this
      ensures consumed == old(consumed) + units
      ensures ok <==> consumed <= max
    {
      consumed := consumed + units;
      ok := consumed <= max;
    }
  }

  /** What running `op` promises: it succeeds exactly when the specification does, and the database
  moves exactly as specified; with too small a budget it fails and changes nothing. */
  ghost predicate Ran(r: Result, fits: bool, op: Op, metas: seq<Meta>, signer: Pubkey, keys: seq<Pubkey>,
                      before: Accounts, after: Accounts) {
    && (r.Ok? <==> fits && Effect(op, metas, signer, keys, before).Some?)
    && after == if fits then After(op, metas, signer, keys, before) else before
  }

  lemma ApplyTwo(a: Write, b: Write, s: Accounts)
    ensures Apply([a, b], s) == ApplyOne(b, ApplyOne(a, s))
  {
    assert [a, b][1..] == [b];
    assert Apply([b], ApplyOne(a, s)) == ApplyOne(b, ApplyOne(a, s));
  }

  lemma ApplySingle(a: Write, s: Accounts)
    ensures Apply([a], s) == ApplyOne(a, s)
  {
    assert [a][1..] == [];
  }

  method ProcessTransfer(lamports: U64, metas: seq<Meta>, signer: Pubkey, keys: seq<Pubkey>,
                         db: Database, budget: ComputeBudget) returns (r: Result)
    modifies db, budget
    ensures budget.consumed == old(budget.consumed) + 150
    ensures Ran(r, budget.consumed <= budget.max, SystemTransfer(lamports), metas, signer, keys,
                old(db.accounts), db.accounts)
  {
    var fits := budget.Consume(150);
    if !fits { return Err(InsufficientComputeUnits); }
    if |metas| < 2 {
      assert KeyAt(metas, 1, keys) == None;
      return Err(InvalidInstructionData);
    }
    var from := KeyAt(metas, 0, keys);
    if from.None? { return Err(AccountNotFound); }
    if from.value != signer { return Err(IncorrectAuthority); }
    var src := db.Load(from.value);
    if src.None? { return Err(AccountNotFound); }
    if src.value.lamports < lamports { return Err(InsufficientFunds); }
    var to := KeyAt(metas, 1, keys);
    if to.None? { return Err(AccountNotFound); }
    var dst := db.Load(to.value);
    var credited := if dst.Some? then dst.value else NewSystemAccount(0);
    if credited.lamports + lamports >= U64_LIMIT { return Err(ArithmeticOverflow); }
    var debited := src.value.(lamports := src.value.lamports - lamports);
    credited := credited.(lamports := credited.lamports + lamports);
    ApplyTwo(Put(from.value, debited), Put(to.value, credited), db.accounts);
    db.Store(from.value, debited);
    db.Store(to.value, credited);
    return Ok;
  }

  method ProcessCreateAccount(lamports: U64, space: U64, owner: Pubkey, metas: seq<Meta>, signer: Pubkey, keys: seq<Pubkey>,
      db: Database, budget: ComputeBudget) returns (r: Result)
    modifies db, budget
    ensures budget.consumed == old(budget.consumed) + 200
    ensures Ran(r, budget.consumed <= budget.max, CreateAccount(lamports, space, owner), metas, signer, keys,
                old(db.accounts), db.accounts)
  {
    var fits := budget.Consume(200);
    if !fits { return Err(InsufficientComputeUnits); }
    if |metas| < 2 {
      assert KeyAt(metas, 1, keys) == None;
      return Err(InvalidInstructionData);
    }
    var payerKey := KeyAt(metas, 0, keys);
    if payerKey.None? { return Err(AccountNotFound); }
    if payerKey.value != signer { return Err(IncorrectAuthority); }
    var newKey := KeyAt(metas, 1, keys);
    if newKey.None? { return Err(AccountNotFound); }
    if space > MAX_DATA_LENGTH { return Err(DataSizeTooLarge); }
    var taken := db.Exists(newKey.value);
    if taken { return Err(ProgramError); }
    var payer := db.Load(payerKey.value);
    if payer.None? { return Err(AccountNotFound); }
    if lamports + RENT_EXEMPT >= U64_LIMIT { return Err(ArithmeticOverflow); }
    var newLamports := lamports + RENT_EXEMPT;
    if payer.value.lamports < newLamports { return Err(InsufficientFunds); }
    var debited := payer.value.(lamports := payer.value.lamports - newLamports);
    var created := Account(newLamports, owner, false, 0, Data(seq(space, _ => 0)));
    ApplyTwo(Put(payerKey.value, debited), Put(newKey.value, created), db.accounts);
    db.Store(payerKey.value, debited);
    db.Store(newKey.value, created);
    return Ok;
  }

  method ProcessAssign(owner: Pubkey, metas: seq<Meta>, signer: Pubkey, keys: seq<Pubkey>,
      db: Database, budget: ComputeBudget) returns (r: Result)
    modifies db, budget
    ensures budget.consumed == old(budget.consumed) + 100
    ensures Ran(r, budget.consumed <= budget.max, Assign(owner), metas, signer, keys,
                old(db.accounts), db.accounts)
  {
    var fits := budget.Consume(100);
    if !fits { return Err(InsufficientComputeUnits); }
    if |metas| == 0 {
      assert KeyAt(metas, 0, keys) == None;
      return Err(InvalidInstructionData);
    }
    var key := KeyAt(metas, 0, keys);
    if key.None? { return Err(AccountNotFound); }
    if key.value != signer { return Err(IncorrectAuthority); }
    var account := db.Load(key.value);
    if account.None? { return Err(AccountNotFound); }
    if account.value.owner != SYSTEM_PROGRAM { return Err(InvalidAccountOwner); }
    var updated := account.value.(owner := owner);
    ApplySingle(Put(key.value, updated), db.accounts);
    db.Store(key.value, updated);
    return Ok;
  }

  /** Load an account, checking that the token program owns it. */
  method LoadOwned(db: Database, key: Pubkey) returns (a: Option<Account>, e: InstructionError)
    ensures a == if Owned(Lookup(db.accounts, key)) then Lookup(db.accounts, key) else None
  {
    e := AccountNotFound;
    a := db.Load(key);
    if a.Some? && a.value.owner != TOKEN_PROGRAM {
      a, e := None, InvalidAccountOwner;
    }
  }

  method ProcessInitializeMint(metas: seq<Meta>, signer: Pubkey, keys: seq<Pubkey>,
      db: Database, budget: ComputeBudget) returns (r: Result)
    modifies db, budget
    ensures budget.consumed == old(budget.consumed) + 300
    ensures Ran(r, budget.consumed <= budget.max, InitializeMint, metas, signer, keys,
                old(db.accounts), db.accounts)
  {
    var fits := budget.Consume(300);
    if !fits { return Err(InsufficientComputeUnits); }
    var mintKey := KeyAt(metas, 0, keys);
    if mintKey.None? { return Err(InvalidInstructionData); }
    if mintKey.value != signer { return Err(IncorrectAuthority); }
    var taken := db.Exists(mintKey.value);
    if taken { return Err(ProgramError); }
    ApplySingle(Put(mintKey.value, NewMint(signer)), db.accounts);
    db.Store(mintKey.value, NewMint(signer));
    return Ok;
  }

  method ProcessInitializeAccount(mint: Pubkey, metas: seq<Meta>, signer: Pubkey, keys: seq<Pubkey>,
      db: Database, budget: ComputeBudget) returns (r: Result)
    modifies db, budget
    ensures budget.consumed == old(budget.consumed) + 300
    ensures Ran(r, budget.consumed <= budget.max, InitializeAccount(mint), metas, signer, keys,
                old(db.accounts), db.accounts)
  {
    var fits := budget.Consume(300);
    if !fits { return Err(InsufficientComputeUnits); }
    if |metas| < 3 {
      assert KeyAt(metas, 2, keys) == None;
      return Err(InvalidInstructionData);
    }
    var mintKey, newKey, ownerKey := KeyAt(metas, 0, keys), KeyAt(metas, 1, keys), KeyAt(metas, 2, keys);
    if mintKey.None? || newKey.None? || ownerKey.None? { return Err(AccountNotFound); }
    if mintKey.value != mint { return Err(MintMismatch); }
    if ownerKey.value != signer { return Err(IncorrectAuthority); }
    var mintAccount, e := LoadOwned(db, mintKey.value);
    if mintAccount.None? { return Err(e); }
    if !mintAccount.value.data.Mint? { return Err(MintMismatch); }
    var taken := db.Exists(newKey.value);
    if taken { return Err(ProgramError); }
    var created := NewTokenAccount(mintKey.value, ownerKey.value);
    ApplySingle(Put(newKey.value, created), db.accounts);
    db.Store(newKey.value, created);
    return Ok;
  }

  method ProcessTokenTransfer(amount: U64, metas: seq<Meta>, signer: Pubkey, keys: seq<Pubkey>,
      db: Database, budget: ComputeBudget) returns (r: Result)
    modifies db, budget
    ensures budget.consumed == old(budget.consumed) + 200
    ensures Ran(r, budget.consumed <= budget.max, TokenTransfer(amount), metas, signer, keys,
                old(db.accounts), db.accounts)
  {
    var fits := budget.Consume(200);
    if !fits { return Err(InsufficientComputeUnits); }
    if |metas| < 2 {
      assert KeyAt(metas, 1, keys) == None;
      return Err(InvalidInstructionData);
    }
    var from, to := KeyAt(metas, 0, keys), KeyAt(metas, 1, keys);
    if from.None? || to.None? { return Err(AccountNotFound); }
    if from.value == to.value { return Err(InvalidInstructionData); }
    var src, e := LoadOwned(db, from.value);
    if src.None? { return Err(e); }
    var dst, e2 := LoadOwned(db, to.value);
    if dst.None? { return Err(e2); }
    if !src.value.data.Token? { return Err(MintMismatch); }
    if src.value.data.authority != signer { return Err(IncorrectAuthority); }
    if !dst.value.data.Token? { return Err(MintMismatch); }
    if src.value.data.mint != dst.value.data.mint { return Err(MintMismatch); }
    if src.value.data.amount < amount { return Err(InsufficientFunds); }
    if dst.value.data.amount + amount >= U64_LIMIT { return Err(ArithmeticOverflow); }
    var debited := WithAmount(src.value, src.value.data.amount - amount);
    var credited := WithAmount(dst.value, dst.value.data.amount + amount);
    ApplyTwo(Put(from.value, debited), Put(to.value, credited), db.accounts);
    db.Store(from.value, debited);
    db.Store(to.value, credited);
    return Ok;
  }

  method ProcessMintTo(amount: U64, metas: seq<Meta>, signer: Pubkey, keys: seq<Pubkey>,
      db: Database, budget: ComputeBudget) returns (r: Result)
    modifies db, budget
    ensures budget.consumed == old(budget.consumed) + 200
    ensures Ran(r, budget.consumed <= budget.max, MintTo(amount), metas, signer, keys,
                old(db.accounts), db.accounts)
  {
    var fits := budget.Consume(200);
    if !fits { return Err(InsufficientComputeUnits); }
    if |metas| < 2 {
      assert KeyAt(metas, 1, keys) == None;
      return Err(InvalidInstructionData);
    }
    var mintKey, destKey := KeyAt(metas, 0, keys), KeyAt(metas, 1, keys);
    if mintKey.None? || destKey.None? { return Err(AccountNotFound); }
    var mint, e := LoadOwned(db, mintKey.value);
    if mint.None? { return Err(e); }
    if !mint.value.data.Mint? { return Err(MintMismatch); }
    if mint.value.data.mintAuthority != signer { return Err(IncorrectAuthority); }
    var dest, e2 := LoadOwned(db, destKey.value);
    if dest.None? { return Err(e2); }
    if !dest.value.data.Token? { return Err(MintMismatch); }
    if dest.value.data.mint != mintKey.value { return Err(MintMismatch); }
    if mint.value.data.supply + amount >= U64_LIMIT { return Err(ArithmeticOverflow); }
    if dest.value.data.amount + amount >= U64_LIMIT { return Err(ArithmeticOverflow); }
    var minted := WithSupply(mint.value, mint.value.data.supply + amount);
    var credited := WithAmount(dest.value, dest.value.data.amount + amount);
    ApplyTwo(Put(mintKey.value, minted), Put(destKey.value, credited), db.accounts);
    db.Store(mintKey.value, minted);
    db.Store(destKey.value, credited);
    return Ok;
  }

  method ProcessBurn(amount: U64, metas: seq<Meta>, signer: Pubkey, keys: seq<Pubkey>,
      db: Database, budget: ComputeBudget) returns (r: Result)
    modifies db, budget
    ensures budget.consumed == old(budget.consumed) + 200
    ensures Ran(r, budget.consumed <= budget.max, Burn(amount), metas, signer, keys,
                old(db.accounts), db.accounts)
  {
    var fits := budget.Consume(200);
    if !fits { return Err(InsufficientComputeUnits); }
    if |metas| < 2 {
      assert KeyAt(metas, 1, keys) == None;
      return Err(InvalidInstructionData);
    }
    var mintKey, tokenKey := KeyAt(metas, 0, keys), KeyAt(metas, 1, keys);
    if mintKey.None? || tokenKey.None? { return Err(AccountNotFound); }
    var mint, e := LoadOwned(db, mintKey.value);
    if mint.None? { return Err(e); }
    if !mint.value.data.Mint? { return Err(MintMismatch); }
    var token, e2 := LoadOwned(db, tokenKey.value);
    if token.None? { return Err(e2); }
    if !token.value.data.Token? { return Err(MintMismatch); }
    if token.value.data.authority != signer { return Err(IncorrectAuthority); }
    if token.value.data.mint != mintKey.value { return Err(MintMismatch); }
    if token.value.data.amount < amount { return Err(InsufficientFunds); }
    if mint.value.data.supply < amount { return Err(InsufficientFunds); }
    var burned := WithSupply(mint.value, mint.value.data.supply - amount);
    var debited := WithAmount(token.value, token.value.data.amount - amount);
    ApplyTwo(Put(mintKey.value, burned), Put(tokenKey.value, debited), db.accounts);
    db.Store(mintKey.value, burned);
    db.Store(tokenKey.value, debited);
    return Ok;
  }

  method ProcessSystem(data: seq<Byte>, metas: seq<Meta>, signer: Pubkey, keys: seq<Pubkey>,
      db: Database, budget: ComputeBudget) returns (r: Result)
    modifies db, budget
    ensures budget.consumed == old(budget.consumed) + Cost(DecodeSystem(data))
    ensures Ran(r, budget.consumed <= budget.max || DecodeSystem(data).Reject?, DecodeSystem(data), metas, signer, keys,
                old(db.accounts), db.accounts)
  {
    match DecodeSystem(data)
    case SystemTransfer(lamports) =>
      r := ProcessTransfer(lamports, metas, signer, keys, db, budget);
    case CreateAccount(lamports, space, owner) =>
      r := ProcessCreateAccount(lamports, space, owner, metas, signer, keys, db, budget);
    case Assign(owner) =>
      r := ProcessAssign(owner, metas, signer, keys, db, budget);
    case _ =>
      r := Err(InvalidInstructionData);
  }

  method ProcessToken(data: seq<Byte>, metas: seq<Meta>, signer: Pubkey, keys: seq<Pubkey>,
      db: Database, budget: ComputeBudget) returns (r: Result)
    modifies db, budget
    ensures budget.consumed == old(budget.consumed) + Cost(DecodeToken(data))
    ensures Ran(r, budget.consumed <= budget.max || DecodeToken(data).Reject?, DecodeToken(data), metas, signer, keys,
                old(db.accounts), db.accounts)
  {
    match DecodeToken(data)
    case InitializeMint =>
      r := ProcessInitializeMint(metas, signer, keys, db, budget);
    case InitializeAccount(mint) =>
      r := ProcessInitializeAccount(mint, metas, signer, keys, db, budget);
    case TokenTransfer(amount) =>
      r := ProcessTokenTransfer(amount, metas, signer, keys, db, budget);
    case MintTo(amount) =>
      r := ProcessMintTo(amount, metas, signer, keys, db, budget);
    case Burn(amount) =>
      r := ProcessBurn(amount, metas, signer, keys, db, budget);
    case _ =>
      r := Err(InvalidInstructionData);
  }

  /** Dispatch one instruction. Unknown programs always fail: which error, and how many units they
  cost, depends on an account that is read without a lock. */
  method ProcessInstruction(ix: Instruction, signer: Pubkey, keys: seq<Pubkey>, db: Database)
    returns (r: Result, units: nat)
    modifies db
    ensures var after := Processed(ix, signer, keys, old(db.accounts));
      (r.Ok? <==> after.Some?) && db.accounts == if r.Ok? then after.value else old(db.accounts)
    ensures r.Ok? ==> units == UnitsOf(ix)
  {
    var budget := new ComputeBudget(DEFAULT_COMPUTE_UNITS);
    if ix.programId == SYSTEM_PROGRAM {
      var _ := budget.Consume(150);
      r := ProcessSystem(ix.data, ix.metas, signer, keys, db, budget);
    } else if ix.programId == TOKEN_PROGRAM {
      var _ := budget.Consume(150);
      r := ProcessToken(ix.data, ix.metas, signer, keys, db, budget);
    } else {
      var program := db.Load(ix.programId);
      if program.None? {
        r := Err(AccountNotFound);
      } else if !program.value.executable {
        r := Err(InvalidAccountOwner);
      } else {
        var _ := budget.Consume(500);
        r := Err(ProgramError);
      }
    }
    units := budget.consumed;
  }
}
