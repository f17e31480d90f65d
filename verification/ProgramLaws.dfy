/** Conservation laws of the native programs: lamports and token supply. */
module ProgramLaws {
  import opened Wrappers
  import opened Ledger
  import opened Programs
  import opened ProgramMethods

  // ---------- lamports ----------

  /** Lamports that a successful instruction brings into existence: a system transfer from a key to
  itself keeps only the credited copy, and a new mint is given its rent reserve from nowhere. */
  function LamportsCreated(op: Op, ks: seq<Pubkey>): nat
    requires |ks| == Arity(op)
  {
    match op
    case SystemTransfer(lamports) => if ks[0] == ks[1] then lamports else 0
    case InitializeMint => RENT_EXEMPT
    case _ => 0
  }

  lemma TwoPuts(s: Accounts, w: Account -> nat, k: Pubkey, a: Account, l: Pubkey, b: Account)
    ensures Apply([Put(k, a), Put(l, b)], s) == s[k := a][l := b]
    ensures k != l ==>
      Sum(s[k := a][l := b], w) + WeightAt(s, w, k) + WeightAt(s, w, l) == Sum(s, w) + w(a) + w(b)
    ensures k == l ==> Sum(s[k := a][l := b], w) + WeightAt(s, w, k) == Sum(s, w) + w(b)
  {
    ApplyTwo(Put(k, a), Put(l, b), s);
    SumPut(s, w, k, a);
    SumPut(s[k := a], w, l, b);
  }

  lemma OnePut(s: Accounts, w: Account -> nat, k: Pubkey, a: Account)
    ensures Apply([Put(k, a)], s) == s[k := a]
    ensures Sum(s[k := a], w) + WeightAt(s, w, k) == Sum(s, w) + w(a)
  {
    ApplySingle(Put(k, a), s);
    SumPut(s, w, k, a);
  }

  /** The exact lamport balance of every successful instruction. */
  lemma LamportsBalance(op: Op, metas: seq<Meta>, signer: Pubkey, keys: seq<Pubkey>, s: Accounts)
    requires Effect(op, metas, signer, keys, s).Some?
    ensures TotalLamports(After(op, metas, signer, keys, s)) ==
            TotalLamports(s) + LamportsCreated(op, Resolve(op, metas, keys).value)
  {
    var ws := Effect(op, metas, signer, keys, s).value;
    if |ws| == 2 {
      TwoPuts(s, Lamports(), ws[0].key, ws[0].account, ws[1].key, ws[1].account);
      assert ws == [ws[0], ws[1]];
    } else {
      OnePut(s, Lamports(), ws[0].key, ws[0].account);
      assert ws == [ws[0]];
    }
  }

  /** A successful instruction conserves lamports exactly when it is neither a self-transfer of a
  positive amount nor the creation of a mint. */
  lemma LamportsConservedIff(op: Op, metas: seq<Meta>, signer: Pubkey, keys: seq<Pubkey>, s: Accounts)
    requires Effect(op, metas, signer, keys, s).Some?
    ensures TotalLamports(After(op, metas, signer, keys, s)) == TotalLamports(s) <==>
      !op.InitializeMint? &&
      !(op.SystemTransfer? && op.lamports > 0 && KeyAt(metas, 0, keys) == KeyAt(metas, 1, keys))
  {
    LamportsBalance(op, metas, signer, keys, s);
    var ks := Resolve(op, metas, keys).value;
    assert op.SystemTransfer? ==> KeyAt(metas, 0, keys) == Some(ks[0]) && KeyAt(metas, 1, keys) == Some(ks[1]);
  }

  // ---------- token supply ----------

  ghost predicate NamesMint(s: Accounts, k: Pubkey)
    requires k in s
  {
    s[k].data.Token? ==> s[k].data.mint in s && s[s[k].data.mint].data.Mint?
  }

  /** Recorded supply is the sum of all balances, and every token account names an existing mint. */
  ghost predicate SupplyOk(s: Accounts) {
    && (forall m :: m in s && s[m].data.Mint? ==> s[m].data.supply == TotalBalance(s, m))
    && (forall k :: k in s ==> NamesMint(s, k))
  }

  /** Rewriting an account without touching its data. */
  lemma SameDataKeepsSupply(s: Accounts, k: Pubkey, a: Account)
    requires SupplyOk(s) && k in s && a.data == s[k].data
    ensures SupplyOk(s[k := a])
  {
    var t := s[k := a];
    forall m | m in t && t[m].data.Mint? ensures t[m].data.supply == TotalBalance(t, m) {
      SumPut(s, BalanceIn(m), k, a);
    }
    forall j | j in t ensures NamesMint(t, j) {
      assert NamesMint(s, j);
    }
  }

  /** Adding an account that holds no tokens. */
  lemma NewAccountKeepsSupply(s: Accounts, k: Pubkey, a: Account)
    requires SupplyOk(s) && k !in s
    requires match a.data
      case Mint(_, supply) => supply == 0
      case Token(mint, _, amount) => amount == 0 && mint in s && s[mint].data.Mint?
      case _ => true
    ensures SupplyOk(s[k := a])
  {
    var t := s[k := a];
    forall m | m in t && t[m].data.Mint? ensures t[m].data.supply == TotalBalance(t, m) {
      SumPut(s, BalanceIn(m), k, a);
      if m == k {
        forall j | j in s ensures BalanceIn(m)(s[j]) == 0 { assert NamesMint(s, j); }
        SumZero(s, BalanceIn(m));
      }
    }
    forall j | j in t ensures NamesMint(t, j) {
      if j in s { assert NamesMint(s, j); }
    }
  }

  /** Moving tokens between two accounts of one mint. */
  lemma TransferKeepsSupply(s: Accounts, k: Pubkey, a: Account, l: Pubkey, b: Account)
    requires SupplyOk(s) && k in s && l in s && k != l
    requires s[k].data.Token? && s[l].data.Token? && a.data.Token? && b.data.Token?
    requires a.data.mint == s[k].data.mint == s[l].data.mint == b.data.mint
    requires a.data.amount + b.data.amount == s[k].data.amount + s[l].data.amount
    ensures SupplyOk(s[k := a][l := b])
  {
    var t := s[k := a][l := b];
    forall m | m in t && t[m].data.Mint? ensures t[m].data.supply == TotalBalance(t, m) {
      TwoPuts(s, BalanceIn(m), k, a, l, b);
    }
    assert NamesMint(s, k);
    forall j | j in t ensures NamesMint(t, j) {
      assert NamesMint(s, j);
    }
  }

  /** Changing the supply of a mint and one balance of that mint by the same amount. */
  lemma MintAndBurnKeepSupply(s: Accounts, k: Pubkey, a: Account, l: Pubkey, b: Account)
    requires SupplyOk(s) && k in s && l in s
    requires s[k].data.Mint? && s[l].data.Token? && a.data.Mint? && b.data.Token?
    requires s[l].data.mint == b.data.mint == k
    requires a.data.supply - s[k].data.supply == b.data.amount - s[l].data.amount
    ensures SupplyOk(s[k := a][l := b])
  {
    var t := s[k := a][l := b];
    forall m | m in t && t[m].data.Mint? ensures t[m].data.supply == TotalBalance(t, m) {
      TwoPuts(s, BalanceIn(m), k, a, l, b);
    }
    forall j | j in t ensures NamesMint(t, j) {
      assert NamesMint(s, j);
    }
  }

  /** Every instruction keeps the supply invariant, whether it succeeds or fails. */
  lemma InstructionKeepsSupply(op: Op, metas: seq<Meta>, signer: Pubkey, keys: seq<Pubkey>, s: Accounts)
    requires SupplyOk(s)
    ensures SupplyOk(After(op, metas, signer, keys, s))
  {
    var e := Effect(op, metas, signer, keys, s);
    if e.Some? {
      var ws := e.value;
      if |ws| == 1 {
        assert ws == [ws[0]];
        ApplySingle(ws[0], s);
        if op.Assign? {
          SameDataKeepsSupply(s, ws[0].key, ws[0].account);
        } else {
          NewAccountKeepsSupply(s, ws[0].key, ws[0].account);
        }
      } else {
        assert ws == [ws[0], ws[1]];
        ApplyTwo(ws[0], ws[1], s);
        TwoWritesKeepSupply(op, metas, signer, keys, s, ws[0], ws[1]);
      }
    }
  }

  lemma TwoWritesKeepSupply(op: Op, metas: seq<Meta>, signer: Pubkey, keys: seq<Pubkey>, s: Accounts, v: Write, w: Write)
    requires SupplyOk(s) && Effect(op, metas, signer, keys, s) == Some([v, w])
    ensures SupplyOk(ApplyOne(w, ApplyOne(v, s)))
  {
    if op.SystemTransfer? || op.CreateAccount? {
      SameDataKeepsSupply(s, v.key, v.account);
      var t := ApplyOne(v, s);
      if w.key in t {
        SameDataKeepsSupply(t, w.key, w.account);
      } else {
        NewAccountKeepsSupply(t, w.key, w.account);
      }
    } else if op.TokenTransfer? {
      TransferKeepsSupply(s, v.key, v.account, w.key, w.account);
    } else {
      MintAndBurnKeepSupply(s, v.key, v.account, w.key, w.account);
    }
  }

  /** One signed instruction with its account list. */
  datatype Call = Call(ix: Instruction, signer: Pubkey, keys: seq<Pubkey>)

  function RunCalls(calls: seq<Call>, s: Accounts): Accounts {
    if calls == [] then s
    else RunCalls(calls[1..], After(Decode(calls[0].ix), calls[0].ix.metas, calls[0].signer, calls[0].keys, s))
  }

  /** Over any sequence of instructions recorded supply stays the sum of the balances. */
  lemma {:induction false} SupplyOverRuns(calls: seq<Call>, s: Accounts)
    requires SupplyOk(s)
    ensures SupplyOk(RunCalls(calls, s))
    decreases |calls|
  {
    if calls != [] {
      var c := calls[0];
      InstructionKeepsSupply(Decode(c.ix), c.ix.metas, c.signer, c.keys, s);
      SupplyOverRuns(calls[1..], After(Decode(c.ix), c.ix.metas, c.signer, c.keys, s));
    }
  }
}
