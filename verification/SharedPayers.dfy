/** Batches whose members share fee payers. When each payer's account is only charged fees and paid out of
by its own members, the batch has one outcome exactly when every payer can pay all that its members
take from it. */
module SharedPayers {
  import opened Wrappers
  import opened Ledger
  import opened Programs
  import opened Transactions
  import opened Execution
  import opened ExecutionLaws
  import opened Interleaving
  import opened ProgramMethods
  import BatchOrder

  predicate Declared(tx: Transaction, k: Pubkey) {
    k in WriteAccounts(tx) || k in ReadAccounts(tx)
  }

  /** Same values on every declared account other than the signer's. */
  ghost predicate AgreeBesides(tx: Transaction, s: Accounts, t: Accounts) {
    forall k :: Declared(tx, k) && k != tx.signer ==> Agree(s, t, k)
  }

  // ---------- one transaction that only pays out of its signer's account ----------

  predicate Spending(op: Op) { op.SystemTransfer? || op.CreateAccount? }

  /** What a transfer or a creation takes from the signer's account. */
  function Spends(op: Op): nat {
    match op
    case SystemTransfer(lamports) => lamports
    case CreateAccount(lamports, _, _) => lamports + RENT_EXEMPT
    case _ => 0
  }

  /** The signer's account may be the source of a transfer to another key or pay for a new account, and is
  not loaded otherwise. */
  predicate OnlySource(op: Op, signer: Pubkey, ks: seq<Pubkey>)
    requires |ks| == Arity(op)
  {
    if Spending(op) then ks[1] != signer else signer !in Needs(op, ks)
  }

  predicate PaysOut(tx: Transaction) {
    forall i :: 0 <= i < |tx.instructions| && Named(tx, i).Some? ==>
      OnlySource(Decode(tx.instructions[i]), tx.signer, Named(tx, i).value)
  }

  function OutflowFrom(tx: Transaction, i: nat): nat
    requires i <= |tx.instructions|
    decreases |tx.instructions| - i
  {
    if i == |tx.instructions| then 0 else Spends(Decode(tx.instructions[i])) + OutflowFrom(tx, i + 1)
  }

  /** All that a successful transaction takes from its signer. */
  function Outflow(tx: Transaction): nat { tx.fee + OutflowFrom(tx, 0) }

  /** The keys an instruction names are declared, and it writes to no others. */
  lemma NamedDeclared(tx: Transaction, i: nat, j: nat)
    requires i < |tx.instructions| && Named(tx, i).Some? && j < |Named(tx, i).value|
    ensures Declared(tx, Named(tx, i).value[j])
  {
    var ix := tx.instructions[i];
    assert KeyAt(ix.metas, j, tx.accountKeys) == Some(Named(tx, i).value[j]);
    ResolvedIsDeclared(tx, i, j);
  }

  lemma EffectKeys(op: Op, signer: Pubkey, ks: seq<Pubkey>, vals: seq<Option<Account>>)
    requires |ks| == Arity(op) && |vals| == |Needs(op, ks)|
    ensures var e := Decide(op, signer, ks, vals);
      e.Some? ==> forall j :: 0 <= j < |e.value| ==> e.value[j].key in Needs(op, ks)
  {
    assert op.InitializeAccount? ==> ks[..2][1] == ks[1];
  }

  /** A transfer or a creation takes its amount from the signer and then writes elsewhere. */
  lemma SpendingEffect(op: Op, signer: Pubkey, ks: seq<Pubkey>, vals: seq<Option<Account>>)
    requires |ks| == Arity(op) && |vals| == |Needs(op, ks)| && Spending(op) && OnlySource(op, signer, ks)
    requires Decide(op, signer, ks, vals).Some?
    ensures ks[0] == signer && vals[0].Some? && vals[0].value.lamports >= Spends(op)
    ensures var ws := Decide(op, signer, ks, vals).value;
      |ws| == 2 && ws[0] == Put(signer, Paying(vals[0].value, Spends(op))) && ws[1].Put? && ws[1].key == ks[1]
  {
  }

  /** The second write does not depend on the signer's balance, if that suffices. */
  lemma SpendingShift(op: Op, signer: Pubkey, ks: seq<Pubkey>, vals: seq<Option<Account>>, vals': seq<Option<Account>>)
    requires |ks| == Arity(op) && |vals| == |Needs(op, ks)| && |vals'| == |Needs(op, ks)|
    requires Spending(op) && OnlySource(op, signer, ks) && vals[1] == vals'[1]
    requires Decide(op, signer, ks, vals).Some? && vals'[0].Some? && vals'[0].value.lamports >= Spends(op)
    ensures Decide(op, signer, ks, vals').Some?
    ensures |Decide(op, signer, ks, vals).value| == |Decide(op, signer, ks, vals').value| == 2
    ensures Decide(op, signer, ks, vals).value[1] == Decide(op, signer, ks, vals').value[1]
  {
  }

  lemma {:induction false} ApplyElsewhere(ws: seq<Write>, s: Accounts, k: Pubkey)
    requires forall j :: 0 <= j < |ws| ==> ws[j].key != k
    ensures Agree(Apply(ws, s), s, k)
    decreases |ws|
  {
    if ws != [] {
      ApplyElsewhere(ws[1..], ApplyOne(ws[0], s), k);
    }
  }

  /** What an instruction does is enough for its successor to start from. */
  ghost predicate Shifted(tx: Transaction, i: nat, s: Accounts, t: Accounts)
    requires i < |tx.instructions| && tx.signer in t && t[tx.signer].lamports >= Spends(Decode(tx.instructions[i]))
  {
    && EffectAt(tx, i, t).Some?
    && AgreeBesides(tx, AfterAt(tx, i, s), AfterAt(tx, i, t))
    && Lookup(AfterAt(tx, i, t), tx.signer) == Some(Paying(t[tx.signer], Spends(Decode(tx.instructions[i]))))
  }

  lemma NeedsAgree(tx: Transaction, i: nat, s: Accounts, t: Accounts)
    requires i < |tx.instructions| && Named(tx, i).Some? && AgreeBesides(tx, s, t)
    ensures var needs := Needs(Decode(tx.instructions[i]), Named(tx, i).value);
      forall j :: 0 <= j < |needs| && needs[j] != tx.signer ==> Lookup(s, needs[j]) == Lookup(t, needs[j])
  {
    var needs := Needs(Decode(tx.instructions[i]), Named(tx, i).value);
    forall j: nat | j < |needs| && needs[j] != tx.signer ensures Lookup(s, needs[j]) == Lookup(t, needs[j]) {
      NamedDeclared(tx, i, j);
      assert Agree(s, t, needs[j]);
    }
  }

  /** A transfer or a creation that succeeds in one state. */
  lemma SpendingAt(tx: Transaction, i: nat, s: Accounts, t: Accounts)
    requires i < |tx.instructions| && PaysOut(tx) && AgreeBesides(tx, s, t) && EffectAt(tx, i, s).Some?
    requires Spending(Decode(tx.instructions[i]))
    requires tx.signer in t && t[tx.signer].lamports >= Spends(Decode(tx.instructions[i]))
    ensures Shifted(tx, i, s, t)
  {
    var op, ks := Decode(tx.instructions[i]), Named(tx, i).value;
    NeedsAgree(tx, i, s, t);
    hide Decode;
    hide Named;
    var vals, vals' := LookupAll(s, ks), LookupAll(t, ks);
    SpendingEffect(op, tx.signer, ks, vals);
    SpendingShift(op, tx.signer, ks, vals, vals');
    SpendingEffect(op, tx.signer, ks, vals');
    hide Decide;
    var v, w := EffectAt(tx, i, s).value, EffectAt(tx, i, t).value;
    assert v == [v[0], v[1]] && w == [w[0], w[1]];
    ApplyTwo(v[0], v[1], s);
    ApplyTwo(w[0], w[1], t);
    forall k | Declared(tx, k) && k != tx.signer ensures Agree(AfterAt(tx, i, s), AfterAt(tx, i, t), k) {
      assert Agree(s, t, k);
    }
  }

  /** An instruction that does not load the signer's account. */
  lemma OtherAt(tx: Transaction, i: nat, s: Accounts, t: Accounts)
    requires i < |tx.instructions| && PaysOut(tx) && AgreeBesides(tx, s, t) && EffectAt(tx, i, s).Some?
    requires !Spending(Decode(tx.instructions[i])) && tx.signer in t
    ensures Shifted(tx, i, s, t)
  {
    var op, ks := Decode(tx.instructions[i]), Named(tx, i).value;
    var needs := Needs(op, ks);
    NeedsAgree(tx, i, s, t);
    assert LookupAll(s, needs) == LookupAll(t, needs);
    EffectKeys(op, tx.signer, ks, LookupAll(s, needs));
    hide Decide;
    var ws := EffectAt(tx, i, s).value;
    forall k | Declared(tx, k) && k != tx.signer ensures Agree(AfterAt(tx, i, s), AfterAt(tx, i, t), k) {
      assert Agree(s, t, k);
      ApplyAgree(ws, s, t, k);
    }
    ApplyElsewhere(ws, t, tx.signer);
    assert Agree(AfterAt(tx, i, t), t, tx.signer);
    assert Paying(t[tx.signer], 0) == t[tx.signer];
  }

  /** An instruction of such a transaction acts alike on states that agree on the other declared accounts,
  if the signer can pay, and takes just its amount from the signer. */
  lemma EffectShift(tx: Transaction, i: nat, s: Accounts, t: Accounts)
    requires i < |tx.instructions| && PaysOut(tx) && AgreeBesides(tx, s, t) && EffectAt(tx, i, s).Some?
    requires tx.signer in t && t[tx.signer].lamports >= Spends(Decode(tx.instructions[i]))
    ensures Shifted(tx, i, s, t)
  {
    hide *;
    if Spending(Decode(tx.instructions[i])) { SpendingAt(tx, i, s, t); } else { OtherAt(tx, i, s, t); }
  }

  lemma EffectCovers(tx: Transaction, i: nat, s: Accounts)
    requires i < |tx.instructions| && PaysOut(tx) && EffectAt(tx, i, s).Some? && tx.signer in s
    ensures s[tx.signer].lamports >= Spends(Decode(tx.instructions[i]))
  {
    var op, ks := Decode(tx.instructions[i]), Named(tx, i).value;
    if Spending(op) { SpendingEffect(op, tx.signer, ks, LookupAll(s, ks)); }
    hide Decide;
  }

  lemma {:induction false} InstructionsShift(tx: Transaction, i: nat, units: nat, snap: seq<Option<Account>>, s: Accounts,
                                             snap': seq<Option<Account>>, t: Accounts)
    requires i <= |tx.instructions| && |snap| == |snap'| == |MutableAccounts(tx)|
    requires PaysOut(tx) && AgreeBesides(tx, s, t) && RunFrom(tx, Ix(i, units, snap), s).success
    requires tx.signer in t && t[tx.signer].lamports >= OutflowFrom(tx, i)
    ensures var r, r' := RunFrom(tx, Ix(i, units, snap), s), RunFrom(tx, Ix(i, units, snap'), t);
      && r'.success && AgreeBesides(tx, r.accounts, r'.accounts)
      && Lookup(r'.accounts, tx.signer) == Some(Paying(t[tx.signer], OutflowFrom(tx, i)))
    decreases |tx.instructions| - i
  {
    hide RunFrom;
    hide EffectAt;
    hide AfterAt;
    hide MutableAccounts;
    hide PaysOut;
    hide AgreeBesides;
    hide Spends;
    hide Decode;
    if i < |tx.instructions| {
      InstructionResult(tx, i, units, snap, s);
      InstructionResult(tx, i, units, snap', t);
      EffectShift(tx, i, s, t);
      var units' := units + 150 + Cost(Decode(tx.instructions[i]));
      InstructionsShift(tx, i + 1, units', snap, AfterAt(tx, i, s), snap', AfterAt(tx, i, t));
    } else {
      DoneResult(tx, units, snap, s);
      DoneResult(tx, units, snap', t);
    }
  }

  lemma {:induction false} InstructionsSpend(tx: Transaction, i: nat, units: nat, snap: seq<Option<Account>>, s: Accounts)
    requires i <= |tx.instructions| && |snap| == |MutableAccounts(tx)|
    requires PaysOut(tx) && RunFrom(tx, Ix(i, units, snap), s).success && tx.signer in s
    ensures s[tx.signer].lamports >= OutflowFrom(tx, i)
    decreases |tx.instructions| - i
  {
    hide RunFrom;
    hide EffectAt;
    hide AfterAt;
    hide MutableAccounts;
    hide PaysOut;
    hide Spends;
    hide Decode;
    if i < |tx.instructions| {
      InstructionResult(tx, i, units, snap, s);
      EffectCovers(tx, i, s);
      assert AgreeBesides(tx, s, s);
      hide AgreeBesides;
      EffectShift(tx, i, s, s);
      InstructionsSpend(tx, i + 1, units + 150 + Cost(Decode(tx.instructions[i])), snap, AfterAt(tx, i, s));
    }
  }

  /** The signer's account only matters for being able to pay. */
  lemma ExecuteShift(tx: Transaction, s: Accounts, t: Accounts)
    requires PaysOut(tx) && AgreeBesides(tx, s, t)
    requires Execute(tx, s).success && tx.signer in t && t[tx.signer].lamports >= Outflow(tx)
    ensures Execute(tx, t).success && AgreeBesides(tx, Execute(tx, s).accounts, Execute(tx, t).accounts)
    ensures Lookup(Execute(tx, t).accounts, tx.signer) == Some(Paying(t[tx.signer], Outflow(tx)))
  {
    hide Execute;
    hide RunFrom;
    hide PaysOut;
    SuccessLamports(tx, s);
    AfterFee(tx, s);
    AfterFee(tx, t);
    var c, c' := Charged(tx, s), Charged(tx, t);
    forall k | Declared(tx, k) && k != tx.signer ensures Agree(c, c', k) { assert Agree(s, t, k); }
    InstructionsShift(tx, 0, FEE_UNITS, LookupAll(c, MutableAccounts(tx)), c, LookupAll(c', MutableAccounts(tx)), c');
  }

  /** A transaction that succeeds could pay. */
  lemma ExecuteSpends(tx: Transaction, s: Accounts)
    requires PaysOut(tx) && Execute(tx, s).success
    ensures tx.signer in s && s[tx.signer].lamports >= Outflow(tx)
  {
    hide Execute;
    hide RunFrom;
    hide PaysOut;
    SuccessLamports(tx, s);
    AfterFee(tx, s);
    InstructionsSpend(tx, 0, FEE_UNITS, LookupAll(Charged(tx, s), MutableAccounts(tx)), Charged(tx, s));
  }

  function Paying(a: Account, amount: nat): Account
    requires amount <= a.lamports
  {
    a.(lamports := a.lamports - amount)
  }

  // ---------- what a payer owes ----------

  ghost function Owed(txs: seq<Transaction>, ids: set<nat>, p: Pubkey): nat
    requires forall t :: t in ids ==> t < |txs|
  {
    if ids == {} then 0
    else
      var t :| t in ids;
      (if txs[t].signer == p then Outflow(txs[t]) else 0) + Owed(txs, ids - {t}, p)
  }

  lemma {:induction false} OwedRemove(txs: seq<Transaction>, ids: set<nat>, p: Pubkey, t: nat)
    requires (forall u :: u in ids ==> u < |txs|) && t in ids
    ensures Owed(txs, ids, p) == (if txs[t].signer == p then Outflow(txs[t]) else 0) + Owed(txs, ids - {t}, p)
    decreases ids
  {
    var u :| u in ids && Owed(txs, ids, p) == (if txs[u].signer == p then Outflow(txs[u]) else 0) + Owed(txs, ids - {u}, p);
    if u != t {
      OwedRemove(txs, ids - {u}, p, t);
      OwedRemove(txs, ids - {t}, p, u);
      assert ids - {u} - {t} == ids - {t} - {u};
    }
  }

  lemma {:induction false} OwedMono(txs: seq<Transaction>, a: set<nat>, b: set<nat>, p: Pubkey)
    requires a <= b && forall u :: u in b ==> u < |txs|
    ensures Owed(txs, a, p) <= Owed(txs, b, p)
    decreases b
  {
    if t :| t in b {
      OwedRemove(txs, b, p, t);
      if t in a { OwedRemove(txs, a, p, t); }
      OwedMono(txs, a - {t}, b - {t}, p);
      assert t !in a ==> a - {t} == a;
    }
  }

  function Upto(n: nat): (ids: set<nat>)
    ensures forall t :: t in ids <==> 0 <= t < n
  {
    if n == 0 then {} else Upto(n - 1) + {n - 1}
  }

  function Ids(txs: seq<Transaction>): set<nat> { Upto(|txs|) }

  function Elements(order: seq<nat>): set<nat> { set t | t in order }

  /** Every payer's account holds all that its members take from it. */
  ghost predicate Covered(txs: seq<Transaction>, mem: Accounts) {
    forall t :: 0 <= t < |txs| ==>
      txs[t].signer in mem && Owed(txs, Ids(txs), txs[t].signer) <= mem[txs[t].signer].lamports
  }

  // ---------- batches ----------

  /** Every member only pays out of its signer's account, which no member of another signer names; no two
  members conflict, and changed accounts are flagged. */
  ghost predicate PayersOnlyPay(txs: seq<Transaction>) {
    && AllFlagged(txs)
    && (forall t :: 0 <= t < |txs| ==> PaysOut(txs[t]))
    && (forall t, u :: 0 <= t < |txs| && 0 <= u < |txs| && txs[t].signer != txs[u].signer ==>
          !Declared(txs[u], txs[t].signer))
    && (forall t, u :: 0 <= t < |txs| && 0 <= u < |txs| && t != u ==> !ConflictsWith(txs[t], txs[u]))
  }

  ghost predicate SucceedAlone(txs: seq<Transaction>, mem: Accounts) {
    forall t :: 0 <= t < |txs| ==> Execute(txs[t], mem).success
  }

  /** The state after some members ran, as a member still to run and as the payers see it. */
  ghost predicate Paid(txs: seq<Transaction>, order: seq<nat>, mem: Accounts, s: Accounts)
    requires IsOrder(txs, order)
  {
    && (forall t :: 0 <= t < |txs| && t !in order ==> AgreeBesides(txs[t], mem, s))
    && (forall t :: 0 <= t < |txs| ==> PaidAt(txs, order, mem, s, txs[t].signer))
  }

  ghost predicate PaidAt(txs: seq<Transaction>, order: seq<nat>, mem: Accounts, s: Accounts, p: Pubkey)
    requires IsOrder(txs, order)
  {
    Reduced(mem, s, p, Owed(txs, Elements(order), p))
  }

  ghost predicate Reduced(mem: Accounts, s: Accounts, p: Pubkey, amount: nat) {
    p in mem && amount <= mem[p].lamports && Lookup(s, p) == Some(Paying(mem[p], amount))
  }

  lemma ReducedFurther(mem: Accounts, s: Accounts, out: Accounts, p: Pubkey, x: nat, y: nat)
    requires Reduced(mem, s, p, x) && x + y <= mem[p].lamports && Lookup(out, p) == Some(Paying(s[p], y))
    ensures Reduced(mem, out, p, x + y)
  {
  }

  lemma ElementsAppend(order: seq<nat>, t: nat)
    ensures Elements(order + [t]) == Elements(order) + {t}
  {
  }

  lemma OwedAppend(txs: seq<Transaction>, order: seq<nat>, t: nat, p: Pubkey)
    requires IsOrder(txs, order + [t])
    ensures IsOrder(txs, order) && t !in order && t < |txs|
    ensures Owed(txs, Elements(order + [t]), p) ==
            Owed(txs, Elements(order), p) + if txs[t].signer == p then Outflow(txs[t]) else 0
  {
    assert (order + [t])[|order|] == t;
    assert forall i :: 0 <= i < |order| ==> (order + [t])[i] == order[i];
    ElementsAppend(order, t);
    OwedRemove(txs, Elements(order + [t]), p, t);
    assert Elements(order) + {t} - {t} == Elements(order);
  }

  /** A member that can pay succeeds as it does alone, and leaves the others as they were. */
  lemma MemberRuns(txs: seq<Transaction>, order: seq<nat>, t: nat, mem: Accounts, s: Accounts)
    requires PayersOnlyPay(txs) && SucceedAlone(txs, mem) && IsOrder(txs, order + [t])
    requires IsOrder(txs, order) && Paid(txs, order, mem, s)
    requires t < |txs| && t !in order
    requires Owed(txs, Elements(order), txs[t].signer) + Outflow(txs[t]) <= mem[txs[t].signer].lamports
    ensures Execute(txs[t], s).success && Paid(txs, order + [t], mem, Execute(txs[t], s).accounts)
    ensures AgreeBesides(txs[t], Execute(txs[t], mem).accounts, Execute(txs[t], s).accounts)
  {
    hide Execute;
    var tx, out := txs[t], Execute(txs[t], s).accounts;
    assert PaidAt(txs, order, mem, s, tx.signer);
    ExecuteShift(tx, mem, s);
    assert Flagged(tx);
    ExecuteOutside(tx, s);
    forall u | 0 <= u < |txs| && u !in order + [t] ensures AgreeBesides(txs[u], mem, out) {
      StillAgrees(txs, t, u, mem, s, out);
    }
    forall u | 0 <= u < |txs| ensures PaidAt(txs, order + [t], mem, out, txs[u].signer) {
      PayerAfter(txs, order, t, mem, s, out, txs[u].signer);
    }
  }

  lemma ExecuteOutside(tx: Transaction, s: Accounts)
    requires Flagged(tx)
    ensures AgreeOutside(tx, s, Execute(tx, s).accounts)
  {
    ExecuteFrame(tx, s, s);
  }

  lemma StillAgrees(txs: seq<Transaction>, t: nat, u: nat, mem: Accounts, s: Accounts, out: Accounts)
    requires PayersOnlyPay(txs) && t < |txs| && u < |txs| && t != u
    requires AgreeBesides(txs[u], mem, s) && AgreeOutside(txs[t], s, out)
    ensures AgreeBesides(txs[u], mem, out)
  {
    forall k | Declared(txs[u], k) && k != txs[u].signer ensures Agree(mem, out, k) {
      assert Agree(mem, s, k);
      assert !ConflictsWith(txs[t], txs[u]);
      assert k !in WriteAccounts(txs[t]) && k != txs[t].signer;
      assert Agree(s, out, k);
    }
  }

  lemma PayerAfter(txs: seq<Transaction>, order: seq<nat>, t: nat, mem: Accounts, s: Accounts, out: Accounts, p: Pubkey)
    requires IsOrder(txs, order) && IsOrder(txs, order + [t]) && t < |txs|
    requires PaidAt(txs, order, mem, s, p) && AgreeOutside(txs[t], s, out)
    requires p != txs[t].signer ==> !Declared(txs[t], p)
    requires p == txs[t].signer ==>
      Owed(txs, Elements(order), p) + Outflow(txs[t]) <= mem[p].lamports && Lookup(out, p) == Some(Paying(s[p], Outflow(txs[t])))
    ensures PaidAt(txs, order + [t], mem, out, p)
  {
    OwedAppend(txs, order, t, p);
    assert p != txs[t].signer ==> Agree(s, out, p) by {
      if p != txs[t].signer { assert !Exclusive(txs[t], p); }
    }
    if p == txs[t].signer {
      ReducedFurther(mem, s, out, p, Owed(txs, Elements(order), p), Outflow(txs[t]));
    } else {
      assert Reduced(mem, out, p, Owed(txs, Elements(order), p));
    }
    hide Reduced;
    hide Paying;
    hide Owed;
    hide Outflow;
    hide IsOrder;
    hide AgreeOutside;
    hide Declared;
    hide Elements;
  }

  ghost predicate SucceedsAt(txs: seq<Transaction>, order: seq<nat>, mem: Accounts, i: nat)
    requires IsOrder(txs, order) && i < |order|
  {
    Execute(txs[order[i]], Serial(txs, order[..i], mem)).success
  }

  /** Every transaction succeeds in its place. */
  ghost predicate AllSucceed(txs: seq<Transaction>, order: seq<nat>, mem: Accounts)
    requires IsOrder(txs, order)
  {
    forall i: nat :: i < |order| ==> SucceedsAt(txs, order, mem, i)
  }

  lemma SucceedsAppend(txs: seq<Transaction>, prefix: seq<nat>, t: nat, mem: Accounts, i: nat)
    requires IsOrder(txs, prefix) && IsOrder(txs, prefix + [t]) && t < |txs| && i <= |prefix|
    ensures SucceedsAt(txs, prefix + [t], mem, i) <==>
      if i < |prefix| then SucceedsAt(txs, prefix, mem, i) else Execute(txs[t], Serial(txs, prefix, mem)).success
  {
    hide Execute;
    hide Serial;
    assert (prefix + [t])[..i] == prefix[..i];
    assert prefix[..|prefix|] == prefix;
  }

  lemma AllSucceedAppend(txs: seq<Transaction>, prefix: seq<nat>, t: nat, mem: Accounts)
    requires IsOrder(txs, prefix) && IsOrder(txs, prefix + [t]) && t < |txs|
    ensures AllSucceed(txs, prefix + [t], mem) <==>
            AllSucceed(txs, prefix, mem) && Execute(txs[t], Serial(txs, prefix, mem)).success
  {
    hide Execute;
    hide Serial;
    hide SucceedsAt;
    hide IsOrder;
    var order, n := prefix + [t], |prefix|;
    SucceedsAppend(txs, prefix, t, mem, n);
    if AllSucceed(txs, order, mem) {
      assert SucceedsAt(txs, order, mem, n);
      forall i: nat | i < n ensures SucceedsAt(txs, prefix, mem, i) {
        assert SucceedsAt(txs, order, mem, i);
        SucceedsAppend(txs, prefix, t, mem, i);
      }
    }
    if AllSucceed(txs, prefix, mem) && SucceedsAt(txs, order, mem, n) {
      forall i: nat | i < |order| ensures SucceedsAt(txs, order, mem, i) {
        SucceedsAppend(txs, prefix, t, mem, i);
      }
    }
  }

  lemma PrefixOrder(txs: seq<Transaction>, order: seq<nat>) returns (prefix: seq<nat>, t: nat)
    requires IsOrder(txs, order) && order != []
    ensures order == prefix + [t] && IsOrder(txs, prefix) && t < |txs| && t !in prefix
  {
    var n := |order| - 1;
    prefix, t := order[..n], order[n];
  }

  /** If the payers can pay, every member succeeds wherever it stands. */
  lemma {:induction false} OrderRuns(txs: seq<Transaction>, order: seq<nat>, mem: Accounts)
    requires PayersOnlyPay(txs) && SucceedAlone(txs, mem) && Covered(txs, mem) && IsOrder(txs, order)
    ensures Paid(txs, order, mem, Serial(txs, order, mem)) && AllSucceed(txs, order, mem)
    decreases |order|
  {
    hide Execute;
    hide Paid;
    hide PayersOnlyPay;
    hide SucceedAlone;
    hide Covered;
    if order == [] {
      StartPaid(txs, mem);
    } else {
      var prefix, t := PrefixOrder(txs, order);
      hide IsOrder;
      OrderRuns(txs, prefix, mem);
      CoversNext(txs, prefix, t, mem);
      MemberRuns(txs, prefix, t, mem, Serial(txs, prefix, mem));
      AllSucceedAppend(txs, prefix, t, mem);
      SerialAppend(txs, prefix, t, mem);
    }
  }

  lemma StartPaid(txs: seq<Transaction>, mem: Accounts)
    requires Covered(txs, mem)
    ensures Paid(txs, [], mem, mem)
  {
    assert Elements([]) == {};
    forall t | 0 <= t < |txs| ensures PaidAt(txs, [], mem, mem, txs[t].signer) {
      assert Paying(mem[txs[t].signer], 0) == mem[txs[t].signer];
    }
  }

  lemma CoversNext(txs: seq<Transaction>, prefix: seq<nat>, t: nat, mem: Accounts)
    requires Covered(txs, mem) && IsOrder(txs, prefix) && IsOrder(txs, prefix + [t]) && t < |txs|
    ensures txs[t].signer in mem
    ensures Owed(txs, Elements(prefix), txs[t].signer) + Outflow(txs[t]) <= mem[txs[t].signer].lamports
  {
    OwedAppend(txs, prefix, t, txs[t].signer);
    assert forall u :: u in Elements(prefix + [t]) ==> u in Ids(txs);
    OwedMono(txs, Elements(prefix + [t]), Ids(txs), txs[t].signer);
  }

  // ---------- the final accounts ----------

  ghost predicate WrittenIn(txs: seq<Transaction>, order: seq<nat>, k: Pubkey)
    requires IsOrder(txs, order)
  {
    exists i :: 0 <= i < |order| && k in WriteAccounts(txs[order[i]])
  }

  ghost predicate IsPayer(txs: seq<Transaction>, k: Pubkey) {
    exists t :: 0 <= t < |txs| && txs[t].signer == k
  }

  /** Account k after some members: what its writer leaves alone, or the initial value. */
  ghost predicate SettledAt(txs: seq<Transaction>, order: seq<nat>, mem: Accounts, s: Accounts, k: Pubkey)
    requires IsOrder(txs, order)
  {
    && (forall i :: 0 <= i < |order| && k in WriteAccounts(txs[order[i]]) ==>
          Agree(Execute(txs[order[i]], mem).accounts, s, k))
    && (!WrittenIn(txs, order, k) ==> Agree(mem, s, k))
  }

  lemma SettledNext(txs: seq<Transaction>, prefix: seq<nat>, t: nat, mem: Accounts, s: Accounts, out: Accounts, k: Pubkey)
    requires PayersOnlyPay(txs) && IsOrder(txs, prefix) && IsOrder(txs, prefix + [t]) && t < |txs| && !IsPayer(txs, k)
    requires SettledAt(txs, prefix, mem, s, k) && AgreeOutside(txs[t], s, out)
    requires AgreeBesides(txs[t], Execute(txs[t], mem).accounts, out)
    ensures SettledAt(txs, prefix + [t], mem, out, k)
  {
    hide Execute;
    var order := prefix + [t];
    assert order[|prefix|] == t && forall i :: 0 <= i < |prefix| ==> order[i] == prefix[i];
    if k in WriteAccounts(txs[t]) {
      assert Agree(Execute(txs[t], mem).accounts, out, k) by { assert Declared(txs[t], k); }
      forall i | 0 <= i < |prefix| ensures k !in WriteAccounts(txs[prefix[i]]) {
        assert order[i] != order[|prefix|];
        assert !ConflictsWith(txs[prefix[i]], txs[t]);
      }
      assert WrittenIn(txs, order, k);
    } else {
      assert Agree(s, out, k) by { assert !Exclusive(txs[t], k); }
      assert WrittenIn(txs, prefix, k) ==> WrittenIn(txs, order, k);
    }
    hide AgreeBesides;
    hide AgreeOutside;
    hide PayersOnlyPay;
    hide IsPayer;
  }

  lemma {:induction false} OrderSettles(txs: seq<Transaction>, order: seq<nat>, mem: Accounts, k: Pubkey)
    requires PayersOnlyPay(txs) && SucceedAlone(txs, mem) && Covered(txs, mem) && IsOrder(txs, order) && !IsPayer(txs, k)
    ensures SettledAt(txs, order, mem, Serial(txs, order, mem), k)
    decreases |order|
  {
    if order != [] {
      var prefix, t := PrefixOrder(txs, order);
      var s := Serial(txs, prefix, mem);
      OrderSettles(txs, prefix, mem, k);
      OrderRuns(txs, prefix, mem);
      CoversNext(txs, prefix, t, mem);
      MemberRuns(txs, prefix, t, mem, s);
      AllSucceedAppend(txs, prefix, t, mem);
      SerialAppend(txs, prefix, t, mem);
      assert Flagged(txs[t]);
      ExecuteOutside(txs[t], s);
      hide *;
      SettledNext(txs, prefix, t, mem, s, Execute(txs[t], s).accounts, k);
    }
  }

  lemma CompleteElements(txs: seq<Transaction>, order: seq<nat>)
    requires BatchOrder.Complete(txs, order)
    ensures Elements(order) == Ids(txs)
  {
  }

  lemma OrdersAgreeAt(txs: seq<Transaction>, order: seq<nat>, order': seq<nat>, mem: Accounts, k: Pubkey)
    requires PayersOnlyPay(txs) && SucceedAlone(txs, mem) && Covered(txs, mem)
    requires BatchOrder.Complete(txs, order) && BatchOrder.Complete(txs, order')
    ensures Agree(Serial(txs, order, mem), Serial(txs, order', mem), k)
  {
    hide Execute;
    hide Serial;
    if t :| 0 <= t < |txs| && txs[t].signer == k {
      OrderRuns(txs, order, mem);
      OrderRuns(txs, order', mem);
      CompleteElements(txs, order);
      CompleteElements(txs, order');
      assert PaidAt(txs, order, mem, Serial(txs, order, mem), k) && PaidAt(txs, order', mem, Serial(txs, order', mem), k);
    } else {
      OrderSettles(txs, order, mem, k);
      OrderSettles(txs, order', mem, k);
      SameWriters(txs, order, order', k);
    }
  }

  lemma SameWriters(txs: seq<Transaction>, order: seq<nat>, order': seq<nat>, k: Pubkey)
    requires BatchOrder.Complete(txs, order) && BatchOrder.Complete(txs, order')
    ensures WrittenIn(txs, order, k) ==>
      exists i, j :: 0 <= i < |order| && 0 <= j < |order'| && order[i] == order'[j] && k in WriteAccounts(txs[order[i]])
    ensures WrittenIn(txs, order', k) ==> WrittenIn(txs, order, k)
  {
    if WrittenIn(txs, order, k) {
      var i :| 0 <= i < |order| && k in WriteAccounts(txs[order[i]]);
      assert order[i] in order';
      var j :| 0 <= j < |order'| && order'[j] == order[i];
    }
    if WrittenIn(txs, order', k) {
      var j :| 0 <= j < |order'| && k in WriteAccounts(txs[order'[j]]);
      assert order'[j] in order;
      var i :| 0 <= i < |order| && order[i] == order'[j];
    }
  }

  // ---------- exactly when ----------

  /** Every order of the members gives the same accounts and lets every member succeed as it does alone. */
  ghost predicate OneOutcome(txs: seq<Transaction>, mem: Accounts) {
    && (forall order :: BatchOrder.Complete(txs, order) ==> AllSucceed(txs, order, mem))
    && (forall order, order' :: BatchOrder.Complete(txs, order) && BatchOrder.Complete(txs, order') ==>
          Serial(txs, order, mem) == Serial(txs, order', mem))
  }

  /** Where every member succeeds, all it owes has been paid. */
  lemma {:induction false} SuccessPays(txs: seq<Transaction>, order: seq<nat>, mem: Accounts, p: Pubkey)
    requires PayersOnlyPay(txs) && IsOrder(txs, order) && AllSucceed(txs, order, mem) && IsPayer(txs, p) && p in mem
    ensures PaidAt(txs, order, mem, Serial(txs, order, mem), p)
    decreases |order|
  {
    if order == [] {
      assert Elements([]) == {};
      assert Paying(mem[p], 0) == mem[p];
    } else {
      var prefix, t := PrefixOrder(txs, order);
      var s := Serial(txs, prefix, mem);
      AllSucceedAppend(txs, prefix, t, mem);
      SerialAppend(txs, prefix, t, mem);
      SuccessPays(txs, prefix, mem, p);
      assert Flagged(txs[t]) && PaysOut(txs[t]) && (p != txs[t].signer ==> !Declared(txs[t], p));
      ExecuteOutside(txs[t], s);
      hide Execute;
      hide Serial;
      ExecuteSpends(txs[t], s);
      assert AgreeBesides(txs[t], s, s);
      ExecuteShift(txs[t], s, s);
      PayerAfter(txs, prefix, t, mem, s, Execute(txs[t], s).accounts, p);
    }
  }

  lemma QueueOrder(txs: seq<Transaction>)
    ensures var order := seq(|txs|, i requires 0 <= i < |txs| => i); BatchOrder.Complete(txs, order)
  {
    var order := seq(|txs|, i requires 0 <= i < |txs| => i);
    forall t | 0 <= t < |txs| ensures t in order { assert order[t] == t; }
  }

  lemma OutcomeCovered(txs: seq<Transaction>, mem: Accounts)
    requires PayersOnlyPay(txs) && SucceedAlone(txs, mem) && OneOutcome(txs, mem)
    ensures Covered(txs, mem)
  {
    hide Execute;
    hide Serial;
    var order := seq(|txs|, i requires 0 <= i < |txs| => i);
    QueueOrder(txs);
    CompleteElements(txs, order);
    forall t | 0 <= t < |txs| ensures txs[t].signer in mem && Owed(txs, Ids(txs), txs[t].signer) <= mem[txs[t].signer].lamports {
      SuccessLamports(txs[t], mem);
      SuccessPays(txs, order, mem, txs[t].signer);
    }
  }

  lemma CoveredOutcome(txs: seq<Transaction>, mem: Accounts)
    requires PayersOnlyPay(txs) && SucceedAlone(txs, mem) && Covered(txs, mem)
    ensures OneOutcome(txs, mem)
  {
    hide Execute;
    hide Serial;
    forall order | BatchOrder.Complete(txs, order) ensures AllSucceed(txs, order, mem) {
      OrderRuns(txs, order, mem);
    }
    forall order, order' | BatchOrder.Complete(txs, order) && BatchOrder.Complete(txs, order')
      ensures Serial(txs, order, mem) == Serial(txs, order', mem)
    {
      forall k ensures Agree(Serial(txs, order, mem), Serial(txs, order', mem), k) {
        OrdersAgreeAt(txs, order, order', mem, k);
      }
      LookupExt(Serial(txs, order, mem), Serial(txs, order', mem));
    }
  }

  /** A batch whose members succeed alone and only pay out of their signers' accounts has one outcome if and
  only if every payer's balance covers all that its members take from it. */
  lemma OneOutcomeIff(txs: seq<Transaction>, mem: Accounts)
    requires PayersOnlyPay(txs) && SucceedAlone(txs, mem)
    ensures OneOutcome(txs, mem) <==> Covered(txs, mem)
  {
    hide *;
    if OneOutcome(txs, mem) { OutcomeCovered(txs, mem); }
    if Covered(txs, mem) { CoveredOutcome(txs, mem); }
  }
}
