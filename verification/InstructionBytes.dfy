/** What the bytes of an instruction do: for every program, tag and field, exactly when the instruction
succeeds and exactly what it changes. */
module InstructionBytes {
  import opened Bytes
  import opened Wrappers
  import opened Ledger
  import opened Programs
  import opened ProgramMethods

  /** The leading metas resolve to the given keys. */
  predicate Names(ix: Instruction, keys: seq<Pubkey>, ks: seq<Pubkey>) {
    |ks| <= |ix.metas| &&
    forall i :: 0 <= i < |ks| ==> ix.metas[i].index < |keys| && keys[ix.metas[i].index] == ks[i]
  }

  /** Only the given accounts differ. */
  ghost predicate OnlyAt(s: Accounts, t: Accounts, ks: set<Pubkey>) {
    forall k :: k !in ks ==> Lookup(s, k) == Lookup(t, k)
  }

  predicate IsMint(s: Accounts, k: Pubkey) {
    k in s && s[k].owner == TOKEN_PROGRAM && s[k].data.Mint?
  }

  predicate IsToken(s: Accounts, k: Pubkey) {
    k in s && s[k].owner == TOKEN_PROGRAM && s[k].data.Token?
  }

  lemma NamesResolve(ix: Instruction, keys: seq<Pubkey>, op: Op, ks: seq<Pubkey>)
    requires !op.Reject? && |ks| == Arity(op) && Names(ix, keys, ks)
    ensures Resolve(op, ix.metas, keys) == Some(ks)
  {
    forall i | 0 <= i < |ks| ensures KeyAt(ix.metas, i, keys) == Some(ks[i]) { }
    var r := Resolve(op, ix.metas, keys);
    assert r.Some? && r.value == ks;
  }

  /** An instruction on two accounts stores to both, or fails. */
  lemma OnPair(ix: Instruction, signer: Pubkey, keys: seq<Pubkey>, s: Accounts, op: Op, k: Pubkey, l: Pubkey)
    requires Decode(ix) == op && !op.Reject? && Arity(op) == 2 && Names(ix, keys, [k, l])
    ensures var e := Decide(op, signer, [k, l], [Lookup(s, k), Lookup(s, l)]);
      && (e.Some? ==> |e.value| == 2 && e.value[0].Put? && e.value[1].Put?)
      && Processed(ix, signer, keys, s) ==
         if e.Some? then Some(s[k := e.value[0].account][l := e.value[1].account]) else None
  {
    NamesResolve(ix, keys, op, [k, l]);
    hide Resolve;
    hide Decode;
    assert LookupAll(s, [k, l]) == [Lookup(s, k), Lookup(s, l)];
    var e := Decide(op, signer, [k, l], [Lookup(s, k), Lookup(s, l)]);
    if e.Some? {
      assert e.value == [e.value[0], e.value[1]];
      ApplyTwo(e.value[0], e.value[1], s);
    }
  }

  /** An instruction on one account stores to it, or fails. */
  lemma OnOne(ix: Instruction, signer: Pubkey, keys: seq<Pubkey>, s: Accounts, op: Op, k: Pubkey)
    requires Decode(ix) == op && !op.Reject? && Arity(op) == 1 && Names(ix, keys, [k])
    ensures var e := Decide(op, signer, [k], [Lookup(s, k)]);
      && (e.Some? ==> |e.value| == 1 && e.value[0].Put?)
      && Processed(ix, signer, keys, s) == if e.Some? then Some(s[k := e.value[0].account]) else None
  {
    NamesResolve(ix, keys, op, [k]);
    hide Resolve;
    hide Decode;
    assert LookupAll(s, [k]) == [Lookup(s, k)];
    var e := Decide(op, signer, [k], [Lookup(s, k)]);
    if e.Some? {
      assert e.value == [e.value[0]];
      ApplySingle(e.value[0], s);
    }
  }

  // ---------- fields ----------

  lemma AmountField(tag: Byte, n: U64, rest: seq<Byte>)
    ensures var data := [tag] + ToLe(n, 8) + rest; |data| >= 9 && data[0] == tag && U64At(data, 1) == n
  {
    var data := [tag] + ToLe(n, 8) + rest;
    assert data[1..9] == ToLe(n, 8);
    Widths();
    FromToLe(n, 8);
  }

  lemma KeyField(tag: Byte, key: seq<Byte>, rest: seq<Byte>)
    requires |key| == 32
    ensures var data := [tag] + key + rest; |data| >= 33 && data[0] == tag && data[1..33] == key
  {
  }

  lemma CreateFields(lamports: U64, space: U64, owner: seq<Byte>, rest: seq<Byte>)
    requires |owner| == 32
    ensures var data := [0] + ToLe(lamports, 8) + ToLe(space, 8) + owner + rest;
      |data| >= 49 && data[0] == 0 && U64At(data, 1) == lamports && U64At(data, 9) == space && data[17..49] == owner
  {
    var data := [0] + ToLe(lamports, 8) + ToLe(space, 8) + owner + rest;
    assert data[1..9] == ToLe(lamports, 8);
    assert data[9..17] == ToLe(space, 8);
    Widths();
    FromToLe(lamports, 8);
    FromToLe(space, 8);
  }

  // ---------- the system program ----------

  /** Tag 2, a transfer. From one account to itself both copies are read first, so only the credit stays. */
  ghost predicate Transfers(ix: Instruction, signer: Pubkey, keys: seq<Pubkey>, s: Accounts, n: U64, from: Pubkey,
                            to: Pubkey) {
    var before := if to in s then s[to].lamports else 0;
    var t := Processed(ix, signer, keys, s);
    && (t.Some? <==> from == signer && from in s && s[from].lamports >= n && before + n < U64_LIMIT)
    && (t.Some? ==>
      && OnlyAt(s, t.value, {from, to}) && from in t.value && to in t.value
      && t.value[to] == (if to in s then s[to].(lamports := before + n) else NewSystemAccount(n))
      && (from != to ==> t.value[from] == s[from].(lamports := s[from].lamports - n)))
    && UnitsOf(ix) == 300
  }

  lemma TransferEffect(ix: Instruction, signer: Pubkey, keys: seq<Pubkey>, s: Accounts, n: U64, from: Pubkey,
                       to: Pubkey)
    requires Decode(ix) == SystemTransfer(n) && Names(ix, keys, [from, to])
    ensures Transfers(ix, signer, keys, s, n, from, to)
  {
    hide Decode;
    OnPair(ix, signer, keys, s, SystemTransfer(n), from, to);
    hide Processed;
    hide Names;
  }

  lemma TransferBytes(ix: Instruction, signer: Pubkey, keys: seq<Pubkey>, s: Accounts, n: U64, rest: seq<Byte>,
                      from: Pubkey, to: Pubkey)
    requires ix.programId == SYSTEM_PROGRAM && ix.data == [2] + ToLe(n, 8) + rest && Names(ix, keys, [from, to])
    ensures Transfers(ix, signer, keys, s, n, from, to)
  {
    AmountField(2, n, rest);
    hide Transfers;
    TransferEffect(ix, signer, keys, s, n, from, to);
  }

  /** Tag 0, an account creation. */
  ghost predicate Creates(ix: Instruction, signer: Pubkey, keys: seq<Pubkey>, s: Accounts, lamports: U64, space: U64,
                          owner: Pubkey, payer: Pubkey, created: Pubkey) {
    var funds := lamports + 890_880;
    var t := Processed(ix, signer, keys, s);
    && (t.Some? <==> payer == signer && space <= 10 * 1024 * 1024 && created !in s && payer in s &&
                     funds < U64_LIMIT && s[payer].lamports >= funds)
    && (t.Some? ==>
      && OnlyAt(s, t.value, {payer, created}) && payer in t.value && created in t.value
      && t.value[payer] == s[payer].(lamports := s[payer].lamports - funds)
      && t.value[created] == Account(funds, owner, false, 0, t.value[created].data)
      && t.value[created].data.Data? && |t.value[created].data.bytes| == space
      && forall i :: 0 <= i < space ==> t.value[created].data.bytes[i] == 0)
    && UnitsOf(ix) == 350
  }

  lemma CreateEffect(ix: Instruction, signer: Pubkey, keys: seq<Pubkey>, s: Accounts, lamports: U64, space: U64,
                     owner: Pubkey, payer: Pubkey, created: Pubkey)
    requires Decode(ix) == CreateAccount(lamports, space, owner) && Names(ix, keys, [payer, created])
    ensures Creates(ix, signer, keys, s, lamports, space, owner, payer, created)
  {
    hide Decode;
    OnPair(ix, signer, keys, s, CreateAccount(lamports, space, owner), payer, created);
    hide Processed;
    hide Names;
  }

  lemma CreateBytes(ix: Instruction, signer: Pubkey, keys: seq<Pubkey>, s: Accounts, lamports: U64, space: U64,
                    owner: seq<Byte>, rest: seq<Byte>, payer: Pubkey, created: Pubkey)
    requires |owner| == 32 && ix.programId == SYSTEM_PROGRAM && Names(ix, keys, [payer, created])
    requires ix.data == [0] + ToLe(lamports, 8) + ToLe(space, 8) + owner + rest
    ensures Creates(ix, signer, keys, s, lamports, space, KeyFrom(owner), payer, created)
  {
    CreateFields(lamports, space, owner, rest);
    hide Creates;
    CreateEffect(ix, signer, keys, s, lamports, space, KeyFrom(owner), payer, created);
  }

  /** Tag 1, an assignment to a new owner. */
  lemma AssignBytes(ix: Instruction, signer: Pubkey, keys: seq<Pubkey>, s: Accounts, owner: seq<Byte>,
                    rest: seq<Byte>, k: Pubkey)
    requires |owner| == 32 && ix.programId == SYSTEM_PROGRAM && Names(ix, keys, [k])
    requires ix.data == [1] + owner + rest
    ensures var t := Processed(ix, signer, keys, s);
      && (t.Some? <==> k == signer && k in s && s[k].owner == SYSTEM_PROGRAM)
      && (t.Some? ==> OnlyAt(s, t.value, {k}) && k in t.value && t.value[k] == s[k].(owner := KeyFrom(owner)))
      && UnitsOf(ix) == 250
  {
    KeyField(1, owner, rest);
    assert Decode(ix) == Assign(KeyFrom(owner));
    hide Decode;
    hide Processed;
    OnOne(ix, signer, keys, s, Assign(KeyFrom(owner)), k);
  }

  // ---------- the token program ----------

  /** Tag 1, a new mint. */
  lemma NewMintBytes(ix: Instruction, signer: Pubkey, keys: seq<Pubkey>, s: Accounts, rest: seq<Byte>, mint: Pubkey)
    requires ix.programId == TOKEN_PROGRAM && ix.data == [1] + rest && Names(ix, keys, [mint])
    ensures var t := Processed(ix, signer, keys, s);
      && (t.Some? <==> mint == signer && mint !in s)
      && (t.Some? ==> OnlyAt(s, t.value, {mint}) && mint in t.value &&
                      t.value[mint] == Account(890_880, TOKEN_PROGRAM, false, 0, Mint(signer, 0)))
      && UnitsOf(ix) == 450
  {
    assert ix.data[0] == 1;
    OnOne(ix, signer, keys, s, InitializeMint, mint);
    hide Processed;
  }

  /** Tag 0, a new token account of the mint that the data and the first account name. */
  lemma NewTokenBytes(ix: Instruction, signer: Pubkey, keys: seq<Pubkey>, s: Accounts, named: seq<Byte>,
                      rest: seq<Byte>, mint: Pubkey, token: Pubkey, owner: Pubkey)
    requires |named| == 32 && ix.programId == TOKEN_PROGRAM && ix.data == [0] + named + rest
    requires Names(ix, keys, [mint, token, owner])
    ensures var t := Processed(ix, signer, keys, s);
      && (t.Some? <==> mint == KeyFrom(named) && owner == signer && IsMint(s, mint) && token !in s)
      && (t.Some? ==> OnlyAt(s, t.value, {token}) && token in t.value &&
                      t.value[token] == Account(0, TOKEN_PROGRAM, false, 0, Token(mint, signer, 0)))
      && UnitsOf(ix) == 450
  {
    KeyField(0, named, rest);
    var op := InitializeAccount(KeyFrom(named));
    assert Decode(ix) == op;
    NamesResolve(ix, keys, op, [mint, token, owner]);
    hide Decode;
    hide Resolve;
    assert Needs(op, [mint, token, owner]) == [mint, token];
    var e := Effect(op, ix.metas, signer, keys, s);
    if e.Some? { ApplySingle(e.value[0], s); }
  }

  /** Tag 3, a token transfer. */
  ghost predicate MovesTokens(ix: Instruction, signer: Pubkey, keys: seq<Pubkey>, s: Accounts, n: U64, from: Pubkey,
                              to: Pubkey) {
    var t := Processed(ix, signer, keys, s);
    && (t.Some? <==> from != to && IsToken(s, from) && IsToken(s, to) && s[from].data.authority == signer &&
                     s[from].data.mint == s[to].data.mint && s[from].data.amount >= n &&
                     s[to].data.amount + n < U64_LIMIT)
    && (t.Some? ==>
      && OnlyAt(s, t.value, {from, to}) && from in t.value && to in t.value
      && t.value[from] == s[from].(data := s[from].data.(amount := s[from].data.amount - n))
      && t.value[to] == s[to].(data := s[to].data.(amount := s[to].data.amount + n)))
    && UnitsOf(ix) == 350
  }

  lemma TokenTransferEffect(ix: Instruction, signer: Pubkey, keys: seq<Pubkey>, s: Accounts, n: U64, from: Pubkey,
                            to: Pubkey)
    requires Decode(ix) == TokenTransfer(n) && Names(ix, keys, [from, to])
    ensures MovesTokens(ix, signer, keys, s, n, from, to)
  {
    hide Decode;
    OnPair(ix, signer, keys, s, TokenTransfer(n), from, to);
    hide Processed;
    hide Names;
  }

  lemma TokenTransferBytes(ix: Instruction, signer: Pubkey, keys: seq<Pubkey>, s: Accounts, n: U64, rest: seq<Byte>,
                           from: Pubkey, to: Pubkey)
    requires ix.programId == TOKEN_PROGRAM && ix.data == [3] + ToLe(n, 8) + rest && Names(ix, keys, [from, to])
    ensures MovesTokens(ix, signer, keys, s, n, from, to)
  {
    AmountField(3, n, rest);
    hide MovesTokens;
    TokenTransferEffect(ix, signer, keys, s, n, from, to);
  }

  /** Tag 7: supply and one balance rise by the amount. */
  ghost predicate Mints(ix: Instruction, signer: Pubkey, keys: seq<Pubkey>, s: Accounts, n: U64, mint: Pubkey,
                        token: Pubkey) {
    var t := Processed(ix, signer, keys, s);
    && (t.Some? <==> IsMint(s, mint) && s[mint].data.mintAuthority == signer && IsToken(s, token) &&
                     s[token].data.mint == mint && s[mint].data.supply + n < U64_LIMIT &&
                     s[token].data.amount + n < U64_LIMIT)
    && (t.Some? ==>
      && OnlyAt(s, t.value, {mint, token}) && mint in t.value && token in t.value
      && t.value[mint] == s[mint].(data := s[mint].data.(supply := s[mint].data.supply + n))
      && t.value[token] == s[token].(data := s[token].data.(amount := s[token].data.amount + n)))
    && UnitsOf(ix) == 350
  }

  lemma MintToEffect(ix: Instruction, signer: Pubkey, keys: seq<Pubkey>, s: Accounts, n: U64, mint: Pubkey,
                     token: Pubkey)
    requires Decode(ix) == MintTo(n) && Names(ix, keys, [mint, token])
    ensures Mints(ix, signer, keys, s, n, mint, token)
  {
    hide Decode;
    OnPair(ix, signer, keys, s, MintTo(n), mint, token);
    hide Processed;
    hide Names;
  }

  lemma MintToBytes(ix: Instruction, signer: Pubkey, keys: seq<Pubkey>, s: Accounts, n: U64, rest: seq<Byte>,
                    mint: Pubkey, token: Pubkey)
    requires ix.programId == TOKEN_PROGRAM && ix.data == [7] + ToLe(n, 8) + rest && Names(ix, keys, [mint, token])
    ensures Mints(ix, signer, keys, s, n, mint, token)
  {
    AmountField(7, n, rest);
    hide Mints;
    MintToEffect(ix, signer, keys, s, n, mint, token);
  }

  /** Tag 8: supply and one balance fall by the amount. */
  ghost predicate Burns(ix: Instruction, signer: Pubkey, keys: seq<Pubkey>, s: Accounts, n: U64, mint: Pubkey,
                        token: Pubkey) {
    var t := Processed(ix, signer, keys, s);
    && (t.Some? <==> IsMint(s, mint) && IsToken(s, token) && s[token].data.authority == signer &&
                     s[token].data.mint == mint && s[token].data.amount >= n && s[mint].data.supply >= n)
    && (t.Some? ==>
      && OnlyAt(s, t.value, {mint, token}) && mint in t.value && token in t.value
      && t.value[mint] == s[mint].(data := s[mint].data.(supply := s[mint].data.supply - n))
      && t.value[token] == s[token].(data := s[token].data.(amount := s[token].data.amount - n)))
    && UnitsOf(ix) == 350
  }

  lemma BurnEffect(ix: Instruction, signer: Pubkey, keys: seq<Pubkey>, s: Accounts, n: U64, mint: Pubkey,
                   token: Pubkey)
    requires Decode(ix) == Burn(n) && Names(ix, keys, [mint, token])
    ensures Burns(ix, signer, keys, s, n, mint, token)
  {
    hide Decode;
    OnPair(ix, signer, keys, s, Burn(n), mint, token);
    hide Processed;
    hide Names;
  }

  lemma BurnBytes(ix: Instruction, signer: Pubkey, keys: seq<Pubkey>, s: Accounts, n: U64, rest: seq<Byte>,
                  mint: Pubkey, token: Pubkey)
    requires ix.programId == TOKEN_PROGRAM && ix.data == [8] + ToLe(n, 8) + rest && Names(ix, keys, [mint, token])
    ensures Burns(ix, signer, keys, s, n, mint, token)
  {
    AmountField(8, n, rest);
    hide Burns;
    BurnEffect(ix, signer, keys, s, n, mint, token);
  }

  // ---------- everything else fails ----------

  /** How many accounts an instruction must name, by program, tag and length; `None` for bytes that no
  program takes. */
  function AccountsNamed(program: Pubkey, data: seq<Byte>): Option<nat> {
    if data == [] then None
    else if program == SYSTEM_PROGRAM then
      if data[0] == 0 && |data| >= 49 then Some(2)
      else if data[0] == 1 && |data| >= 33 then Some(1)
      else if data[0] == 2 && |data| >= 9 then Some(2)
      else None
    else if program == TOKEN_PROGRAM then
      if data[0] == 0 && |data| >= 33 then Some(3)
      else if data[0] == 1 then Some(1)
      else if data[0] in {3, 7, 8} && |data| >= 9 then Some(2)
      else None
    else None
  }

  /** Unknown programs and tags, short data, and instructions that name too few accounts all fail. */
  lemma OtherBytesFail(ix: Instruction, signer: Pubkey, keys: seq<Pubkey>, s: Accounts)
    requires Processed(ix, signer, keys, s).Some?
    ensures var n := AccountsNamed(ix.programId, ix.data);
      n.Some? && n.value <= |ix.metas| && forall i :: 0 <= i < n.value ==> ix.metas[i].index < |keys|
  {
    var op := Decode(ix);
    var ks := Resolve(op, ix.metas, keys).value;
    forall i | 0 <= i < Arity(op) ensures i < |ix.metas| && ix.metas[i].index < |keys| {
      assert KeyAt(ix.metas, i, keys) == Some(ks[i]);
    }
  }

  // ---------- keys ----------

  /** The first byte where two keys differ decides their order. */
  lemma {:induction false} KeyOrder(a: seq<Byte>, b: seq<Byte>, i: nat)
    requires |a| == |b| && i < |a| && a[..i] == b[..i] && a[i] < b[i]
    ensures KeyFrom(a) < KeyFrom(b)
  {
    var n := |a| - 1;
    if i < n {
      assert a[..n][..i] == a[..i] && b[..n][..i] == b[..i];
      KeyOrder(a[..n], b[..n], i);
    } else {
      assert a[..n] == b[..n];
    }
  }
}
