/** Accounts, the accounts database as the programs see it, and sums over it.

A public key is 32 bytes; programs and the scheduler only compare and order keys, so a key is
modelled as the number those bytes spell most significant byte first, whose order is the byte order.
*/
module Ledger {
  import opened Bytes
  import opened Wrappers

  type Pubkey = nat

  const SYSTEM_PROGRAM: Pubkey := 0x01010101_01010101_01010101_01010101_01010101_01010101_01010101_01010101
  const TOKEN_PROGRAM: Pubkey := 0x02020202_02020202_02020202_02020202_02020202_02020202_02020202_02020202
  const RENT_EXEMPT: U64 := 890_880

  datatype AccountData =
    | System
    | Program(code: seq<Byte>)
    | Token(mint: Pubkey, authority: Pubkey, amount: U64)
    | Mint(mintAuthority: Pubkey, supply: U64)
    | Data(bytes: seq<Byte>)

  datatype Account = Account(lamports: U64, owner: Pubkey, executable: bool, rentEpoch: U64, data: AccountData)

  type Accounts = map<Pubkey, Account>

  function NewSystemAccount(lamports: U64): Account {
    Account(lamports, SYSTEM_PROGRAM, false, 0, System)
  }

  function NewMint(authority: Pubkey): Account {
    Account(RENT_EXEMPT, TOKEN_PROGRAM, false, 0, Mint(authority, 0))
  }

  function NewTokenAccount(mint: Pubkey, authority: Pubkey): Account {
    Account(0, TOKEN_PROGRAM, false, 0, Token(mint, authority, 0))
  }

  function Lookup(s: Accounts, k: Pubkey): Option<Account> {
    if k in s then Some(s[k]) else None
  }

  /** A mutation of the database: `store` or `remove`. */
  datatype Write = Put(key: Pubkey, account: Account) | Del(key: Pubkey)

  function ApplyOne(w: Write, s: Accounts): Accounts {
    match w
    case Put(k, a) => s[k := a]
    case Del(k) => s - {k}
  }

  function Apply(ws: seq<Write>, s: Accounts): Accounts {
    if ws == [] then s else Apply(ws[1..], ApplyOne(ws[0], s))
  }

  lemma {:induction false} ApplyAppend(xs: seq<Write>, ys: seq<Write>, s: Accounts)
    ensures Apply(xs + ys, s) == Apply(ys, Apply(xs, s))
  {
    if xs == [] {
      assert xs + ys == ys;
    } else {
      assert (xs + ys)[1..] == xs[1..] + ys;
      ApplyAppend(xs[1..], ys, ApplyOne(xs[0], s));
    }
  }

  // ---------- sums over accounts ----------

  /** The sum of a weight over every account. */
  ghost function Sum(s: Accounts, w: Account -> nat): nat {
    if s == map[] then 0
    else
      var k :| k in s;
      w(s[k]) + Sum(s - {k}, w)
  }

  lemma {:induction false} SumRemove(s: Accounts, w: Account -> nat, k: Pubkey)
    requires k in s
    ensures Sum(s, w) == w(s[k]) + Sum(s - {k}, w)
    decreases |s|
  {
    var j :| j in s && Sum(s, w) == w(s[j]) + Sum(s - {j}, w);
    if j != k {
      SumRemove(s - {j}, w, k);
      SumRemove(s - {k}, w, j);
      assert s - {j} - {k} == s - {k} - {j};
    }
  }

  ghost function WeightAt(s: Accounts, w: Account -> nat, k: Pubkey): nat {
    if k in s then w(s[k]) else 0
  }

  lemma SumPut(s: Accounts, w: Account -> nat, k: Pubkey, a: Account)
    ensures Sum(s[k := a], w) + WeightAt(s, w, k) == Sum(s, w) + w(a)
  {
    var t := s[k := a];
    SumRemove(t, w, k);
    assert t - {k} == s - {k};
    if k in s {
      SumRemove(s, w, k);
    } else {
      assert s - {k} == s;
    }
  }

  /** One account weighs no more than all of them. */
  lemma SumAtLeast(s: Accounts, w: Account -> nat, k: Pubkey)
    requires k in s
    ensures w(s[k]) <= Sum(s, w)
  {
    SumRemove(s, w, k);
  }

  lemma {:induction false} SumZero(s: Accounts, w: Account -> nat)
    requires forall k :: k in s ==> w(s[k]) == 0
    ensures Sum(s, w) == 0
    decreases |s|
  {
    if s != map[] {
      var k :| k in s && Sum(s, w) == w(s[k]) + Sum(s - {k}, w);
      SumZero(s - {k}, w);
    }
  }

  ghost function Lamports(): Account -> nat { (a: Account) => a.lamports }

  /** Lamports over every account: the supply that transfers must preserve. */
  ghost function TotalLamports(s: Accounts): nat { Sum(s, Lamports()) }

  ghost function BalanceIn(mint: Pubkey): Account -> nat {
    (a: Account) => if a.data.Token? && a.data.mint == mint then a.data.amount else 0
  }

  /** Token balances of one mint over every account. */
  ghost function TotalBalance(s: Accounts, mint: Pubkey): nat { Sum(s, BalanceIn(mint)) }

  // ---------- the database object ----------

  /** The accounts database as a plain map; module AccountsStore shows that the append-only store
  behaves like one. */
  class Database {
    var accounts: Accounts

    constructor (initial: Accounts)
      ensures accounts == initial
    {
      accounts := initial;
    }

    method Load(k: Pubkey) returns (a: Option<Account>)
      ensures a == Lookup(accounts, k)
    {
      a := if k in accounts then Some(accounts[k]) else None;
    }

    method Exists(k: Pubkey) returns (b: bool)
      ensures b <==> k in accounts
    {
      b := k in accounts;
    }

    method Store(k: Pubkey, a: Account)
      modifies this
      ensures accounts == old(accounts)[k := a]
    {
      accounts := accounts[k := a];
    }

    method Remove(k: Pubkey)
      modifies this
      ensures accounts == old(accounts) - {k}
    {
      accounts := accounts - {k};
    }
  }
}
