/** The native system and token programs.

Every instruction first loads the accounts it needs and only then stores. Its specification follows
that shape: `Needs` lists the keys it loads and `Decide` maps the loaded copies to the writes it
performs, or to `None` when the instruction fails. Module ProgramMethods holds the programs themselves,
loading, checking and storing in the order of the source, proved against this specification.
*/
module Programs {
  import opened Bytes
  import opened Wrappers
  import opened Ledger

  const MAX_DATA_LENGTH: nat := 10 * 1024 * 1024
  const DEFAULT_COMPUTE_UNITS: nat := 150_000

  datatype Meta = Meta(index: nat, isSigner: bool, isWritable: bool)

  datatype Instruction = Instruction(programId: Pubkey, metas: seq<Meta>, data: seq<Byte>)

  /** A decoded instruction; `Reject` stands for everything that fails before any account is read:
  malformed data, the unimplemented nonce instruction and unknown programs. */
  datatype Op =
    | SystemTransfer(lamports: U64)
    | CreateAccount(lamports: U64, space: U64, newOwner: Pubkey)
    | Assign(newOwner: Pubkey)
    | InitializeMint
    | InitializeAccount(mint: Pubkey)
    | TokenTransfer(amount: U64)
    | MintTo(amount: U64)
    | Burn(amount: U64)
    | Reject

  /** The number that a key's bytes spell, most significant byte first. */
  function KeyFrom(bs: seq<Byte>): Pubkey {
    if bs == [] then 0 else 256 * KeyFrom(bs[..|bs| - 1]) + bs[|bs| - 1]
  }

  function U64At(data: seq<Byte>, at: nat): U64
    requires at + 8 <= |data|
  {
    Widths();
    FromLeBound(data[at..at + 8]);
    FromLe(data[at..at + 8])
  }

  function DecodeSystem(data: seq<Byte>): Op {
    if |data| == 0 then Reject
    else match data[0]
      case 0 => if |data| < 49 then Reject else CreateAccount(U64At(data, 1), U64At(data, 9), KeyFrom(data[17..49]))
      case 1 => if |data| < 33 then Reject else Assign(KeyFrom(data[1..33]))
      case 2 => if |data| < 9 then Reject else SystemTransfer(U64At(data, 1))
      case _ => Reject
  }

  function DecodeToken(data: seq<Byte>): Op {
    if |data| == 0 then Reject
    else match data[0]
      case 0 => if |data| < 33 then Reject else InitializeAccount(KeyFrom(data[1..33]))
      case 1 => InitializeMint
      case 3 => if |data| < 9 then Reject else TokenTransfer(U64At(data, 1))
      case 7 => if |data| < 9 then Reject else MintTo(U64At(data, 1))
      case 8 => if |data| < 9 then Reject else Burn(U64At(data, 1))
      case _ => Reject
  }

  function Decode(ix: Instruction): Op {
    if ix.programId == SYSTEM_PROGRAM then DecodeSystem(ix.data)
    else if ix.programId == TOKEN_PROGRAM then DecodeToken(ix.data)
    else Reject
  }

  // ---------- specification ----------

  function KeyAt(metas: seq<Meta>, i: nat, keys: seq<Pubkey>): Option<Pubkey> {
    if i < |metas| && metas[i].index < |keys| then Some(keys[metas[i].index]) else None
  }

  function Arity(op: Op): nat {
    match op
    case Assign(_) => 1
    case InitializeMint => 1
    case InitializeAccount(_) => 3
    case Reject => 0
    case _ => 2
  }

  /** The keys an instruction names, when all of them resolve. */
  function Resolve(op: Op, metas: seq<Meta>, keys: seq<Pubkey>): (ks: Option<seq<Pubkey>>)
    ensures ks.Some? ==> |ks.value| == Arity(op)
    ensures ks.Some? ==> forall i :: 0 <= i < Arity(op) ==> KeyAt(metas, i, keys) == Some(ks.value[i])
  {
    if op.Reject? || exists i :: 0 <= i < Arity(op) && KeyAt(metas, i, keys) == None then None
    else Some(seq(Arity(op), i requires 0 <= i < Arity(op) => KeyAt(metas, i, keys).value))
  }

  /** The keys an instruction loads, given the keys it names. */
  function Needs(op: Op, ks: seq<Pubkey>): (needs: seq<Pubkey>)
    requires |ks| == Arity(op)
    ensures forall i :: 0 <= i < |needs| ==> i < |ks| && needs[i] == ks[i]
  {
    if op.InitializeAccount? then ks[..2] else ks
  }

  function LookupAll(s: Accounts, ks: seq<Pubkey>): (vals: seq<Option<Account>>)
    ensures |vals| == |ks| && forall i :: 0 <= i < |ks| ==> vals[i] == Lookup(s, ks[i])
  {
    seq(|ks|, i requires 0 <= i < |ks| => Lookup(s, ks[i]))
  }

  predicate Owned(a: Option<Account>) {
    a.Some? && a.value.owner == TOKEN_PROGRAM
  }

  function WithAmount(a: Account, amount: U64): Account
    requires a.data.Token?
  {
    a.(data := a.data.(amount := amount))
  }

  function WithSupply(a: Account, supply: U64): Account
    requires a.data.Mint?
  {
    a.(data := a.data.(supply := supply))
  }

  /** What an instruction writes, as a function of the account copies it loaded. */
  function Decide(op: Op, signer: Pubkey, ks: seq<Pubkey>, vals: seq<Option<Account>>): Option<seq<Write>>
    requires |ks| == Arity(op) && |vals| == |Needs(op, ks)|
  {
    match op
    case SystemTransfer(lamports) => DecideTransfer(lamports, signer, ks[0], ks[1], vals[0], vals[1])
    case CreateAccount(lamports, space, newOwner) =>
      if ks[0] != signer || space > MAX_DATA_LENGTH || vals[1].Some? || vals[0].None? then None
      else if lamports + RENT_EXEMPT >= U64_LIMIT || vals[0].value.lamports < lamports + RENT_EXEMPT then None
      else
        var payer := vals[0].value;
        Some([Put(ks[0], payer.(lamports := payer.lamports - (lamports + RENT_EXEMPT))),
              Put(ks[1], Account(lamports + RENT_EXEMPT, newOwner, false, 0, Data(seq(space, _ => 0))))])
    case Assign(newOwner) =>
      if ks[0] != signer || vals[0].None? || vals[0].value.owner != SYSTEM_PROGRAM then None
      else Some([Put(ks[0], vals[0].value.(owner := newOwner))])
    case InitializeMint =>
      if ks[0] != signer || vals[0].Some? then None else Some([Put(ks[0], NewMint(signer))])
    case InitializeAccount(mint) =>
      if ks[0] != mint || ks[2] != signer || !Owned(vals[0]) || !vals[0].value.data.Mint? || vals[1].Some? then None
      else Some([Put(ks[1], NewTokenAccount(ks[0], ks[2]))])
    case TokenTransfer(amount) => DecideTokenTransfer(amount, signer, ks[0], ks[1], vals[0], vals[1])
    case MintTo(amount) => DecideMintTo(amount, signer, ks[0], ks[1], vals[0], vals[1])
    case Burn(amount) => DecideBurn(amount, signer, ks[0], ks[1], vals[0], vals[1])
    case Reject => None
  }

  function DecideTransfer(lamports: U64, signer: Pubkey, from: Pubkey, to: Pubkey,
                          src: Option<Account>, dst: Option<Account>): Option<seq<Write>> {
    if from != signer || src.None? || src.value.lamports < lamports then None
    else
      var credited := if dst.Some? then dst.value else NewSystemAccount(0);
      if credited.lamports + lamports >= U64_LIMIT then None
      else Some([Put(from, src.value.(lamports := src.value.lamports - lamports)),
                 Put(to, credited.(lamports := credited.lamports + lamports))])
  }

  function DecideTokenTransfer(amount: U64, signer: Pubkey, from: Pubkey, to: Pubkey,
                               src: Option<Account>, dst: Option<Account>): Option<seq<Write>> {
    if from == to || !Owned(src) || !Owned(dst) || !src.value.data.Token? || !dst.value.data.Token? then None
    else
      var f, t := src.value.data, dst.value.data;
      if f.authority != signer || f.mint != t.mint || f.amount < amount || t.amount + amount >= U64_LIMIT then None
      else Some([Put(from, WithAmount(src.value, f.amount - amount)), Put(to, WithAmount(dst.value, t.amount + amount))])
  }

  function DecideMintTo(amount: U64, signer: Pubkey, mintKey: Pubkey, dest: Pubkey,
                        m: Option<Account>, d: Option<Account>): Option<seq<Write>> {
    if !Owned(m) || !m.value.data.Mint? || m.value.data.mintAuthority != signer then None
    else if !Owned(d) || !d.value.data.Token? || d.value.data.mint != mintKey then None
    else if m.value.data.supply + amount >= U64_LIMIT || d.value.data.amount + amount >= U64_LIMIT then None
    else Some([Put(mintKey, WithSupply(m.value, m.value.data.supply + amount)),
               Put(dest, WithAmount(d.value, d.value.data.amount + amount))])
  }

  function DecideBurn(amount: U64, signer: Pubkey, mintKey: Pubkey, token: Pubkey,
                      m: Option<Account>, d: Option<Account>): Option<seq<Write>> {
    if !Owned(m) || !m.value.data.Mint? || !Owned(d) || !d.value.data.Token? then None
    else if d.value.data.authority != signer || d.value.data.mint != mintKey then None
    else if d.value.data.amount < amount || m.value.data.supply < amount then None
    else Some([Put(mintKey, WithSupply(m.value, m.value.data.supply - amount)),
               Put(token, WithAmount(d.value, d.value.data.amount - amount))])
  }

  /** The writes of an instruction in a given state, or `None` when it fails. */
  function Effect(op: Op, metas: seq<Meta>, signer: Pubkey, keys: seq<Pubkey>, s: Accounts): Option<seq<Write>> {
    var ks := Resolve(op, metas, keys);
    if ks.None? then None
    else Decide(op, signer, ks.value, LookupAll(s, Needs(op, ks.value)))
  }

  /** The state after an instruction: a failed one changes nothing. */
  function After(op: Op, metas: seq<Meta>, signer: Pubkey, keys: seq<Pubkey>, s: Accounts): Accounts {
    var e := Effect(op, metas, signer, keys, s);
    if e.Some? then Apply(e.value, s) else s
  }

  /** The accounts after an instruction as it travels, or `None` when it fails. */
  function Processed(ix: Instruction, signer: Pubkey, keys: seq<Pubkey>, s: Accounts): Option<Accounts> {
    if Effect(Decode(ix), ix.metas, signer, keys, s).Some?
    then Some(After(Decode(ix), ix.metas, signer, keys, s)) else None
  }

  /** Compute units of the program itself, on top of the dispatch charge. */
  function Cost(op: Op): nat {
    match op
    case SystemTransfer(_) => 150
    case CreateAccount(_, _, _) => 200
    case Assign(_) => 100
    case InitializeMint => 300
    case InitializeAccount(_) => 300
    case TokenTransfer(_) => 200
    case MintTo(_) => 200
    case Burn(_) => 200
    case Reject => 0
  }

  /** Compute units of a successful instruction. */
  function UnitsOf(ix: Instruction): nat { 150 + Cost(Decode(ix)) }
}
