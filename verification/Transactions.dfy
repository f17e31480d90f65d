/** Transactions, the accounts they declare, and when two of them conflict. */
module Transactions {
  import opened Bytes
  import opened Ledger
  import opened Programs

  /** `signatureOk` is the verdict of Ed25519 verification over the transaction hash. */
  datatype Transaction = Transaction(
    signatureOk: bool,
    signer: Pubkey,
    accountKeys: seq<Pubkey>,
    instructions: seq<Instruction>,
    computeBudget: U64,
    fee: U64)

  const MIN_FEE: nat := 5000

  predicate Validates(tx: Transaction) {
    tx.instructions != [] && tx.computeBudget != 0 && tx.fee >= MIN_FEE
  }

  /** The resolved keys of the metas with the given writability, in order; an index past the end of
  the key list resolves to nothing. */
  function MetaKeys(metas: seq<Meta>, keys: seq<Pubkey>, writable: bool): seq<Pubkey> {
    if metas == [] then []
    else
      var m := metas[0];
      (if m.isWritable == writable && m.index < |keys| then [keys[m.index]] else []) +
      MetaKeys(metas[1..], keys, writable)
  }

  function DeclaredKeys(ixs: seq<Instruction>, keys: seq<Pubkey>, writable: bool): seq<Pubkey> {
    if ixs == [] then [] else MetaKeys(ixs[0].metas, keys, writable) + DeclaredKeys(ixs[1..], keys, writable)
  }

  function ReadAccounts(tx: Transaction): seq<Pubkey> {
    DeclaredKeys(tx.instructions, tx.accountKeys, false)
  }

  function WriteAccounts(tx: Transaction): seq<Pubkey> {
    DeclaredKeys(tx.instructions, tx.accountKeys, true)
  }

  lemma {:induction false} MetaKeyDeclared(metas: seq<Meta>, keys: seq<Pubkey>, i: nat)
    requires KeyAt(metas, i, keys).Some?
    ensures KeyAt(metas, i, keys).value in MetaKeys(metas, keys, metas[i].isWritable)
  {
    if i != 0 {
      MetaKeyDeclared(metas[1..], keys, i - 1);
    }
  }

  lemma {:induction false} InstructionDeclared(ixs: seq<Instruction>, keys: seq<Pubkey>, writable: bool, n: nat, k: Pubkey)
    requires n < |ixs| && k in MetaKeys(ixs[n].metas, keys, writable)
    ensures k in DeclaredKeys(ixs, keys, writable)
  {
    if n != 0 {
      InstructionDeclared(ixs[1..], keys, writable, n - 1, k);
    }
  }

  /** Every key that an instruction can resolve is declared as read or as written. */
  lemma ResolvedIsDeclared(tx: Transaction, n: nat, i: nat)
    requires n < |tx.instructions| && KeyAt(tx.instructions[n].metas, i, tx.accountKeys).Some?
    ensures var k := KeyAt(tx.instructions[n].metas, i, tx.accountKeys).value;
      k in ReadAccounts(tx) || k in WriteAccounts(tx)
  {
    var metas := tx.instructions[n].metas;
    MetaKeyDeclared(metas, tx.accountKeys, i);
    InstructionDeclared(tx.instructions, tx.accountKeys, metas[i].isWritable, n, KeyAt(metas, i, tx.accountKeys).value);
  }

  lemma {:induction false} MetaKeysExact(metas: seq<Meta>, keys: seq<Pubkey>, writable: bool, k: Pubkey)
    ensures k in MetaKeys(metas, keys, writable) <==>
      exists i :: 0 <= i < |metas| && metas[i].isWritable == writable && metas[i].index < |keys| && keys[metas[i].index] == k
  {
    if metas != [] {
      MetaKeysExact(metas[1..], keys, writable, k);
      assert forall i :: 0 < i < |metas| ==> metas[i] == metas[1..][i - 1];
    }
  }

  /** Instruction n declares the key with the given writability. */
  predicate DeclaredBy(ix: Instruction, keys: seq<Pubkey>, writable: bool, k: Pubkey) {
    exists i :: 0 <= i < |ix.metas| &&
      ix.metas[i].isWritable == writable && ix.metas[i].index < |keys| && keys[ix.metas[i].index] == k
  }

  lemma {:induction false} DeclaredKeysExact(ixs: seq<Instruction>, keys: seq<Pubkey>, writable: bool, k: Pubkey)
    ensures k in DeclaredKeys(ixs, keys, writable) <==>
      exists n :: 0 <= n < |ixs| && DeclaredBy(ixs[n], keys, writable, k)
  {
    if ixs != [] {
      MetaKeysExact(ixs[0].metas, keys, writable, k);
      DeclaredKeysExact(ixs[1..], keys, writable, k);
      assert forall n :: 0 < n < |ixs| ==> ixs[n] == ixs[1..][n - 1];
      hide DeclaredBy;
    }
  }

  /** A key is written, or read, exactly when some meta of some instruction that is flagged writable, or is
  not, resolves to it. */
  lemma DeclaredExactly(tx: Transaction, k: Pubkey)
    ensures k in WriteAccounts(tx) <==>
      exists n :: 0 <= n < |tx.instructions| && DeclaredBy(tx.instructions[n], tx.accountKeys, true, k)
    ensures k in ReadAccounts(tx) <==>
      exists n :: 0 <= n < |tx.instructions| && DeclaredBy(tx.instructions[n], tx.accountKeys, false, k)
  {
    DeclaredKeysExact(tx.instructions, tx.accountKeys, true, k);
    DeclaredKeysExact(tx.instructions, tx.accountKeys, false, k);
  }

  /** Either writes what the other reads or writes. */
  predicate ConflictsWith(a: Transaction, b: Transaction) {
    || (exists w :: w in WriteAccounts(a) && (w in WriteAccounts(b) || w in ReadAccounts(b)))
    || (exists w :: w in WriteAccounts(b) && (w in WriteAccounts(a) || w in ReadAccounts(a)))
  }

  lemma ConflictsSymmetric(a: Transaction, b: Transaction)
    ensures ConflictsWith(a, b) <==> ConflictsWith(b, a)
  {
  }

  // ---------- lock lists ----------

  datatype Lock = Lock(key: Pubkey, exclusive: bool)

  function Insert(x: Lock, xs: seq<Lock>): seq<Lock> {
    if xs == [] || x.key <= xs[0].key then [x] + xs else [xs[0]] + Insert(x, xs[1..])
  }

  /** Stable sort by key. */
  function StableSort(xs: seq<Lock>): seq<Lock> {
    if xs == [] then [] else Insert(xs[0], StableSort(xs[1..]))
  }

  /** Keep the first of equal neighbours. */
  function Dedup(xs: seq<Lock>): (ys: seq<Lock>)
    ensures xs != [] ==> ys != [] && ys[0] == xs[0]
  {
    if |xs| <= 1 then xs
    else
      var ys := Dedup(xs[1..]);
      if xs[0].key == xs[1].key then [xs[0]] + ys[1..] else [xs[0]] + ys
  }

  function Tagged(keys: seq<Pubkey>, exclusive: bool): (xs: seq<Lock>)
    ensures |xs| == |keys| && forall i :: 0 <= i < |keys| ==> xs[i] == Lock(keys[i], exclusive)
  {
    seq(|keys|, i requires 0 <= i < |keys| => Lock(keys[i], exclusive))
  }

  function Combined(tx: Transaction): seq<Lock> {
    Tagged(WriteAccounts(tx), true) + [Lock(tx.signer, true)] + Tagged(ReadAccounts(tx), false)
  }

  /** The locks of a transaction in the order in which they are taken. */
  function LockList(tx: Transaction): seq<Lock> {
    Dedup(StableSort(Combined(tx)))
  }

  ghost predicate Sorted(xs: seq<Lock>) {
    forall i, j :: 0 <= i < j < |xs| ==> xs[i].key <= xs[j].key
  }

  ghost predicate StrictlyAscending(xs: seq<Lock>) {
    forall i, j :: 0 <= i < j < |xs| ==> xs[i].key < xs[j].key
  }

  /** All exclusive entries of a key come before its shared ones. */
  ghost predicate ExclusiveFirst(xs: seq<Lock>) {
    forall i, j :: 0 <= i < j < |xs| && xs[i].key == xs[j].key && xs[j].exclusive ==> xs[i].exclusive
  }

  lemma {:induction false} InsertMembers(x: Lock, xs: seq<Lock>, y: Lock)
    ensures y in Insert(x, xs) <==> y == x || y in xs
  {
    if xs != [] && x.key > xs[0].key {
      InsertMembers(x, xs[1..], y);
    }
  }

  lemma {:induction false} InsertSorted(x: Lock, xs: seq<Lock>)
    requires Sorted(xs)
    ensures Sorted(Insert(x, xs))
  {
    if xs != [] && x.key > xs[0].key {
      var rest := Insert(x, xs[1..]);
      InsertSorted(x, xs[1..]);
      forall j | 0 <= j < |rest| ensures xs[0].key <= rest[j].key {
        InsertMembers(x, xs[1..], rest[j]);
      }
    }
  }

  lemma {:induction false} InsertExclusiveFirst(x: Lock, xs: seq<Lock>)
    requires Sorted(xs) && ExclusiveFirst(xs)
    requires x.exclusive || forall y :: y in xs && y.key == x.key ==> !y.exclusive
    ensures ExclusiveFirst(Insert(x, xs))
  {
    if xs != [] && x.key > xs[0].key {
      var rest := Insert(x, xs[1..]);
      InsertExclusiveFirst(x, xs[1..]);
      forall j | 0 <= j < |rest| && xs[0].key == rest[j].key && rest[j].exclusive ensures xs[0].exclusive {
        InsertMembers(x, xs[1..], rest[j]);
      }
    }
  }

  lemma {:induction false} SortProperties(xs: seq<Lock>)
    requires ExclusiveFirst(xs)
    ensures Sorted(StableSort(xs)) && ExclusiveFirst(StableSort(xs))
    ensures forall y :: y in StableSort(xs) <==> y in xs
  {
    if xs != [] {
      var rest := StableSort(xs[1..]);
      SortProperties(xs[1..]);
      InsertSorted(xs[0], rest);
      forall y | y in rest && y.key == xs[0].key ensures y.exclusive ==> xs[0].exclusive {
        assert y in xs[1..];
      }
      InsertExclusiveFirst(xs[0], rest);
      forall y ensures y in StableSort(xs) <==> y in xs {
        InsertMembers(xs[0], rest, y);
        assert xs == [xs[0]] + xs[1..];
      }
    }
  }

  /** Some entry of ys locks y's key at least as strongly as y does. */
  ghost predicate Covered(y: Lock, ys: seq<Lock>) {
    exists z :: z in ys && z.key == y.key && (y.exclusive ==> z.exclusive)
  }

  lemma ConsAscending(x: Lock, ys: seq<Lock>)
    requires StrictlyAscending(ys) && (ys != [] ==> x.key < ys[0].key)
    ensures StrictlyAscending([x] + ys)
  {
  }

  lemma {:induction false} DedupMembers(xs: seq<Lock>, y: Lock)
    requires y in Dedup(xs)
    ensures y in xs
  {
    if |xs| > 1 {
      var ys := Dedup(xs[1..]);
      assert xs == [xs[0]] + xs[1..];
      assert ys == [ys[0]] + ys[1..];
      if y != xs[0] { DedupMembers(xs[1..], y); }
    }
  }

  lemma {:induction false} DedupAscending(xs: seq<Lock>)
    requires Sorted(xs)
    ensures StrictlyAscending(Dedup(xs))
  {
    if |xs| > 1 {
      DedupAscending(xs[1..]);
      var ys := Dedup(xs[1..]);
      assert ys[0].key == xs[1].key;
      if xs[0].key == xs[1].key {
        ConsAscending(xs[0], ys[1..]);
      } else {
        assert xs[0].key < xs[1].key;
        ConsAscending(xs[0], ys);
      }
      hide StrictlyAscending;
    }
  }

  lemma CoveredTail(y: Lock, ys: seq<Lock>, zs: seq<Lock>)
    requires Covered(y, ys) && ys != [] && y.key != ys[0].key && forall z :: z in ys[1..] ==> z in zs
    ensures Covered(y, zs)
  {
    var z :| z in ys && z.key == y.key && (y.exclusive ==> z.exclusive);
    assert ys == [ys[0]] + ys[1..];
  }

  /** Deduplication of a sorted list keeps the strongest entry of every key. */
  lemma {:induction false} DedupCovers(xs: seq<Lock>, y: Lock)
    requires Sorted(xs) && ExclusiveFirst(xs) && y in xs
    ensures Covered(y, Dedup(xs))
  {
    if |xs| > 1 {
      var ys, zs := Dedup(xs[1..]), Dedup(xs);
      if y.key == xs[0].key {
        var j :| 0 <= j < |xs| && xs[j] == y;
        assert zs[0] == xs[0] && (y.exclusive ==> xs[0].exclusive);
        assert xs[0] in zs;
      } else {
        assert xs == [xs[0]] + xs[1..];
        DedupCovers(xs[1..], y);
        hide Covered;
        hide Sorted;
        hide ExclusiveFirst;
        if xs[0].key == xs[1].key {
          CoveredTail(y, ys, zs);
        } else {
          CoveredMore(y, ys, xs[0]);
        }
      }
    }
  }

  lemma CoveredMore(y: Lock, ys: seq<Lock>, x: Lock)
    requires Covered(y, ys)
    ensures Covered(y, [x] + ys)
  {
    var z :| z in ys && z.key == y.key && (y.exclusive ==> z.exclusive);
    assert z in [x] + ys;
  }

  predicate Exclusive(tx: Transaction, k: Pubkey) {
    k == tx.signer || k in WriteAccounts(tx)
  }

  predicate Touches(tx: Transaction, k: Pubkey) {
    Exclusive(tx, k) || k in ReadAccounts(tx)
  }

  lemma CombinedEntries(tx: Transaction)
    ensures ExclusiveFirst(Combined(tx))
    ensures forall y :: y in Combined(tx) ==> Touches(tx, y.key) && (y.exclusive ==> Exclusive(tx, y.key))
    ensures forall k :: Exclusive(tx, k) ==> Lock(k, true) in Combined(tx)
    ensures forall k :: k in ReadAccounts(tx) ==> Lock(k, false) in Combined(tx)
  {
    var ws, rs := Tagged(WriteAccounts(tx), true), Tagged(ReadAccounts(tx), false);
    var xs := Combined(tx);
    assert xs == ws + [Lock(tx.signer, true)] + rs;
    forall k | k in WriteAccounts(tx) ensures Lock(k, true) in xs {
      var i :| 0 <= i < |WriteAccounts(tx)| && WriteAccounts(tx)[i] == k;
      assert xs[i] == Lock(k, true);
    }
    assert xs[|ws|] == Lock(tx.signer, true);
    forall k | k in ReadAccounts(tx) ensures Lock(k, false) in xs {
      var i :| 0 <= i < |ReadAccounts(tx)| && ReadAccounts(tx)[i] == k;
      assert xs[|ws| + 1 + i] == Lock(k, false);
    }
  }

  /** The lock list is strictly ascending, holds exactly the touched keys, and takes a key
  exclusively exactly when the transaction writes it or pays its fee from it. */
  lemma LockListExact(tx: Transaction)
    ensures StrictlyAscending(LockList(tx))
    ensures forall y :: y in LockList(tx) ==> Touches(tx, y.key) && (y.exclusive <==> Exclusive(tx, y.key))
    ensures forall k :: Touches(tx, k) ==> Lock(k, Exclusive(tx, k)) in LockList(tx)
  {
    hide LockList;
    LockListAscending(tx);
    forall y | y in LockList(tx) ensures Touches(tx, y.key) && (y.exclusive <==> Exclusive(tx, y.key)) {
      LockListEntry(tx, y);
    }
    forall k | Touches(tx, k) ensures Lock(k, Exclusive(tx, k)) in LockList(tx) {
      LockListCovers(tx, k);
    }
  }

  lemma LockListAscending(tx: Transaction)
    ensures StrictlyAscending(LockList(tx))
    ensures forall y :: y in LockList(tx) ==> y in Combined(tx)
  {
    CombinedEntries(tx);
    hide Combined;
    hide Dedup;
    hide StableSort;
    var sorted := StableSort(Combined(tx));
    SortProperties(Combined(tx));
    DedupAscending(sorted);
    forall y | y in LockList(tx) ensures y in Combined(tx) { DedupMembers(sorted, y); }
  }

  lemma LockListCovered(tx: Transaction, y: Lock)
    requires y in Combined(tx)
    ensures Covered(y, LockList(tx))
  {
    CombinedEntries(tx);
    SortProperties(Combined(tx));
    DedupCovers(StableSort(Combined(tx)), y);
  }

  lemma LockListEntry(tx: Transaction, y: Lock)
    requires y in LockList(tx)
    ensures Touches(tx, y.key) && (y.exclusive <==> Exclusive(tx, y.key))
  {
    hide LockList;
    hide Combined;
    LockListAscending(tx);
    CombinedEntries(tx);
    if Exclusive(tx, y.key) {
      LockListCovered(tx, Lock(y.key, true));
      var z :| z in LockList(tx) && z.key == y.key && z.exclusive;
      assert z == y;
    }
  }

  lemma LockListCovers(tx: Transaction, k: Pubkey)
    requires Touches(tx, k)
    ensures Lock(k, Exclusive(tx, k)) in LockList(tx)
  {
    hide LockList;
    hide Combined;
    CombinedEntries(tx);
    var y := Lock(k, Exclusive(tx, k));
    LockListCovered(tx, y);
    var z :| z in LockList(tx) && z.key == k && (y.exclusive ==> z.exclusive);
    LockListEntry(tx, z);
    assert z == y;
  }

  /** Sort and deduplicate a list of keys. */
  function SortedKeys(keys: seq<Pubkey>): seq<Pubkey> {
    var xs := Dedup(StableSort(Tagged(keys, true)));
    seq(|xs|, i requires 0 <= i < |xs| => xs[i].key)
  }

  lemma SortedKeysAscending(keys: seq<Pubkey>)
    ensures forall i, j :: 0 <= i < j < |SortedKeys(keys)| ==> SortedKeys(keys)[i] < SortedKeys(keys)[j]
    ensures forall k :: k in SortedKeys(keys) ==> k in keys
  {
    var xs := Tagged(keys, true);
    SortProperties(xs);
    DedupAscending(StableSort(xs));
    var ys, ms := Dedup(StableSort(xs)), SortedKeys(keys);
    forall k | k in ms ensures k in keys {
      var i :| 0 <= i < |ms| && ms[i] == k;
      DedupMembers(StableSort(xs), ys[i]);
    }
  }

  lemma SortedKeysCover(keys: seq<Pubkey>, k: Pubkey)
    requires k in keys
    ensures k in SortedKeys(keys)
  {
    var xs := Tagged(keys, true);
    SortProperties(xs);
    var i :| 0 <= i < |keys| && keys[i] == k;
    assert xs[i] in xs;
    DedupCovers(StableSort(xs), xs[i]);
    var ys := Dedup(StableSort(xs));
    var z :| z in ys && z.key == k;
    var j :| 0 <= j < |ys| && ys[j] == z;
    assert SortedKeys(keys)[j] == k;
  }

  /** Accounts a transaction may mutate, ascending. */
  function MutableAccounts(tx: Transaction): seq<Pubkey> {
    SortedKeys([tx.signer] + WriteAccounts(tx))
  }

  lemma MutableExact(tx: Transaction)
    ensures forall k :: k in MutableAccounts(tx) <==> Exclusive(tx, k)
    ensures forall i, j :: 0 <= i < j < |MutableAccounts(tx)| ==> MutableAccounts(tx)[i] < MutableAccounts(tx)[j]
  {
    hide SortedKeys;
    hide WriteAccounts;
    var keys := [tx.signer] + WriteAccounts(tx);
    SortedKeysAscending(keys);
    forall k | k in keys ensures k in SortedKeys(keys) {
      SortedKeysCover(keys, k);
    }
  }
}
