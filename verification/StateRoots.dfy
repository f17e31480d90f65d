/** The state root: the Merkle root of the sorted account hashes. */
module StateRoots {
  import opened AccountLog
  import opened Merkle

  predicate Sorted(s: seq<Hash>) {
    forall i, j :: 0 <= i < j < |s| ==> s[i] <= s[j]
  }

  function Insert(x: Hash, s: seq<Hash>): (r: seq<Hash>)
    ensures multiset(r) == multiset(s) + multiset{x}
  {
    if s == [] || x <= s[0] then [x] + s
    else
      assert s == [s[0]] + s[1..];
      [s[0]] + Insert(x, s[1..])
  }

  lemma {:induction false} InsertSorted(x: Hash, s: seq<Hash>)
    requires Sorted(s)
    ensures Sorted(Insert(x, s))
  {
    if s != [] && x > s[0] {
      InsertSorted(x, s[1..]);
      var rest := Insert(x, s[1..]);
      forall i | 0 <= i < |rest| ensures s[0] <= rest[i] {
        assert rest[i] in multiset(rest);
        assert rest[i] == x || rest[i] in s[1..];
      }
    }
  }

  function Sort(s: seq<Hash>): (r: seq<Hash>)
    ensures multiset(r) == multiset(s)
  {
    if s == [] then []
    else
      assert s == [s[0]] + s[1..];
      Insert(s[0], Sort(s[1..]))
  }

  lemma {:induction false} SortSorted(s: seq<Hash>)
    ensures Sorted(Sort(s))
  {
    if s != [] {
      SortSorted(s[1..]);
      InsertSorted(s[0], Sort(s[1..]));
    }
  }

  lemma HeadIsLeast(a: seq<Hash>, b: seq<Hash>)
    requires Sorted(a) && Sorted(b) && multiset(a) == multiset(b) && a != [] && b != []
    ensures a[0] <= b[0]
  {
    assert b[0] in multiset(a);
  }

  lemma {:induction false} SortedUnique(a: seq<Hash>, b: seq<Hash>)
    requires Sorted(a) && Sorted(b) && multiset(a) == multiset(b)
    ensures a == b
  {
    assert |a| == |multiset(a)| == |multiset(b)| == |b|;
    if a != [] {
      HeadIsLeast(a, b);
      HeadIsLeast(b, a);
      assert a == [a[0]] + a[1..] && b == [b[0]] + b[1..];
      assert multiset(a[1..]) == multiset(a) - multiset{a[0]};
      assert multiset(b[1..]) == multiset(b) - multiset{b[0]};
      SortedUnique(a[1..], b[1..]);
    }
  }

  // ---------- the root of a map of accounts ----------

  ghost function HashBag(m: Store, hash: Account -> Hash): multiset<Hash> {
    if m == map[] then multiset{}
    else
      var k :| k in m;
      multiset{hash(m[k])} + HashBag(m - {k}, hash)
  }

  lemma NoHashes(m: Store, hash: Account -> Hash)
    ensures m.Keys == {} ==> HashBag(m, hash) == multiset{}
  {
    assert m.Keys == {} ==> m == map[];
  }

  lemma Swap(a: Hash, b: Hash, bag: multiset<Hash>)
    ensures multiset{a} + (multiset{b} + bag) == multiset{b} + (multiset{a} + bag)
  {
  }

  lemma HashBagUnfold(m: Store, hash: Account -> Hash) returns (j: Key)
    requires m != map[]
    ensures j in m && HashBag(m, hash) == multiset{hash(m[j])} + HashBag(m - {j}, hash)
  {
    j :| j in m && HashBag(m, hash) == multiset{hash(m[j])} + HashBag(m - {j}, hash);
  }

  lemma {:induction false} HashBagRemove(m: Store, hash: Account -> Hash, k: Key)
    requires k in m
    ensures HashBag(m, hash) == multiset{hash(m[k])} + HashBag(m - {k}, hash)
    decreases |m|
  {
    hide HashBag;
    var j := HashBagUnfold(m, hash);
    if j != k {
      HashBagRemove(m - {j}, hash, k);
      HashBagRemove(m - {k}, hash, j);
      var rest := m - {j} - {k};
      assert rest == m - {k} - {j};
      Swap(hash(m[j]), hash(m[k]), HashBag(rest, hash));
    }
  }

  lemma BagStep(m: Store, hash: Account -> Hash, left: set<Key>, key: Key)
    requires key in left && left <= m.Keys
    ensures HashBag(m - (left - {key}), hash) == HashBag(m - left, hash) + multiset{hash(m[key])}
  {
    hide HashBag;
    HashBagRemove(m - (left - {key}), hash, key);
    assert m - (left - {key}) - {key} == m - left;
  }

  ghost function Listing(bag: multiset<Hash>): (s: seq<Hash>)
    ensures multiset(s) == bag
    decreases |bag|
  {
    if bag == multiset{} then []
    else
      var x :| x in bag;
      [x] + Listing(bag - multiset{x})
  }

  /** The state root as a function of the map alone. */
  ghost function StateRoot(pair: Pairing, hash: Account -> Hash, m: Store): Hash {
    Root(pair, SortedHashes(m, hash))
  }

  /** Any listing of the account hashes, sorted, gives that root: neither the order of iteration nor the
  history of writes matters. */
  lemma RootFromAnyOrder(pair: Pairing, hash: Account -> Hash, m: Store, hashes: seq<Hash>)
    requires multiset(hashes) == HashBag(m, hash)
    ensures Root(pair, Sort(hashes)) == StateRoot(pair, hash, m)
  {
    var other := Listing(HashBag(m, hash));
    SortSorted(hashes);
    SortSorted(other);
    SortedUnique(Sort(hashes), Sort(other));
  }

  /** The state root is the Merkle root of the account hashes in ascending order. */
  lemma StateRootExactly(pair: Pairing, hash: Account -> Hash, m: Store, hashes: seq<Hash>)
    requires multiset(hashes) == HashBag(m, hash)
    requires forall i, j :: 0 <= i < j < |hashes| ==> hashes[i] <= hashes[j]
    ensures StateRoot(pair, hash, m) == Root(pair, hashes)
  {
    SortSorted(hashes);
    SortedUnique(Sort(hashes), hashes);
    RootFromAnyOrder(pair, hash, m, hashes);
  }

  lemma {:induction false} HashBagSize(m: Store, hash: Account -> Hash)
    ensures |HashBag(m, hash)| == |m|
    decreases |m|
  {
    if m != map[] {
      var k := HashBagUnfold(m, hash);
      HashBagSize(m - {k}, hash);
      assert (m - {k}).Keys == m.Keys - {k};
    }
  }

  ghost function SortedHashes(m: Store, hash: Account -> Hash): seq<Hash> {
    Sort(Listing(HashBag(m, hash)))
  }

  /** Stores of equally many accounts and equal root hold the same collection of account hashes, unless two
  pairs hashed for them collide. */
  lemma RootDeterminesHashes(pair: Pairing, hash: Account -> Hash, m: Store, n: Store)
    requires NoCollision(pair, TreePairs(pair, SortedHashes(m, hash)), TreePairs(pair, SortedHashes(n, hash)))
    requires |m| == |n| && StateRoot(pair, hash, m) == StateRoot(pair, hash, n)
    ensures HashBag(m, hash) == HashBag(n, hash)
  {
    HashBagSize(m, hash);
    HashBagSize(n, hash);
    var a, b := SortedHashes(m, hash), SortedHashes(n, hash);
    assert multiset(a) == HashBag(m, hash) && multiset(b) == HashBag(n, hash);
    assert |a| == |multiset(a)| && |b| == |multiset(b)|;
    if a != [] {
      TopInjective(pair, a, b);
    }
  }
}
