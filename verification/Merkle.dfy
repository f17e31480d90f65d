/** The Merkle root of a list of hashes, its inclusion proofs, and their checks.

A hash is the number its 32 bytes spell most significant byte first, so that numeric order is byte
order; the hash of a pair is any function `pair`. No such function is free of collisions, so laws that
need it say which pairs must not collide: the ones hashed in the trees and proofs at hand. */
module Merkle {
  const HASH_LIMIT: nat := 0x1_0000_0000_0000_0000_0000_0000_0000_0000_0000_0000_0000_0000_0000_0000_0000_0000

  type Hash = h: int | 0 <= h < HASH_LIMIT
  type Pairing = (Hash, Hash) -> Hash

  const EMPTY_ROOT: Hash := 0

  datatype Proof = Proof(leaf: Hash, siblings: seq<(Hash, bool)>, index: nat)

  // ---------- roots ----------

  /** Node i of the level above: a hashed pair, or an odd last element promoted as it is. */
  function Above(pair: Pairing, level: seq<Hash>, i: nat): Hash
    requires 2 * i < |level|
  {
    if 2 * i + 1 < |level| then pair(level[2 * i], level[2 * i + 1]) else level[2 * i]
  }

  function NextLevel(pair: Pairing, level: seq<Hash>): (next: seq<Hash>)
    ensures |next| == (|level| + 1) / 2
    ensures forall i :: 0 <= i < |next| ==> next[i] == Above(pair, level, i)
  {
    seq((|level| + 1) / 2, i requires 0 <= i < (|level| + 1) / 2 => Above(pair, level, i))
  }

  function Top(pair: Pairing, level: seq<Hash>): Hash
    requires level != []
    decreases |level|
  {
    if |level| == 1 then level[0] else Top(pair, NextLevel(pair, level))
  }

  function Root(pair: Pairing, hashes: seq<Hash>): Hash {
    if hashes == [] then EMPTY_ROOT else Top(pair, hashes)
  }

  // ---------- proofs ----------

  /** The sibling that a node is hashed with on the way up, and whether it stands to the left; a
  promoted node has none. */
  function Sibling(level: seq<Hash>, i: nat): seq<(Hash, bool)>
    requires i < |level|
  {
    if i % 2 == 1 then [(level[i - 1], true)] else if i + 1 < |level| then [(level[i + 1], false)] else []
  }

  function Path(pair: Pairing, level: seq<Hash>, i: nat): seq<(Hash, bool)>
    requires i < |level|
    decreases |level|
  {
    if |level| == 1 then [] else Sibling(level, i) + Path(pair, NextLevel(pair, level), i / 2)
  }

  function Join(pair: Pairing, h: Hash, sibling: (Hash, bool)): Hash {
    if sibling.1 then pair(sibling.0, h) else pair(h, sibling.0)
  }

  function Climb(pair: Pairing, h: Hash, siblings: seq<(Hash, bool)>): Hash
    decreases |siblings|
  {
    if siblings == [] then h else Climb(pair, Join(pair, h, siblings[0]), siblings[1..])
  }

  lemma {:induction false} ClimbConcat(pair: Pairing, h: Hash, a: seq<(Hash, bool)>, b: seq<(Hash, bool)>)
    ensures Climb(pair, h, a + b) == Climb(pair, Climb(pair, h, a), b)
    decreases |a|
  {
    if a == [] {
      assert a + b == b;
    } else {
      assert (a + b)[1..] == a[1..] + b;
      ClimbConcat(pair, Join(pair, h, a[0]), a[1..], b);
    }
  }

  lemma SiblingJoins(pair: Pairing, level: seq<Hash>, i: nat)
    requires i < |level|
    ensures Climb(pair, level[i], Sibling(level, i)) == Above(pair, level, i / 2)
  {
    if Sibling(level, i) != [] {
      assert Sibling(level, i)[1..] == [];
    }
  }

  /** The proof made for any leaf of any list, odd promotions included, leads to the root. */
  lemma {:induction false} PathReachesTop(pair: Pairing, level: seq<Hash>, i: nat)
    requires i < |level|
    ensures Climb(pair, level[i], Path(pair, level, i)) == Top(pair, level)
    decreases |level|
  {
    if |level| > 1 {
      var next := NextLevel(pair, level);
      SiblingJoins(pair, level, i);
      ClimbConcat(pair, level[i], Sibling(level, i), Path(pair, next, i / 2));
      PathReachesTop(pair, next, i / 2);
    }
  }

  // ---------- the tree by halves ----------

  predicate PowerOfTwo(p: nat) {
    p == 1 || (p > 1 && p % 2 == 0 && PowerOfTwo(p / 2))
  }

  /** Levels of an even cut go up separately. */
  lemma NextLevelCut(pair: Pairing, level: seq<Hash>, p: nat)
    requires p % 2 == 0 && p <= |level|
    ensures NextLevel(pair, level) == NextLevel(pair, level[..p]) + NextLevel(pair, level[p..])
  {
  }

  lemma NextLevelTop(pair: Pairing, level: seq<Hash>)
    requires level != []
    ensures NextLevel(pair, level) != [] && Top(pair, NextLevel(pair, level)) == Top(pair, level)
  {
    if |level| == 1 {
      assert NextLevel(pair, level) == level;
    }
  }

  /** The level-by-level root is the Merkle tree hash of section 2.1 of RFC 6962 without its leaf and node
  prefixes: cut at the largest power of two below the length and hash the roots of the two parts. */
  lemma {:induction false} TopByHalves(pair: Pairing, level: seq<Hash>, p: nat)
    requires PowerOfTwo(p) && p < |level| <= 2 * p
    ensures Top(pair, level) == pair(Top(pair, level[..p]), Top(pair, level[p..]))
    decreases p
  {
    NextLevelTop(pair, level);
    if p == 1 {
      assert NextLevel(pair, level) == [pair(level[0], level[1])];
    } else {
      var low, high := level[..p], level[p..];
      var next := NextLevel(pair, level);
      NextLevelCut(pair, level, p);
      assert next[..p / 2] == NextLevel(pair, low) && next[p / 2..] == NextLevel(pair, high);
      TopByHalves(pair, next, p / 2);
      NextLevelTop(pair, low);
      NextLevelTop(pair, high);
    }
  }

  lemma PathUp(pair: Pairing, level: seq<Hash>, i: nat)
    requires i < |level|
    ensures |NextLevel(pair, level)| > i / 2
    ensures Path(pair, level, i) == Sibling(level, i) + Path(pair, NextLevel(pair, level), i / 2)
  {
    if |level| == 1 {
      assert NextLevel(pair, level) == level;
    }
  }

  lemma OneNode(pair: Pairing, level: seq<Hash>)
    requires |level| == 1
    ensures Path(pair, level, 0) == [] && Top(pair, level) == level[0]
  {
  }

  /** A proof is the audit path of that tree: the proof in its half, then the root of the other half. */
  lemma {:induction false} PathByHalves(pair: Pairing, level: seq<Hash>, p: nat, i: nat)
    requires PowerOfTwo(p) && p < |level| <= 2 * p && i < |level|
    ensures Path(pair, level, i) ==
      if i < p then Path(pair, level[..p], i) + [(Top(pair, level[p..]), false)]
      else Path(pair, level[p..], i - p) + [(Top(pair, level[..p]), true)]
    decreases p
  {
    hide Path;
    hide Top;
    var low, high, next := level[..p], level[p..], NextLevel(pair, level);
    PathUp(pair, level, i);
    if p == 1 {
      OneNode(pair, low);
      OneNode(pair, high);
      OneNode(pair, next);
    } else {
      NextLevelCut(pair, level, p);
      var low', high' := NextLevel(pair, low), NextLevel(pair, high);
      assert next[..p / 2] == low' && next[p / 2..] == high';
      PathByHalves(pair, next, p / 2, i / 2);
      NextLevelTop(pair, low);
      NextLevelTop(pair, high);
      hide NextLevel;
      if i < p {
        PathUp(pair, low, i);
        assert Sibling(level, i) == Sibling(low, i);
        assert Sibling(low, i) + (Path(pair, low', i / 2) + [(Top(pair, high), false)]) ==
               Path(pair, low, i) + [(Top(pair, high), false)];
      } else {
        PathUp(pair, high, i - p);
        assert Sibling(level, i) == Sibling(high, i - p);
        assert i / 2 - p / 2 == (i - p) / 2;
        assert Sibling(high, i - p) + (Path(pair, high', (i - p) / 2) + [(Top(pair, low), true)]) ==
               Path(pair, high, i - p) + [(Top(pair, low), true)];
      }
    }
  }

  // ---------- when the pairs at hand do not collide ----------

  /** The pairs hashed on the way from a level to the top. */
  function LevelPairs(level: seq<Hash>): set<(Hash, Hash)> {
    set i | 0 <= i < |level| && 2 * i + 1 < |level| :: (level[2 * i], level[2 * i + 1])
  }

  function TreePairs(pair: Pairing, level: seq<Hash>): set<(Hash, Hash)>
    decreases |level|
  {
    if |level| <= 1 then {} else LevelPairs(level) + TreePairs(pair, NextLevel(pair, level))
  }

  /** The pairs hashed when a proof is checked. */
  function Ordered(h: Hash, sibling: (Hash, bool)): (Hash, Hash) {
    if sibling.1 then (sibling.0, h) else (h, sibling.0)
  }

  function ClimbPairs(pair: Pairing, h: Hash, siblings: seq<(Hash, bool)>): set<(Hash, Hash)>
    decreases |siblings|
  {
    if siblings == [] then {}
    else {Ordered(h, siblings[0])} + ClimbPairs(pair, Join(pair, h, siblings[0]), siblings[1..])
  }

  predicate NoCollision(pair: Pairing, ps: set<(Hash, Hash)>, qs: set<(Hash, Hash)>) {
    forall p, q :: p in ps && q in qs && pair(p.0, p.1) == pair(q.0, q.1) ==> p == q
  }

  lemma NextLevelInjective(pair: Pairing, a: seq<Hash>, b: seq<Hash>)
    requires NoCollision(pair, LevelPairs(a), LevelPairs(b))
    requires |a| == |b| && NextLevel(pair, a) == NextLevel(pair, b)
    ensures a == b
  {
    forall i | 0 <= i < |a| ensures a[i] == b[i] {
      var j := i / 2;
      assert NextLevel(pair, a)[j] == NextLevel(pair, b)[j];
      assert Above(pair, a, j) == Above(pair, b, j);
      if 2 * j + 1 < |a| {
        assert (a[2 * j], a[2 * j + 1]) in LevelPairs(a) && (b[2 * j], b[2 * j + 1]) in LevelPairs(b);
      }
    }
  }

  /** Lists of one length with the same root are the same list, unless two pairs hashed for them collide. */
  lemma {:induction false} TopInjective(pair: Pairing, a: seq<Hash>, b: seq<Hash>)
    requires NoCollision(pair, TreePairs(pair, a), TreePairs(pair, b))
    requires |a| == |b| > 0 && Top(pair, a) == Top(pair, b)
    ensures a == b
    decreases |a|
  {
    if |a| > 1 {
      TopInjective(pair, NextLevel(pair, a), NextLevel(pair, b));
      NextLevelInjective(pair, a, b);
    }
  }

  function Sides(siblings: seq<(Hash, bool)>): (s: seq<bool>)
    ensures |s| == |siblings| && forall i :: 0 <= i < |s| ==> s[i] == siblings[i].1
  {
    seq(|siblings|, i requires 0 <= i < |siblings| => siblings[i].1)
  }

  lemma {:induction false} ClimbInjective(pair: Pairing, g: Hash, a: seq<(Hash, bool)>, h: Hash, b: seq<(Hash, bool)>)
    requires NoCollision(pair, ClimbPairs(pair, g, a), ClimbPairs(pair, h, b))
    requires Sides(a) == Sides(b) && Climb(pair, g, a) == Climb(pair, h, b)
    ensures g == h && a == b
    decreases |a|
  {
    assert |Sides(a)| == |Sides(b)|;
    if a != [] {
      assert Sides(a[1..]) == Sides(a)[1..] && Sides(b[1..]) == Sides(b)[1..];
      ClimbInjective(pair, Join(pair, g, a[0]), a[1..], Join(pair, h, b[0]), b[1..]);
      assert Sides(a)[0] == Sides(b)[0];
      assert Ordered(g, a[0]) in ClimbPairs(pair, g, a) && Ordered(h, b[0]) in ClimbPairs(pair, h, b);
      assert a == [a[0]] + a[1..] && b == [b[0]] + b[1..];
    }
  }

  /** The sides a proof for index i turns to depend on the list only through its length. */
  lemma {:induction false} SidesFromShape(pair: Pairing, a: seq<Hash>, b: seq<Hash>, i: nat)
    requires i < |a| == |b|
    ensures Sides(Path(pair, a, i)) == Sides(Path(pair, b, i))
    decreases |a|
  {
    if |a| > 1 {
      var a', b' := NextLevel(pair, a), NextLevel(pair, b);
      SidesFromShape(pair, a', b', i / 2);
      assert Sides(Sibling(a, i)) == Sides(Sibling(b, i));
      SidesConcat(Sibling(a, i), Path(pair, a', i / 2));
      SidesConcat(Sibling(b, i), Path(pair, b', i / 2));
    }
  }

  lemma SidesConcat(a: seq<(Hash, bool)>, b: seq<(Hash, bool)>)
    ensures Sides(a + b) == Sides(a) + Sides(b)
  {
  }

  /** A proof shaped like the one for index i is accepted if and only if it carries that leaf and
  exactly the siblings of the honest proof, unless a pair of one collides with a pair of the other; so
  an altered leaf is rejected. */
  lemma ForgedProofRejected(pair: Pairing, hashes: seq<Hash>, i: nat, p: Proof)
    requires i < |hashes| && Sides(p.siblings) == Sides(Path(pair, hashes, i))
    requires NoCollision(pair, ClimbPairs(pair, p.leaf, p.siblings),
                         ClimbPairs(pair, hashes[i], Path(pair, hashes, i)))
    ensures Climb(pair, p.leaf, p.siblings) == Root(pair, hashes) <==>
            p.leaf == hashes[i] && p.siblings == Path(pair, hashes, i)
  {
    PathReachesTop(pair, hashes, i);
    if Climb(pair, p.leaf, p.siblings) == Root(pair, hashes) {
      ClimbInjective(pair, p.leaf, p.siblings, hashes[i], Path(pair, hashes, i));
    }
  }

  // ---------- proofs of any shape ----------

  /** The level l steps above the given one. */
  function LevelAt(pair: Pairing, level: seq<Hash>, l: nat): (up: seq<Hash>)
    ensures level != [] ==> up != []
    decreases l
  {
    if l == 0 then level else LevelAt(pair, NextLevel(pair, level), l - 1)
  }

  /** The proof ends in the honest path of node i of level l. It begins at that node, or, when the node is
  a leaf of the list, at something that climbs to that leaf. */
  ghost predicate EndsInPath(pair: Pairing, level: seq<Hash>, leaf: Hash, siblings: seq<(Hash, bool)>, l: nat, i: nat,
                             below: seq<(Hash, bool)>) {
    && i < |LevelAt(pair, level, l)|
    && siblings == below + Path(pair, LevelAt(pair, level, l), i)
    && Climb(pair, leaf, below) == LevelAt(pair, level, l)[i]
    && (below == [] || l == 0)
  }

  lemma {:induction false} LevelTop(pair: Pairing, level: seq<Hash>, l: nat)
    requires level != []
    ensures Top(pair, LevelAt(pair, level, l)) == Top(pair, level)
    decreases l
  {
    if l > 0 {
      LevelTop(pair, NextLevel(pair, level), l - 1);
      if |level| == 1 { assert NextLevel(pair, level) == level; }
    }
  }

  lemma EndsInPathAccepted(pair: Pairing, level: seq<Hash>, leaf: Hash, siblings: seq<(Hash, bool)>, l: nat, i: nat,
                           below: seq<(Hash, bool)>)
    requires EndsInPath(pair, level, leaf, siblings, l, i, below)
    ensures level != [] && Climb(pair, leaf, siblings) == Top(pair, level)
  {
    var up := LevelAt(pair, level, l);
    EmptyLevels(pair, level, l);
    ClimbConcat(pair, leaf, below, Path(pair, up, i));
    PathReachesTop(pair, up, i);
    LevelTop(pair, level, l);
  }

  lemma {:induction false} EmptyLevels(pair: Pairing, level: seq<Hash>, l: nat)
    ensures level == [] ==> LevelAt(pair, level, l) == []
    decreases l
  {
    if l > 0 {
      EmptyLevels(pair, NextLevel(pair, level), l - 1);
    }
  }

  /** Each join of a climb is among its pairs. */
  lemma {:induction false} JoinInPairs(pair: Pairing, h: Hash, a: seq<(Hash, bool)>, s: (Hash, bool), rest: seq<(Hash, bool)>)
    ensures Ordered(Climb(pair, h, a), s) in ClimbPairs(pair, h, a + [s] + rest)
    decreases |a|
  {
    var all := a + [s] + rest;
    if a != [] {
      assert all[1..] == a[1..] + [s] + rest;
      JoinInPairs(pair, Join(pair, h, a[0]), a[1..], s, rest);
    }
  }

  lemma ClimbLast(pair: Pairing, h: Hash, a: seq<(Hash, bool)>, s: (Hash, bool))
    ensures Climb(pair, h, a + [s]) == Join(pair, Climb(pair, h, a), s)
  {
    ClimbConcat(pair, h, a, [s]);
    assert [s][1..] == [];
  }

  /** A climb that arrives at node j of the next level came through one of its children. */
  lemma ThroughChild(pair: Pairing, level: seq<Hash>, leaf: Hash, below: seq<(Hash, bool)>, j: nat,
                     rest: seq<(Hash, bool)>) returns (i: nat, shorter: seq<(Hash, bool)>)
    requires 2 * j < |level| && below != [] && Climb(pair, leaf, below) == Above(pair, level, j)
    requires NoCollision(pair, ClimbPairs(pair, leaf, below + rest), LevelPairs(level))
    ensures i < |level| && i / 2 == j && below == shorter + Sibling(level, i) && Climb(pair, leaf, shorter) == level[i]
  {
    hide ClimbPairs;
    var n := |below| - 1;
    var s := below[n];
    assert below == below[..n] + [s];
    ClimbLast(pair, leaf, below[..n], s);
    JoinInPairs(pair, leaf, below[..n], s, rest);
    if 2 * j + 1 < |level| {
      assert (level[2 * j], level[2 * j + 1]) in LevelPairs(level);
      assert Ordered(Climb(pair, leaf, below[..n]), s) == (level[2 * j], level[2 * j + 1]);
      i, shorter := if s.1 then 2 * j + 1 else 2 * j, below[..n];
      assert Sibling(level, i) == [s];
    } else {
      i, shorter := 2 * j, below;
      assert Sibling(level, i) == [];
      assert below == below + [];
    }
  }

  lemma {:induction false} AcceptedEndsInPath(pair: Pairing, level: seq<Hash>, leaf: Hash, siblings: seq<(Hash, bool)>)
    returns (l: nat, i: nat, below: seq<(Hash, bool)>)
    requires level != [] && Climb(pair, leaf, siblings) == Top(pair, level)
    requires NoCollision(pair, ClimbPairs(pair, leaf, siblings), TreePairs(pair, level))
    ensures EndsInPath(pair, level, leaf, siblings, l, i, below)
    decreases |level|
  {
    if |level| == 1 {
      l, i, below := 0, 0, siblings;
      assert siblings == below + [];
    } else {
      var next := NextLevel(pair, level);
      var l', j, below' := AcceptedEndsInPath(pair, next, leaf, siblings);
      if below' == [] {
        l, i, below := l' + 1, j, [];
      } else {
        l := 0;
        i, below := ThroughChild(pair, level, leaf, below', j, Path(pair, next, j));
        PathStep(pair, below, level, i);
      }
    }
  }

  /** Exactly which proofs are accepted, of whatever shape, unless a pair of the proof collides with one
  of the tree: those that end in the honest path of some node, starting at that node or below a leaf.
  Neither the index nor the length of a proof is checked, so interior nodes pass. */
  lemma AcceptedExactly(pair: Pairing, hashes: seq<Hash>, p: Proof)
    requires hashes != []
    requires NoCollision(pair, ClimbPairs(pair, p.leaf, p.siblings), TreePairs(pair, hashes))
    ensures Climb(pair, p.leaf, p.siblings) == Root(pair, hashes) <==>
            exists l: nat, i: nat, below :: EndsInPath(pair, hashes, p.leaf, p.siblings, l, i, below)
  {
    if Climb(pair, p.leaf, p.siblings) == Root(pair, hashes) {
      var l, i, below := AcceptedEndsInPath(pair, hashes, p.leaf, p.siblings);
    }
    if l: nat, i: nat, below :| EndsInPath(pair, hashes, p.leaf, p.siblings, l, i, below) {
      EndsInPathAccepted(pair, hashes, p.leaf, p.siblings, l, i, below);
    }
  }

  /** An interior node of four leaves is accepted in place of a leaf, and a list shares its root with the
  shorter list of its pair hashes. */
  lemma InteriorNodePasses(pair: Pairing, a: Hash, b: Hash, c: Hash, d: Hash)
    ensures Climb(pair, pair(a, b), [(pair(c, d), false)]) == Root(pair, [a, b, c, d])
    ensures Root(pair, [a, b, c, d]) == Root(pair, [pair(a, b), pair(c, d)])
  {
    var level := [a, b, c, d];
    var next := [pair(a, b), pair(c, d)];
    assert NextLevel(pair, level) == next;
    var top := [pair(pair(a, b), pair(c, d))];
    assert NextLevel(pair, next) == top;
    assert Top(pair, level) == Top(pair, next) == Top(pair, top);
    ClimbLast(pair, pair(a, b), [], (pair(c, d), false));
    assert [] + [(pair(c, d), false)] == [(pair(c, d), false)];
  }

  // ---------- the loops ----------

  /** Hash a level in chunks of two. */
  method HashLevel(pair: Pairing, level: seq<Hash>) returns (next: seq<Hash>)
    ensures next == NextLevel(pair, level)
  {
    next := [];
    var at := 0;
    while at < |level|
      invariant at == 2 * |next| && at <= |level| + 1
      invariant forall i :: 0 <= i < |next| ==> 2 * i < |level| && next[i] == Above(pair, level, i)
    {
      if at + 1 < |level| {
        next := next + [pair(level[at], level[at + 1])];
      } else {
        next := next + [level[at]];
      }
      at := at + 2;
    }
  }

  method Compute(pair: Pairing, hashes: seq<Hash>) returns (root: Hash)
    ensures root == Root(pair, hashes)
    ensures hashes == [] ==> root == 0
    ensures |hashes| == 1 ==> root == hashes[0]
  {
    if hashes == [] { return EMPTY_ROOT; }
    if |hashes| == 1 { return hashes[0]; }
    var level := hashes;
    while |level| > 1
      invariant level != [] && Top(pair, level) == Root(pair, hashes)
    {
      level := HashLevel(pair, level);
    }
    root := level[0];
  }

  method Prove(pair: Pairing, hashes: seq<Hash>, index: nat) returns (proof: Proof)
    ensures proof == if index < |hashes| then Proof(hashes[index], Path(pair, hashes, index), index)
                     else Proof(EMPTY_ROOT, [], index)
    ensures index < |hashes| ==> Climb(pair, proof.leaf, proof.siblings) == Root(pair, hashes)
  {
    if hashes == [] || index >= |hashes| { return Proof(EMPTY_ROOT, [], index); }
    PathReachesTop(pair, hashes, index);
    var siblings: seq<(Hash, bool)> := [];
    var level, current: nat := hashes, index;
    assert siblings + Path(pair, level, current) == Path(pair, level, current);
    while |level| > 1
      invariant current < |level| && Path(pair, hashes, index) == siblings + Path(pair, level, current)
      decreases |level|
    {
      PathStep(pair, siblings, level, current);
      if current / 2 * 2 + 1 < |level| {
        siblings := siblings + [(level[if current % 2 == 0 then current + 1 else current - 1], current % 2 != 0)];
      } else {
        assert siblings + [] == siblings;
      }
      level := HashLevel(pair, level);
      current := current / 2;
    }
    assert siblings + [] == siblings;
    proof := Proof(hashes[index], siblings, index);
  }

  lemma PathStep(pair: Pairing, before: seq<(Hash, bool)>, level: seq<Hash>, i: nat)
    requires i < |level| && |level| > 1
    ensures before + Path(pair, level, i) == before + Sibling(level, i) + Path(pair, NextLevel(pair, level), i / 2)
  {
  }

  method Verify(pair: Pairing, proof: Proof, root: Hash) returns (ok: bool)
    ensures ok <==> Climb(pair, proof.leaf, proof.siblings) == root
  {
    var current := proof.leaf;
    ghost var all := proof.siblings;
    assert all[0..] == all;
    for i := 0 to |proof.siblings|
      invariant Climb(pair, proof.leaf, all) == Climb(pair, current, all[i..])
    {
      var (sibling, isLeft) := proof.siblings[i];
      assert all[i..][1..] == all[i + 1..];
      if isLeft {
        current := pair(sibling, current);
      } else {
        current := pair(current, sibling);
      }
    }
    ok := current == root;
  }
}
