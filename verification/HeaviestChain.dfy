/** The vote tree over whole runs: parent links go down in slot, so the weight of a chain is well
defined, and a heaviest leaf exists. */
module HeaviestChain {
  import opened Bytes
  import opened Wrappers
  import opened Votes
  import opened TowerModel

  /** A vote as an honest block producer's chain allows it: a hash belongs to one slot and its parent to
  an earlier one. */
  ghost predicate Sound(v: Vote, slotOf: Hash -> U64) {
    v.slot == slotOf(v.blockHash) && (v.parentSlot.Some? ==> v.parentSlot.value < v.slot)
  }

  ghost predicate NodeDescends(nodes: map<Hash, Node>, h: Hash, slotOf: Hash -> U64)
    requires h in nodes
  {
    && nodes[h].slot == slotOf(h)
    && (nodes[h].parentHash.Some? ==> slotOf(nodes[h].parentHash.value) < slotOf(h))
    && (forall c :: c in nodes[h].children ==> c in nodes && slotOf(c) > slotOf(h))
  }

  ghost predicate Descending(nodes: map<Hash, Node>, slotOf: Hash -> U64) {
    forall h :: h in nodes ==> NodeDescends(nodes, h, slotOf)
  }

  ghost predicate SlotsMatch(slotToHash: map<U64, Hash>, slotOf: Hash -> U64) {
    forall slot :: slot in slotToHash ==> slotOf(slotToHash[slot]) == slot
  }

  ghost predicate TreeOk(s: TowerState, slotOf: Hash -> U64) {
    Descending(s.nodes, slotOf) && SlotsMatch(s.slotToHash, slotOf)
  }

  // ---------- what every run keeps ----------

  lemma CreditedDescends(s: TowerState, v: Vote, slotOf: Hash -> U64)
    requires TreeOk(s, slotOf) && Sound(v, slotOf)
    ensures Descending(s.nodes[v.blockHash := Credited(s.nodes, s.slotToHash, s.stakes, v)], slotOf)
  {
    var nodes := s.nodes[v.blockHash := Credited(s.nodes, s.slotToHash, s.stakes, v)];
    forall h | h in nodes ensures NodeDescends(nodes, h, slotOf) {
      if h in s.nodes { assert NodeDescends(s.nodes, h, slotOf); }
    }
  }

  lemma LinkedDescends(nodes: map<Hash, Node>, slotToHash: map<U64, Hash>, v: Vote, slotOf: Hash -> U64)
    requires Descending(nodes, slotOf) && SlotsMatch(slotToHash, slotOf) && Sound(v, slotOf) && v.blockHash in nodes
    ensures Descending(Linked(nodes, slotToHash, v), slotOf)
  {
    var linked := Linked(nodes, slotToHash, v);
    forall h | h in linked ensures NodeDescends(linked, h, slotOf) {
      assert NodeDescends(nodes, h, slotOf);
    }
  }

  lemma VoteKeepsTree(s: TowerState, v: Vote, slotOf: Hash -> U64)
    requires TreeOk(s, slotOf) && (Accepts(s, v) ==> Sound(v, slotOf))
    ensures TreeOk(AfterVote(s, v), slotOf)
  {
    if Accepts(s, v) {
      CreditedDescends(s, v, slotOf);
      var credited := s.nodes[v.blockHash := Credited(s.nodes, s.slotToHash, s.stakes, v)];
      LinkedDescends(credited, s.slotToHash[v.slot := v.blockHash], v, slotOf);
      hide Credited;
      hide Linked;
      hide Descending;
    }
  }

  lemma AdvanceKeepsTree(s: TowerState, root: U64, slotOf: Hash -> U64)
    requires TreeOk(s, slotOf)
    ensures TreeOk(AfterAdvance(s, root), slotOf)
  {
    var t := AfterAdvance(s, root);
    forall h | h in t.nodes ensures NodeDescends(t.nodes, h, slotOf) {
      assert NodeDescends(s.nodes, h, slotOf);
      forall c | c in t.nodes[h].children ensures c in t.nodes {
        assert NodeDescends(s.nodes, c, slotOf);
      }
    }
  }

  /** Every accepted vote is sound; forged and refused ones may say anything. */
  ghost predicate SoundEvents(states: seq<TowerState>, events: seq<Event>, slotOf: Hash -> U64)
    requires |states| == |events| + 1
  {
    forall i :: 0 <= i < |events| && events[i].Cast? && Accepts(states[i], events[i].vote) ==>
      Sound(events[i].vote, slotOf)
  }

  /** In every state of every run, across registrations, pruning and re-created nodes, each parent link
  leads to a strictly lower slot and each child link to a present node at a higher one. */
  lemma {:induction false} RunDescends(states: seq<TowerState>, events: seq<Event>, slotOf: Hash -> U64, n: nat)
    requires IsRun(states, events) && SoundEvents(states, events, slotOf) && n <= |events|
    requires TreeOk(states[0], slotOf)
    ensures TreeOk(states[n], slotOf)
  {
    if n > 0 {
      RunDescends(states, events, slotOf, n - 1);
      var s, e, s' := states[n - 1], events[n - 1], states[n];
      assert Next(s, e, s');
      match e {
        case Register(_, _) =>
        case Cast(v) => VoteKeepsTree(s, v, slotOf);
        case Advance(root) => AdvanceKeepsTree(s, root, slotOf);
      }
      assert s'.nodes == After(s, e).nodes && s'.slotToHash == After(s, e).slotToHash;
    }
  }

  // ---------- tips ----------

  /** A present parent lists the block; an absent one is below the root. */
  ghost predicate ParentOk(s: TowerState, c: Hash, slotOf: Hash -> U64)
    requires c in s.nodes && s.nodes[c].parentHash.Some?
  {
    var p := s.nodes[c].parentHash.value;
    if p in s.nodes then c in s.nodes[p].children else slotOf(p) < s.rootSlot
  }

  ghost predicate Rooted(s: TowerState, slotOf: Hash -> U64) {
    && (forall slot :: slot in s.slotToHash ==> s.slotToHash[slot] in s.nodes)
    && (forall c :: c in s.nodes && s.nodes[c].parentHash.Some? ==> ParentOk(s, c, slotOf))
  }

  /** The nodes before and after a vote: all kept, with the same parents and at least the same children. */
  ghost predicate Grows(nodes: map<Hash, Node>, more: map<Hash, Node>) {
    forall c :: c in nodes ==>
      c in more && more[c].parentHash == nodes[c].parentHash && nodes[c].children <= more[c].children
  }

  lemma CreditGrows(s: TowerState, v: Vote)
    ensures Grows(s.nodes, s.nodes[v.blockHash := Credited(s.nodes, s.slotToHash, s.stakes, v)])
  {
  }

  lemma LinkGrows(nodes: map<Hash, Node>, slotToHash: map<U64, Hash>, v: Vote)
    ensures Grows(nodes, Linked(nodes, slotToHash, v)) && Linked(nodes, slotToHash, v).Keys == nodes.Keys
    ensures v.parentSlot.Some? && v.parentSlot.value in slotToHash && slotToHash[v.parentSlot.value] in nodes ==>
              v.blockHash in Linked(nodes, slotToHash, v)[slotToHash[v.parentSlot.value]].children
  {
  }

  lemma GrowsTrans(a: map<Hash, Node>, b: map<Hash, Node>, c: map<Hash, Node>)
    requires Grows(a, b) && Grows(b, c)
    ensures Grows(a, c)
  {
  }

  lemma NewParent(s: TowerState, v: Vote)
    requires v.blockHash !in s.nodes
    ensures var parent := Credited(s.nodes, s.slotToHash, s.stakes, v).parentHash;
      parent.Some? ==> v.parentSlot.Some? && v.parentSlot.value in s.slotToHash && s.slotToHash[v.parentSlot.value] == parent.value
  {
  }

  /** An accepted vote grows the nodes; a new block is listed by the parent it names, which is present. */
  lemma VoteGrowsTree(s: TowerState, v: Vote, slotOf: Hash -> U64)
    requires TreeOk(s, slotOf) && Rooted(s, slotOf) && Sound(v, slotOf) && Accepts(s, v)
    ensures var t := AfterVote(s, v);
      && t.nodes.Keys == s.nodes.Keys + {v.blockHash} && t.rootSlot == s.rootSlot
      && t.slotToHash == s.slotToHash[v.slot := v.blockHash]
      && Grows(s.nodes, t.nodes)
      && (v.blockHash !in s.nodes && t.nodes[v.blockHash].parentHash.Some? ==>
            var p := t.nodes[v.blockHash].parentHash.value;
            p in s.nodes && v.blockHash in t.nodes[p].children)
  {
    assert v.signed;
    var credited := s.nodes[v.blockHash := Credited(s.nodes, s.slotToHash, s.stakes, v)];
    var slots := s.slotToHash[v.slot := v.blockHash];
    CreditGrows(s, v);
    LinkGrows(credited, slots, v);
    hide Voted;
    hide Accepts;
    hide Linked;
    hide Credited;
    hide TreeOk;
    GrowsTrans(s.nodes, credited, AfterVote(s, v).nodes);
    if v.blockHash !in s.nodes {
      NewParent(s, v);
      assert AfterVote(s, v).nodes[v.blockHash].parentHash == credited[v.blockHash].parentHash;
    }
    hide Grows;
  }

  /** Growing by one listed block at or above the root keeps the tree rooted. */
  lemma GrowthKeepsRooted(s: TowerState, t: TowerState, h: Hash, slot: U64, slotOf: Hash -> U64)
    requires Rooted(s, slotOf) && Grows(s.nodes, t.nodes) && t.nodes.Keys == s.nodes.Keys + {h}
    requires t.rootSlot == s.rootSlot <= slotOf(h) && t.slotToHash == s.slotToHash[slot := h]
    requires h !in s.nodes && t.nodes[h].parentHash.Some? ==>
               t.nodes[h].parentHash.value in s.nodes && h in t.nodes[t.nodes[h].parentHash.value].children
    ensures Rooted(t, slotOf)
  {
    forall c | c in t.nodes && t.nodes[c].parentHash.Some? ensures ParentOk(t, c, slotOf) {
      assert c in s.nodes ==> ParentOk(s, c, slotOf);
    }
  }

  lemma VoteKeepsRooted(s: TowerState, v: Vote, slotOf: Hash -> U64)
    requires TreeOk(s, slotOf) && Rooted(s, slotOf) && (Accepts(s, v) ==> Sound(v, slotOf) && v.slot >= s.rootSlot)
    ensures Rooted(AfterVote(s, v), slotOf)
  {
    if Accepts(s, v) {
      VoteGrowsTree(s, v, slotOf);
      hide AfterVote;
      hide Rooted;
      hide Grows;
      GrowthKeepsRooted(s, AfterVote(s, v), v.blockHash, v.slot, slotOf);
    } else {
      SameTree(s, AfterVote(s, v), slotOf);
    }
  }

  lemma AdvanceKeepsRooted(s: TowerState, root: U64, slotOf: Hash -> U64)
    requires TreeOk(s, slotOf) && Rooted(s, slotOf) && root >= s.rootSlot
    ensures Rooted(AfterAdvance(s, root), slotOf)
  {
    var t := AfterAdvance(s, root);
    forall c | c in t.nodes && t.nodes[c].parentHash.Some? ensures ParentOk(t, c, slotOf) {
      assert ParentOk(s, c, slotOf);
      var p := t.nodes[c].parentHash.value;
      if p in s.nodes { assert NodeDescends(s.nodes, p, slotOf); }
    }
    forall slot | slot in t.slotToHash ensures t.slotToHash[slot] in t.nodes {
      assert NodeDescends(s.nodes, s.slotToHash[slot], slotOf);
    }
  }

  /** The root never moves back and no accepted vote is for a slot below it. */
  ghost predicate Forward(s: TowerState, e: Event) {
    match e
    case Register(_, _) => true
    case Cast(v) => Accepts(s, v) ==> v.slot >= s.rootSlot
    case Advance(root) => root >= s.rootSlot
  }

  lemma {:induction false} RunKeepsRooted(states: seq<TowerState>, events: seq<Event>, slotOf: Hash -> U64, n: nat)
    requires IsRun(states, events) && SoundEvents(states, events, slotOf) && n <= |events|
    requires forall i :: 0 <= i < |events| ==> Forward(states[i], events[i])
    requires TreeOk(states[0], slotOf) && Rooted(states[0], slotOf)
    ensures Rooted(states[n], slotOf)
  {
    if n > 0 {
      RunKeepsRooted(states, events, slotOf, n - 1);
      RunDescends(states, events, slotOf, n - 1);
      var s, e, s' := states[n - 1], events[n - 1], states[n];
      assert Next(s, e, s') && Forward(s, e);
      hide TreeOk;
      match e {
        case Register(_, _) => RegisterKeepsRooted(s, e, slotOf);
        case Cast(v) => VoteKeepsRooted(s, v, slotOf);
        case Advance(root) => AdvanceKeepsRooted(s, root, slotOf);
      }
      SameTree(After(s, e), s', slotOf);
    }
  }

  lemma RegisterKeepsRooted(s: TowerState, e: Event, slotOf: Hash -> U64)
    requires e.Register? && Rooted(s, slotOf)
    ensures Rooted(After(s, e), slotOf)
  {
    SameTree(s, After(s, e), slotOf);
  }

  lemma SameTree(s: TowerState, t: TowerState, slotOf: Hash -> U64)
    requires Rooted(s, slotOf) && s.nodes == t.nodes && s.slotToHash == t.slotToHash && s.rootSlot == t.rootSlot
    ensures Rooted(t, slotOf)
  {
    forall c | c in t.nodes && t.nodes[c].parentHash.Some? ensures ParentOk(t, c, slotOf) {
      assert ParentOk(s, c, slotOf);
    }
  }

  /** In every such run the leaves are the tips of the forks: no present block names one as parent. */
  lemma LeavesAreTips(states: seq<TowerState>, events: seq<Event>, slotOf: Hash -> U64, n: nat, h: Hash, c: Hash)
    requires IsRun(states, events) && SoundEvents(states, events, slotOf) && n <= |events|
    requires forall i :: 0 <= i < |events| ==> Forward(states[i], events[i])
    requires TreeOk(states[0], slotOf) && Rooted(states[0], slotOf)
    requires h in Leaves(states[n].nodes, states[n].rootSlot) && c in states[n].nodes
    ensures states[n].nodes[c].parentHash != Some(h)
  {
    RunKeepsRooted(states, events, slotOf, n);
    assert states[n].nodes[c].parentHash.Some? ==> ParentOk(states[n], c, slotOf);
  }

  // ---------- chain weights ----------

  /** The plain sum of the weights from a node back to its fork root. */
  ghost function ChainSum(nodes: map<Hash, Node>, h: Hash, slotOf: Hash -> U64): nat
    requires Descending(nodes, slotOf)
    decreases slotOf(h)
  {
    if h !in nodes then 0
    else
      assert NodeDescends(nodes, h, slotOf);
      nodes[h].weight + (if nodes[h].parentHash.Some? then ChainSum(nodes, nodes[h].parentHash.value, slotOf) else 0)
  }

  ghost function ChainWeightOf(nodes: map<Hash, Node>, h: Hash, slotOf: Hash -> U64): U64
    requires Descending(nodes, slotOf)
  {
    Sat(ChainSum(nodes, h, slotOf))
  }

  // ---------- the best head ----------

  function Leaves(nodes: map<Hash, Node>, root: U64): set<Hash> {
    set h | h in nodes && nodes[h].slot >= root && nodes[h].children == []
  }

  /** Leaf a is at least as good as leaf b: heavier chain, ties to the higher slot. */
  ghost predicate AtLeast(nodes: map<Hash, Node>, slotOf: Hash -> U64, a: Hash, b: Hash)
    requires Descending(nodes, slotOf)
  {
    var wa, wb := ChainWeightOf(nodes, a, slotOf), ChainWeightOf(nodes, b, slotOf);
    wa > wb || (wa == wb && slotOf(a) >= slotOf(b))
  }

  ghost predicate IsBest(nodes: map<Hash, Node>, slotOf: Hash -> U64, leaves: set<Hash>, h: Hash)
    requires Descending(nodes, slotOf)
  {
    h in leaves && forall l :: l in leaves ==> AtLeast(nodes, slotOf, h, l)
  }

  /** Comparing the best leaf so far with one more. */
  lemma BestStep(nodes: map<Hash, Node>, slotOf: Hash -> U64, compared: set<Hash>, best: Hash, leaf: Hash)
    requires Descending(nodes, slotOf) && IsBest(nodes, slotOf, compared, best)
    ensures AtLeast(nodes, slotOf, best, leaf) ==> IsBest(nodes, slotOf, compared + {leaf}, best)
    ensures AtLeast(nodes, slotOf, leaf, best) ==> IsBest(nodes, slotOf, compared + {leaf}, leaf)
  {
    hide ChainWeightOf;
  }

  /** What the head is after the leaves have been compared. */
  ghost predicate HeadChosen(nodes: map<Hash, Node>, root: U64, slotOf: Hash -> U64, before: Option<Hash>,
                             head: Option<Hash>)
    requires Descending(nodes, slotOf)
  {
    var leaves := Leaves(nodes, root);
    if leaves == {} then head == before else head.Some? && IsBest(nodes, slotOf, leaves, head.value)
  }

  /** Climbing child links from a node at or above the root reaches a leaf. */
  lemma {:induction false} LeafAbove(nodes: map<Hash, Node>, root: U64, slotOf: Hash -> U64, h: Hash)
    requires Descending(nodes, slotOf) && h in nodes && nodes[h].slot >= root
    ensures Leaves(nodes, root) != {}
    decreases U64_LIMIT - slotOf(h)
  {
    assert NodeDescends(nodes, h, slotOf);
    if nodes[h].children == [] {
      assert h in Leaves(nodes, root);
    } else {
      var c := nodes[h].children[0];
      assert c in nodes[h].children;
      assert NodeDescends(nodes, c, slotOf);
      LeafAbove(nodes, root, slotOf, c);
    }
  }

  /** So once a vote at or above the root is accepted, the head is a present, heaviest leaf. */
  lemma AcceptedVoteHasHead(s: TowerState, v: Vote, s': TowerState, slotOf: Hash -> U64)
    requires TreeOk(s, slotOf) && Sound(v, slotOf) && TreeOk(s', slotOf)
    requires Accepts(s, v) && Next(s, Cast(v), s') && v.slot >= s.rootSlot
    requires HeadChosen(s'.nodes, s'.rootSlot, slotOf, s.bestHead, s'.bestHead)
    ensures s'.bestHead.Some? && s'.bestHead.value in s'.nodes
    ensures IsBest(s'.nodes, slotOf, Leaves(s'.nodes, s'.rootSlot), s'.bestHead.value)
  {
    assert v.blockHash in s'.nodes && s'.rootSlot == s.rootSlot;
    assert NodeDescends(s'.nodes, v.blockHash, slotOf);
    LeafAbove(s'.nodes, s'.rootSlot, slotOf, v.blockHash);
  }

  // ---------- said of paths ----------

  /** The blocks from path[0] down its parent links, as far as they are present. */
  ghost predicate Chain(nodes: map<Hash, Node>, path: seq<Hash>) {
    && path != [] && path[0] in nodes
    && var parent := nodes[path[0]].parentHash;
    if |path| == 1 then parent.None? || parent.value !in nodes
    else parent == Some(path[1]) && Chain(nodes, path[1..])
  }

  ghost function PathSum(nodes: map<Hash, Node>, path: seq<Hash>): nat
    requires forall i :: 0 <= i < |path| ==> path[i] in nodes
  {
    if path == [] then 0 else nodes[path[0]].weight + PathSum(nodes, path[1..])
  }

  lemma {:induction false} ChainPresent(nodes: map<Hash, Node>, path: seq<Hash>)
    requires Chain(nodes, path)
    ensures forall i :: 0 <= i < |path| ==> path[i] in nodes
  {
    if |path| > 1 {
      ChainPresent(nodes, path[1..]);
      assert forall i :: 0 < i < |path| ==> path[i] == path[1..][i - 1];
    }
  }

  /** The weight of a chain is the sum of its blocks' weights, up to the largest 64-bit number. */
  lemma {:induction false} ChainWeightIsSum(nodes: map<Hash, Node>, slotOf: Hash -> U64, path: seq<Hash>)
    requires Descending(nodes, slotOf) && Chain(nodes, path)
    ensures forall i :: 0 <= i < |path| ==> path[i] in nodes
    ensures ChainWeightOf(nodes, path[0], slotOf) == Sat(PathSum(nodes, path))
    ensures ChainSum(nodes, path[0], slotOf) == PathSum(nodes, path)
    decreases |path|
  {
    ChainPresent(nodes, path);
    if |path| > 1 {
      ChainWeightIsSum(nodes, slotOf, path[1..]);
    } else {
      assert path[1..] == [];
    }
  }

  /** Every present block begins such a path. */
  lemma {:induction false} ChainExists(nodes: map<Hash, Node>, slotOf: Hash -> U64, h: Hash) returns (path: seq<Hash>)
    requires Descending(nodes, slotOf) && h in nodes
    ensures Chain(nodes, path) && path[0] == h
    decreases slotOf(h)
  {
    assert NodeDescends(nodes, h, slotOf);
    var parent := nodes[h].parentHash;
    path := [h];
    if parent.Some? && parent.value in nodes {
      var rest := ChainExists(nodes, slotOf, parent.value);
      path := [h] + rest;
      assert path[1..] == rest;
    }
  }

  /** A present block at or above the root without children. */
  predicate IsTip(nodes: map<Hash, Node>, root: U64, h: Hash) {
    h in nodes && nodes[h].slot >= root && nodes[h].children == []
  }

  /** After an accepted vote at or above the root the head is such a block, and no other has a chain of
  greater weight, or of equal weight and a higher slot. */
  lemma HeadExactly(s: TowerState, v: Vote, s': TowerState, slotOf: Hash -> U64, p: seq<Hash>, q: seq<Hash>)
    requires TreeOk(s, slotOf) && Sound(v, slotOf) && TreeOk(s', slotOf)
    requires Accepts(s, v) && Next(s, Cast(v), s') && v.slot >= s.rootSlot
    requires HeadChosen(s'.nodes, s'.rootSlot, slotOf, s.bestHead, s'.bestHead)
    ensures s'.bestHead.Some? && IsTip(s'.nodes, s'.rootSlot, s'.bestHead.value)
    ensures Chain(s'.nodes, p) && p[0] == s'.bestHead.value && Chain(s'.nodes, q) && IsTip(s'.nodes, s'.rootSlot, q[0]) ==>
      && (forall i :: 0 <= i < |p| ==> p[i] in s'.nodes) && (forall i :: 0 <= i < |q| ==> q[i] in s'.nodes)
      && var a, b := Sat(PathSum(s'.nodes, p)), Sat(PathSum(s'.nodes, q));
      a > b || (a == b && s'.nodes[p[0]].slot >= s'.nodes[q[0]].slot)
  {
    AcceptedVoteHasHead(s, v, s', slotOf);
    hide Next;
    hide Accepts;
    var leaves := Leaves(s'.nodes, s'.rootSlot);
    if Chain(s'.nodes, p) && p[0] == s'.bestHead.value && Chain(s'.nodes, q) && IsTip(s'.nodes, s'.rootSlot, q[0]) {
      ChainWeightIsSum(s'.nodes, slotOf, p);
      ChainWeightIsSum(s'.nodes, slotOf, q);
      assert q[0] in leaves && AtLeast(s'.nodes, slotOf, p[0], q[0]);
      assert NodeDescends(s'.nodes, p[0], slotOf) && NodeDescends(s'.nodes, q[0], slotOf);
      hide ChainWeightOf;
      hide PathSum;
      hide Chain;
    }
  }
}
