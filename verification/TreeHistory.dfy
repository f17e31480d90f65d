/** The vote tree and the electorate as the history determines them. */
module TreeHistory {
  import opened Bytes
  import opened Wrappers
  import opened Votes
  import opened TowerModel
  import opened TowerHistory

  // ---------- the electorate ----------

  /** The event brings a validator in: a registration, or a signed vote, accepted or not. */
  predicate Introduces(e: Event, id: ValidatorId) {
    match e
    case Register(who, _) => who == id
    case Cast(v) => v.validator == id && v.signed
    case Advance(_) => false
  }

  predicate Introduced(r: Run, id: ValidatorId, n: nat)
    requires n <= |r.events|
  {
    exists i :: 0 <= i < n && Introduces(r.events[i], id)
  }

  function LastStake(r: Run, id: ValidatorId, n: nat): Option<U64>
    requires n <= |r.events|
  {
    if n == 0 then None
    else if r.events[n - 1].Register? && r.events[n - 1].id == id then Some(r.events[n - 1].stake)
    else LastStake(r, id, n - 1)
  }

  function At<K, V>(m: map<K, V>, k: K): Option<V> {
    if k in m then Some(m[k]) else None
  }

  lemma NextValidators(s: TowerState, e: Event, s': TowerState, id: ValidatorId)
    requires Next(s, e, s')
    ensures id in s'.validators <==> id in s.validators || Introduces(e, id)
  {
    assert s'.validators == After(s, e).validators;
    hide Voted;
    hide Accepts;
    hide Rerooted;
    hide Credited;
    hide Linked;
    hide Wrap;
    hide Settled;
  }

  lemma NextStake(s: TowerState, e: Event, s': TowerState, id: ValidatorId)
    requires Next(s, e, s')
    ensures At(s'.stakes, id) == if e.Register? && e.id == id then Some(e.stake) else At(s.stakes, id)
  {
    assert s'.stakes == After(s, e).stakes;
    hide Voted;
    hide Accepts;
    hide Rerooted;
    hide Credited;
    hide Linked;
    hide Wrap;
    hide Settled;
  }

  /** Everyone ever registered or heard from is a validator, and a stake is the one registered last. */
  lemma {:induction false} ElectorateExactly(r: Run, id: ValidatorId, n: nat)
    requires r.Ok() && n <= |r.events|
    ensures id in r.states[n].validators <==> Introduced(r, id, n)
    ensures At(r.states[n].stakes, id) == LastStake(r, id, n)
  {
    if n > 0 {
      var m := n - 1;
      ElectorateExactly(r, id, m);
      NextAt(r, m);
      NextValidators(r.states[m], r.events[m], r.states[n], id);
      NextStake(r.states[m], r.events[m], r.states[n], id);
      IntroducedStep(r, id, m);
      hide Next;
      hide Introduces;
      hide Introduced;
      hide IsRun;
      hide Initial;
    }
  }

  lemma IntroducedStep(r: Run, id: ValidatorId, m: nat)
    requires m < |r.events|
    ensures Introduced(r, id, m + 1) <==> Introduced(r, id, m) || Introduces(r.events[m], id)
  {
    hide Introduces;
  }

  // ---------- slots ----------

  /** Event i is the last accepted vote at the slot, and no later root has passed the slot. */
  predicate NamesBlock(r: Run, slot: U64, n: nat, i: nat)
    requires n <= |r.events|
  {
    && i < n && Accepted(r, i) && r.events[i].vote.slot == slot && Survives(r, slot, i, n)
    && forall j: nat :: i < j < n && Accepted(r, j) ==> r.events[j].vote.slot != slot
  }

  ghost predicate SlotIs(r: Run, n: nat, slot: U64)
    requires n <= |r.events| && n < |r.states|
  {
    && (slot in r.states[n].slotToHash ==> exists i: nat :: NamesBlock(r, slot, n, i))
    && (forall i: nat :: NamesBlock(r, slot, n, i) ==>
          At(r.states[n].slotToHash, slot) == Some(r.events[i].vote.blockHash))
  }

  lemma NextSlot(s: TowerState, e: Event, s': TowerState, slot: U64)
    requires Next(s, e, s')
    ensures At(s'.slotToHash, slot) ==
      if e.Cast? && Accepts(s, e.vote) && e.vote.slot == slot then Some(e.vote.blockHash)
      else if e.Advance? && e.root > slot then None
      else At(s.slotToHash, slot)
  {
    assert s'.slotToHash == After(s, e).slotToHash;
    hide Voted;
    hide Accepts;
    hide Rerooted;
    hide Credited;
    hide Linked;
    hide Wrap;
    hide Settled;
  }

  lemma NamesStep(r: Run, slot: U64, n: nat, i: nat)
    requires n < |r.events|
    ensures NamesBlock(r, slot, n + 1, i) <==>
      if Accepted(r, n) && r.events[n].vote.slot == slot then i == n
      else NamesBlock(r, slot, n, i) && !(r.events[n].Advance? && r.events[n].root > slot)
  {
    SurvivesStep(r, slot, i, n);
    assert Survives(r, slot, n, n);
    hide Survives;
    hide Accepts;
  }

  /** A slot maps to the block of the last vote accepted there, unless a later root has passed it. */
  lemma {:induction false} SlotsExactly(r: Run, n: nat, slot: U64)
    requires r.Ok() && n <= |r.events|
    ensures SlotIs(r, n, slot)
  {
    if n > 0 {
      var m := n - 1;
      SlotsExactly(r, m, slot);
      NextAt(r, m);
      NextSlot(r.states[m], r.events[m], r.states[n], slot);
      hide Next;
      hide Accepts;
      forall i: nat ensures NamesBlock(r, slot, n, i) <==>
        if Accepted(r, m) && r.events[m].vote.slot == slot then i == m
        else NamesBlock(r, slot, m, i) && !(r.events[m].Advance? && r.events[m].root > slot)
      {
        NamesStep(r, slot, m, i);
      }
      hide NamesBlock;
    }
  }

  // ---------- nodes ----------

  /** Event b is the vote that created the node, and no later root has passed its slot. */
  ghost predicate BornAt(r: Run, h: Hash, n: nat, b: nat)
    requires n <= |r.events|
  {
    && b < n && Accepted(r, b) && r.events[b].vote.blockHash == h && h !in r.states[b].nodes
    && Survives(r, r.events[b].vote.slot, b, n)
  }

  /** A vote for the block by the validator. */
  predicate VoteFor(r: Run, h: Hash, id: ValidatorId, j: nat) {
    VotedBy(r, id, j) && r.events[j].vote.blockHash == h
  }

  /** A vote for block g whose parent slot stands for block h once the vote is recorded. */
  predicate ChildVote(r: Run, h: Hash, g: Hash, j: nat) {
    && Accepted(r, j) && j + 1 < |r.states| && r.events[j].vote.blockHash == g
    && r.events[j].vote.parentSlot.Some?
    && At(r.states[j + 1].slotToHash, r.events[j].vote.parentSlot.value) == Some(h)
  }

  /** Exactly those who voted for the block from event b on. */
  ghost predicate VotersAre(r: Run, h: Hash, n: nat, b: nat, voters: seq<ValidatorId>) {
    forall id :: id in voters <==> exists j: nat :: b <= j < n && VoteFor(r, h, id, j)
  }

  /** Exactly the blocks that votes from event b on put under the block. */
  ghost predicate ChildrenAre(r: Run, h: Hash, n: nat, b: nat, children: seq<Hash>) {
    forall g :: g in children <==> exists j: nat :: b <= j < n && ChildVote(r, h, g, j)
  }

  /** What the votes since its creation have made of a node. */
  ghost predicate NodeIs(r: Run, h: Hash, n: nat, b: nat)
    requires n <= |r.events| && n < |r.states| && BornAt(r, h, n, b)
  {
    var v := r.events[b].vote;
    && h in r.states[n].nodes
    && var node := r.states[n].nodes[h];
    && node.blockHash == h && node.slot == v.slot && node.parentSlot == v.parentSlot
    && node.parentHash == (if v.parentSlot.Some? then At(r.states[b].slotToHash, v.parentSlot.value) else None)
    && VotersAre(r, h, n, b, node.voters)
    && ChildrenAre(r, h, n, b, node.children)
  }

  ghost predicate NodesAre(r: Run, h: Hash, n: nat)
    requires n <= |r.events| && n < |r.states|
  {
    && (h in r.states[n].nodes ==> exists b: nat :: BornAt(r, h, n, b))
    && (forall b: nat :: BornAt(r, h, n, b) ==> NodeIs(r, h, n, b))
  }

  /** The same node with possibly one more voter and one more child. */
  ghost predicate Extends(before: Node, after: Node, voter: Option<ValidatorId>, child: Option<Hash>) {
    && after.blockHash == before.blockHash && after.slot == before.slot && after.parentSlot == before.parentSlot
    && after.parentHash == before.parentHash
    && (forall id :: id in after.voters <==> id in before.voters || Some(id) == voter)
    && (forall g :: g in after.children <==> g in before.children || Some(g) == child)
  }

  function Blank(s: TowerState, v: Vote): Node {
    Node(v.blockHash, v.slot, v.parentSlot, if v.parentSlot.Some? then At(s.slotToHash, v.parentSlot.value) else None,
         0, [], [])
  }

  function Former(s: TowerState, v: Vote, h: Hash): Node {
    if h in s.nodes then s.nodes[h] else Blank(s, v)
  }

  function NewVoter(v: Vote, h: Hash): Option<ValidatorId> {
    if h == v.blockHash then Some(v.validator) else None
  }

  function NewChild(v: Vote, slotToHash: map<U64, Hash>, h: Hash): Option<Hash> {
    if v.parentSlot.Some? && At(slotToHash, v.parentSlot.value) == Some(h) then Some(v.blockHash) else None
  }

  lemma CreditExtends(s: TowerState, v: Vote)
    ensures Extends(Former(s, v, v.blockHash), Credited(s.nodes, s.slotToHash, s.stakes, v), Some(v.validator), None)
  {
    hide Wrap;
  }

  lemma LinkExtends(nodes: map<Hash, Node>, slotToHash: map<U64, Hash>, v: Vote, h: Hash)
    requires h in nodes
    ensures h in Linked(nodes, slotToHash, v) &&
      Extends(nodes[h], Linked(nodes, slotToHash, v)[h], None, NewChild(v, slotToHash, h))
  {
  }

  /** How one accepted vote changes the nodes. */
  lemma NodeAfterVote(s: TowerState, v: Vote, h: Hash)
    requires Accepts(s, v)
    ensures var t := AfterVote(s, v);
      && (h in t.nodes <==> h in s.nodes || h == v.blockHash)
      && (h in t.nodes ==> Extends(Former(s, v, h), t.nodes[h], NewVoter(v, h), NewChild(v, t.slotToHash, h)))
  {
    assert v.signed;
    hide Accepts;
    hide Voted;
    hide Rerooted;
    hide Wrap;
    hide Extends;
    hide Linked;
    hide Credited;
    hide NewChild;
    var credited := s.nodes[v.blockHash := Credited(s.nodes, s.slotToHash, s.stakes, v)];
    var slots := s.slotToHash[v.slot := v.blockHash];
    LinkKeys(credited, slots, v);
    if h in credited {
      CreditExtends(s, v);
      ExtendsSelf(credited[h]);
      LinkExtends(credited, slots, v, h);
      ExtendsTwice(Former(s, v, h), credited[h], Linked(credited, slots, v)[h], NewVoter(v, h), NewChild(v, slots, h));
    }
  }

  lemma ExtendsSelf(a: Node)
    ensures Extends(a, a, None, None)
  {
  }

  lemma ExtendsTwice(a: Node, b: Node, c: Node, voter: Option<ValidatorId>, child: Option<Hash>)
    requires Extends(a, b, voter, None) && Extends(b, c, None, child)
    ensures Extends(a, c, voter, child)
  {
  }

  lemma LinkKeys(nodes: map<Hash, Node>, slotToHash: map<U64, Hash>, v: Vote)
    ensures Linked(nodes, slotToHash, v).Keys == nodes.Keys
  {
  }

  lemma NextNode(s: TowerState, e: Event, s': TowerState, h: Hash)
    requires Next(s, e, s')
    ensures s'.nodes == After(s, e).nodes && s'.slotToHash == After(s, e).slotToHash
    ensures e.Register? || (e.Cast? && !Accepts(s, e.vote)) ==> s'.nodes == s.nodes
    ensures e.Advance? ==> At(s'.nodes, h) == if h in s.nodes && s.nodes[h].slot >= e.root then Some(s.nodes[h]) else None
  {
    hide Voted;
    hide Accepts;
    hide Rerooted;
    hide Credited;
    hide Linked;
    hide Wrap;
    hide Settled;
  }

  lemma BornStep(r: Run, h: Hash, n: nat, b: nat)
    requires n < |r.events|
    ensures BornAt(r, h, n + 1, b) <==>
      || (b == n && Accepted(r, n) && r.events[n].vote.blockHash == h && h !in r.states[n].nodes)
      || (BornAt(r, h, n, b) && (r.events[n].Advance? ==> r.events[n].root <= r.events[b].vote.slot))
  {
    if Accepted(r, b) { SurvivesStep(r, r.events[b].vote.slot, b, n); }
    assert b == n && Accepted(r, n) ==> Survives(r, r.events[n].vote.slot, n, n);
    hide Survives;
    hide Accepts;
  }

  lemma SameVotes(r: Run, h: Hash, n: nat, b: nat)
    requires n < |r.events| && n + 1 < |r.states| && BornAt(r, h, n, b) && NodeIs(r, h, n, b) && BornAt(r, h, n + 1, b)
    requires !Accepted(r, n) && At(r.states[n + 1].nodes, h) == At(r.states[n].nodes, h)
    ensures NodeIs(r, h, n + 1, b)
  {
    hide Accepted;
    hide BornAt;
    assert forall id, j: nat :: b <= j < n + 1 && VoteFor(r, h, id, j) ==> j < n;
    assert forall g, j: nat :: b <= j < n + 1 && ChildVote(r, h, g, j) ==> j < n;
  }

  lemma MoreVoters(r: Run, h: Hash, n: nat, b: nat, before: seq<ValidatorId>, after: seq<ValidatorId>)
    requires n < |r.events| && Accepted(r, n) && b <= n
    requires if b == n then before == [] else VotersAre(r, h, n, b, before)
    requires forall id :: id in after <==> id in before || Some(id) == NewVoter(r.events[n].vote, h)
    ensures VotersAre(r, h, n + 1, b, after)
  {
    hide Accepts;
    forall id ensures id in after <==> exists j: nat :: b <= j < n + 1 && VoteFor(r, h, id, j) {
      assert VoteFor(r, h, id, n) <==> Some(id) == NewVoter(r.events[n].vote, h);
    }
  }

  lemma MoreChildren(r: Run, h: Hash, n: nat, b: nat, before: seq<Hash>, after: seq<Hash>)
    requires n < |r.events| && n + 1 < |r.states| && Accepted(r, n) && b <= n
    requires if b == n then before == [] else ChildrenAre(r, h, n, b, before)
    requires forall g :: g in after <==> g in before || Some(g) == NewChild(r.events[n].vote, r.states[n + 1].slotToHash, h)
    ensures ChildrenAre(r, h, n + 1, b, after)
  {
    hide Accepts;
    forall g ensures g in after <==> exists j: nat :: b <= j < n + 1 && ChildVote(r, h, g, j) {
      assert ChildVote(r, h, g, n) <==> Some(g) == NewChild(r.events[n].vote, r.states[n + 1].slotToHash, h);
    }
  }

  lemma MoreVotes(r: Run, h: Hash, n: nat, b: nat)
    requires n < |r.events| && n + 1 < |r.states| && Accepted(r, n) && b <= n
    requires if b == n then BornAt(r, h, n + 1, n) else BornAt(r, h, n, b) && NodeIs(r, h, n, b) && BornAt(r, h, n + 1, b)
    requires h in r.states[n + 1].nodes
    requires var v := r.events[n].vote;
      Extends(Former(r.states[n], v, h), r.states[n + 1].nodes[h], NewVoter(v, h), NewChild(v, r.states[n + 1].slotToHash, h))
    ensures NodeIs(r, h, n + 1, b)
  {
    hide Accepts;
    hide Survives;
    hide VotersAre;
    hide ChildrenAre;
    var node, former := r.states[n + 1].nodes[h], Former(r.states[n], r.events[n].vote, h);
    MoreVoters(r, h, n, b, former.voters, node.voters);
    MoreChildren(r, h, n, b, former.children, node.children);
  }

  lemma NodesStep(r: Run, h: Hash, n: nat)
    requires n < |r.events| && n + 1 < |r.states| && NodesAre(r, h, n) && Next(r.states[n], r.events[n], r.states[n + 1])
    ensures NodesAre(r, h, n + 1)
  {
    var s, e, s' := r.states[n], r.events[n], r.states[n + 1];
    NextNode(s, e, s', h);
    if Accepted(r, n) { NodeAfterVote(s, e.vote, h); }
    hide Next;
    hide AfterVote;
    hide Accepts;
    var m := n + 1;
    forall b: nat | BornAt(r, h, m, b) ensures NodeIs(r, h, m, b) {
      BornStep(r, h, n, b);
      hide BornAt;
      hide NodeIs;
      if Accepted(r, n) { MoreVotes(r, h, n, b); } else { SameVotes(r, h, n, b); }
    }
    if h in s'.nodes {
      if h in s.nodes {
        var b: nat :| BornAt(r, h, n, b);
        BornStep(r, h, n, b);
        assert BornAt(r, h, n + 1, b);
      } else {
        BornStep(r, h, n, n);
        assert BornAt(r, h, n + 1, n);
      }
    }
  }

  /** A block is in the tree exactly while no root has passed the slot of the vote that created it, and its
  parent, voters and children are those that the votes since then name. */
  lemma {:induction false} NodesExactly(r: Run, h: Hash, n: nat)
    requires r.Ok() && n <= |r.events|
    ensures NodesAre(r, h, n)
  {
    if n > 0 {
      NodesExactly(r, h, n - 1);
      NextAt(r, n - 1);
      hide Next;
      hide NodesAre;
      NodesStep(r, h, n - 1);
    }
  }

  // ---------- weights ----------

  /** The stake a validator votes with: the one registered last, or 1. */
  function StakeAt(r: Run, id: ValidatorId, n: nat): nat
    requires n <= |r.events|
  {
    if LastStake(r, id, n).Some? then LastStake(r, id, n).value else 1
  }

  lemma StakeExactly(r: Run, id: ValidatorId, n: nat)
    requires r.Ok() && n <= |r.events|
    ensures StakeOf(r.states[n].stakes, id) == StakeAt(r, id, n)
  {
    ElectorateExactly(r, id, n);
  }

  /** Event j is a validator's first vote for the block since event b. */
  predicate FirstVote(r: Run, h: Hash, b: nat, j: nat) {
    && b <= j && Accepted(r, j) && r.events[j].vote.blockHash == h
    && forall i: nat :: b <= i < j ==> !VoteFor(r, h, r.events[j].vote.validator, i)
  }

  /** The stakes of the voters, each as it was at the validator's first vote. */
  function Support(r: Run, h: Hash, b: nat, n: nat): nat
    requires n <= |r.events|
  {
    if n == 0 then 0
    else Support(r, h, b, n - 1) +
         if FirstVote(r, h, b, n - 1) then StakeAt(r, r.events[n - 1].vote.validator, n - 1) else 0
  }

  lemma {:induction false} NoSupport(r: Run, h: Hash, b: nat, n: nat)
    requires n <= b && n <= |r.events|
    ensures Support(r, h, b, n) == 0
  {
    if n > 0 { NoSupport(r, h, b, n - 1); }
  }

  function WeightAfter(s: TowerState, v: Vote, h: Hash): U64 {
    var n := Former(s, v, h);
    if h == v.blockHash && v.validator !in n.voters then Sat(n.weight + StakeOf(s.stakes, v.validator)) else n.weight
  }

  lemma CreditWeight(s: TowerState, v: Vote, h: Hash)
    requires Accepts(s, v)
    ensures h in AfterVote(s, v).nodes ==> AfterVote(s, v).nodes[h].weight == WeightAfter(s, v, h)
  {
    assert v.signed;
    hide Accepts;
    hide Voted;
    hide Rerooted;
    hide Wrap;
    hide Sat;
  }

  lemma SatMore(a: nat, b: nat)
    ensures Sat(Sat(a) + b) == Sat(a + b)
  {
  }

  ghost predicate WeightsAre(r: Run, h: Hash, n: nat)
    requires n <= |r.events| && n < |r.states|
  {
    forall b: nat :: BornAt(r, h, n, b) && h in r.states[n].nodes ==>
      r.states[n].nodes[h].weight == Sat(Support(r, h, b, n))
  }

  lemma VoteWeight(r: Run, h: Hash, n: nat, b: nat)
    requires r.Ok() && n < |r.events| && Accepted(r, n) && b <= n
    requires if b == n then BornAt(r, h, n + 1, n)
      else BornAt(r, h, n, b) && NodeIs(r, h, n, b) && r.states[n].nodes[h].weight == Sat(Support(r, h, b, n))
    ensures WeightAfter(r.states[n], r.events[n].vote, h) == Sat(Support(r, h, b, n + 1))
  {
    var s, v := r.states[n], r.events[n].vote;
    StakeExactly(r, v.validator, n);
    if b == n {
      NoSupport(r, h, b, n);
    } else {
      assert VotersAre(r, h, n, b, s.nodes[h].voters);
    }
    SatMore(Support(r, h, b, n), StakeAt(r, v.validator, n));
    hide Accepts;
    hide Sat;
    hide StakeAt;
    hide Survives;
    hide ChildrenAre;
  }

  lemma WeightStep(r: Run, h: Hash, n: nat, b: nat)
    requires r.Ok() && n < |r.events| && WeightsAre(r, h, n) && NodesAre(r, h, n) && NodesAre(r, h, n + 1)
    requires BornAt(r, h, n + 1, b)
    ensures h in r.states[n + 1].nodes && r.states[n + 1].nodes[h].weight == Sat(Support(r, h, b, n + 1))
  {
    var s, e, s' := r.states[n], r.events[n], r.states[n + 1];
    NextAt(r, n);
    NextNode(s, e, s', h);
    BornStep(r, h, n, b);
    assert NodeIs(r, h, n + 1, b);
    hide Next;
    hide Accepts;
    hide Sat;
    hide WeightAfter;
    hide VotersAre;
    hide ChildrenAre;
    if Accepted(r, n) {
      CreditWeight(s, e.vote, h);
      VoteWeight(r, h, n, b);
    }
    hide AfterVote;
  }

  /** A block weighs what its voters had at stake, each when first voting for it since the block was
  created, up to the largest 64-bit number. */
  lemma {:induction false} WeightsExactly(r: Run, h: Hash, n: nat)
    requires r.Ok() && n <= |r.events|
    ensures WeightsAre(r, h, n)
  {
    if n > 0 {
      var m := n - 1;
      WeightsExactly(r, h, m);
      NodesExactly(r, h, m);
      NodesExactly(r, h, n);
      hide *;
      forall b: nat | BornAt(r, h, n, b) ensures h in r.states[n].nodes && r.states[n].nodes[h].weight == Sat(Support(r, h, b, n)) {
        WeightStep(r, h, m, b);
      }
      WeightsAll(r, h, n);
    }
  }

  lemma WeightsAll(r: Run, h: Hash, n: nat)
    requires n <= |r.events| && n < |r.states|
    requires forall b: nat :: BornAt(r, h, n, b) ==>
      h in r.states[n].nodes && r.states[n].nodes[h].weight == Sat(Support(r, h, b, n))
    ensures WeightsAre(r, h, n)
  {
    hide BornAt;
  }
}
