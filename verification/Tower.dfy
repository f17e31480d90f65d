/** The tower as the program keeps it: maps updated in place, with loops over them in no fixed order. */
module Tower {
  import opened Bytes
  import opened Wrappers
  import opened Votes
  import opened TowerModel
  import opened QuorumSafety
  import opened HeaviestChain

  class Tower {
    var nodes: map<Hash, Node>
    var validatorStates: map<ValidatorId, VoteState>
    var stakes: map<ValidatorId, U64>
    var slotToHash: map<U64, Hash>
    var rootSlot: U64
    var bestHead: Option<Hash>
    var totalVotes: U64
    var totalSwitches: U64
    ghost const slotOf: Hash -> U64

    ghost function State(): TowerState reads this {
      TowerState(nodes, validatorStates, stakes, slotToHash, rootSlot, bestHead, totalVotes, totalSwitches)
    }

    ghost predicate Valid() reads this {
      TreeOk(State(), slotOf)
    }

    constructor (genesis: U64, ghost slotOf: Hash -> U64)
      ensures Valid() && State() == Initial(genesis) && this.slotOf == slotOf
    {
      nodes, validatorStates, stakes, slotToHash := map[], map[], map[], map[];
      rootSlot, bestHead, totalVotes, totalSwitches := genesis, None, 0, 0;
      this.slotOf := slotOf;
    }

    method RegisterValidator(id: ValidatorId, stake: U64)
      requires Valid()
      modifies this
      ensures Valid() && State() == Registered(old(State()), id, stake)
    {
      stakes := stakes[id := stake];
      if id !in validatorStates {
        validatorStates := validatorStates[id := NewVoteState(id, rootSlot)];
      }
    }

    method ComputeTotalStake() returns (total: U64)
      ensures total == TotalStake(State())
    {
      var seen: set<ValidatorId> := {};
      total := 0;
      var left := stakes.Keys;
      while left != {}
        invariant left <= stakes.Keys && seen == stakes.Keys - left && total == Sat(StakeSum(stakes, seen))
        decreases left
      {
        var id :| id in left;
        StakeSumAdd(stakes, seen, id);
        total := Sat(total + stakes[id]);
        seen, left := seen + {id}, left - {id};
      }
      left := validatorStates.Keys;
      while left != {}
        invariant left <= validatorStates.Keys && seen == stakes.Keys + (validatorStates.Keys - left)
        invariant total == Sat(StakeSum(stakes, seen))
        decreases left
      {
        var id :| id in left;
        if id !in seen {
          StakeSumAdd(stakes, seen, id);
          total := Sat(total + DEFAULT_STAKE);
        } else {
          assert seen + {id} == seen;
        }
        seen, left := seen + {id}, left - {id};
      }
      assert seen == Eligible(State());
    }

    method IsSlotConfirmed(slot: U64) returns (confirmed: bool)
      ensures confirmed <==> exists h :: Confirmed(State(), slot, h)
    {
      var total := ComputeTotalStake();
      if total == 0 { return false; }
      var left := nodes.Keys;
      while left != {}
        invariant left <= nodes.Keys && forall h :: h in nodes.Keys - left ==> !Confirmed(State(), slot, h)
        decreases left
      {
        var h :| h in left;
        if nodes[h].slot == slot && Supermajority(nodes[h].weight, total) {
          assert Confirmed(State(), slot, h);
          return true;
        }
        left := left - {h};
      }
      confirmed := false;
    }

    method AdvanceRoot(root: U64)
      requires Valid()
      modifies this
      ensures Valid() && State() == AfterAdvance(old(State()), root)
    {
      hide Settled;
      hide Descending;
      hide SlotsMatch;
      AdvanceKeepsTree(State(), root, slotOf);
      rootSlot := root;
      SettleValidators(root);
      nodes := map h | h in nodes && nodes[h].slot >= root :: nodes[h];
      slotToHash := map slot | slot in slotToHash && slot >= root :: slotToHash[slot];
    }

    method SettleValidators(root: U64)
      modifies this`validatorStates
      ensures validatorStates == map id | id in old(validatorStates) :: Settled(old(validatorStates)[id], root)
    {
      ghost var before := validatorStates;
      var left := validatorStates.Keys;
      while left != {}
        invariant left <= before.Keys == validatorStates.Keys
        invariant forall id :: id in left ==> validatorStates[id] == before[id]
        invariant forall id :: id in before.Keys - left ==> validatorStates[id] == Settled(before[id], root)
        decreases left
      {
        var id :| id in left;
        var st := validatorStates[id].UpdateRoot(root);
        if st.lastVoteSlot <= root {
          st := st.ResetLockout();
        }
        validatorStates := validatorStates[id := st];
        left := left - {id};
      }
    }

    ghost predicate MemoOk(memo: map<Hash, U64>)
      requires Descending(nodes, slotOf)
      reads this
    {
      forall h :: h in memo ==> memo[h] == ChainWeightOf(nodes, h, slotOf)
    }

    /** Stake along the chain from a node back to its fork root, with the nodes already met remembered. */
    method ChainWeight(h: Hash, memo: map<Hash, U64>) returns (weight: U64, memo': map<Hash, U64>)
      requires Descending(nodes, slotOf) && MemoOk(memo)
      ensures weight == ChainWeightOf(nodes, h, slotOf) && MemoOk(memo')
      decreases slotOf(h)
    {
      if h in memo { return memo[h], memo; }
      if h !in nodes { return 0, memo; }
      var n := nodes[h];
      assert NodeDescends(nodes, h, slotOf);
      memo' := memo;
      weight := n.weight;
      if n.parentHash.Some? {
        var above;
        above, memo' := ChainWeight(n.parentHash.value, memo);
        weight := Sat(weight + above);
      }
      memo' := memo'[h := weight];
    }

    method UpdateBestHead()
      requires Descending(nodes, slotOf)
      modifies this`bestHead
      ensures HeadChosen(nodes, rootSlot, slotOf, old(bestHead), bestHead)
    {
      var leaves := Leaves(nodes, rootSlot);
      var memo: map<Hash, U64> := map[];
      var best: Option<(Hash, U64, U64)> := None;
      var left := leaves;
      while left != {}
        invariant left <= leaves && MemoOk(memo) && bestHead == old(bestHead)
        invariant best.None? <==> left == leaves
        invariant best.Some? ==> BestOf(best.value, leaves - left)
        decreases left
      {
        var leaf :| leaf in left;
        var weight;
        weight, memo := ChainWeight(leaf, memo);
        var slot := nodes[leaf].slot;
        assert NodeDescends(nodes, leaf, slotOf);
        if best.Some? {
          BestStep(nodes, slotOf, leaves - left, best.value.0, leaf);
        }
        assert leaves - (left - {leaf}) == leaves - left + {leaf};
        if best.None? || weight > best.value.1 || (weight == best.value.1 && slot > best.value.2) {
          best := Some((leaf, weight, slot));
        }
        left := left - {leaf};
      }
      assert leaves - left == leaves;
      if best.Some? {
        bestHead := Some(best.value.0);
      }
    }

    ghost predicate BestOf(best: (Hash, U64, U64), compared: set<Hash>)
      requires Descending(nodes, slotOf)
      reads this
    {
      && best.1 == ChainWeightOf(nodes, best.0, slotOf) && best.2 == slotOf(best.0)
      && IsBest(nodes, slotOf, compared, best.0)
    }

    method ProcessVote(v: Vote) returns (ok: bool)
      requires Valid() && (Accepts(State(), v) ==> Sound(v, slotOf))
      modifies this
      ensures Valid()
      ensures ok == Accepts(old(State()), v)
      ensures Next(old(State()), Cast(v), State())
      ensures if ok then HeadChosen(nodes, rootSlot, slotOf, old(bestHead), bestHead) else bestHead == old(bestHead)
    {
      hide Credited;
      hide Linked;
      hide Voted;
      hide Rerooted;
      hide Descending;
      hide SlotsMatch;
      hide HeadChosen;
      hide Wrap;
      ghost var before := State();
      VoteKeepsTree(before, v, slotOf);
      ok := CheckVote(v);
      hide Accepts;
      if ok {
        RecordVote(v);
        slotToHash := slotToHash[v.slot := v.blockHash];
        LinkToParent(v);
        UpdateBestHead();
        totalVotes := Wrap(totalVotes + 1);
      }
    }

    /** The part of a vote that concerns the voter: signature, lockout, and the voter's own state. */
    method CheckVote(v: Vote) returns (ok: bool)
      modifies this`validatorStates, this`totalSwitches
      ensures ok == Accepts(old(State()), v)
      ensures validatorStates == if !v.signed then old(validatorStates) else
        old(validatorStates)[v.validator := if ok then Voted(old(State()), v) else Rerooted(old(State()), v)]
      ensures totalSwitches ==
        if ok && Switches(old(State()), v) then Wrap(old(totalSwitches) + 1) else old(totalSwitches)
    {
      if !v.signed { return false; }
      var st := if v.validator in validatorStates then validatorStates[v.validator]
                else NewVoteState(v.validator, rootSlot);
      if v.parentSlot == Some(rootSlot) && v.slot > rootSlot {
        st := st.ResetLockout();
      }
      validatorStates := validatorStates[v.validator := st];
      if v.slot <= st.lastVoteSlot { return false; }
      var isForkSwitch := v.parentSlot != Some(st.lastVoteSlot);
      if isForkSwitch && !st.CanSwitchFork(v.slot) { return false; }
      if isForkSwitch {
        st := st.SwitchFork();
        totalSwitches := Wrap(totalSwitches + 1);
      }
      validatorStates := validatorStates[v.validator := st.Process(v)];
      ok := true;
    }

    /** Find or create the voted node and credit the voter's stake to it once. */
    method RecordVote(v: Vote)
      modifies this`nodes
      ensures nodes == old(nodes)[v.blockHash := Credited(old(nodes), slotToHash, stakes, v)]
    {
      var parentHash := ParentHash(slotToHash, v.parentSlot);
      var node := if v.blockHash in nodes then nodes[v.blockHash]
                  else Node(v.blockHash, v.slot, v.parentSlot, parentHash, 0, [], []);
      if v.validator !in node.voters {
        node := node.(weight := Sat(node.weight + StakeOf(stakes, v.validator)), voters := node.voters + [v.validator]);
      }
      nodes := nodes[v.blockHash := node];
    }

    method LinkToParent(v: Vote)
      modifies this`nodes
      ensures nodes == Linked(old(nodes), slotToHash, v)
    {
      if v.parentSlot.Some? && v.parentSlot.value in slotToHash {
        var p := slotToHash[v.parentSlot.value];
        if p in nodes && v.blockHash !in nodes[p].children {
          nodes := nodes[p := nodes[p].(children := nodes[p].children + [v.blockHash])];
        }
      }
    }
  }
}
