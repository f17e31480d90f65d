/** Why the laws of the tower need their hypotheses: concrete runs for which they fail. */
module TowerCaveats {
  import opened Bytes
  import opened Wrappers
  import opened Votes
  import opened TowerModel
  import opened QuorumSafety

  /** A validator's first vote is accepted at any slot but 0. */
  lemma FirstVoteAccepted(s: TowerState, v: Vote)
    requires v.signed && v.slot > 0 && StateOf(s, v.validator) == NewVoteState(v.validator, s.rootSlot)
    ensures Accepts(s, v)
  {
    assert Pow2(0) == 1;
  }

  /** Slots, stakes and nodes after an accepted vote. */
  lemma VoteEffect(s: TowerState, v: Vote)
    requires Accepts(s, v)
    ensures var t := AfterVote(s, v);
      && t.slotToHash == s.slotToHash[v.slot := v.blockHash]
      && t.nodes.Keys == s.nodes.Keys + {v.blockHash}
      && t.validators.Keys == s.validators.Keys + {v.validator}
      && t.rootSlot == s.rootSlot && t.stakes == s.stakes
  {
    hide Credited;
    hide Voted;
    LinkedFrame(s.nodes[v.blockHash := Credited(s.nodes, s.slotToHash, s.stakes, v)],
                s.slotToHash[v.slot := v.blockHash], v);
  }

  // ---------- registering late ----------

  const A_VOTE := Vote(1, 1, 10, None, 0, true)
  const B_VOTE := Vote(2, 1, 20, None, 0, true)

  function OneStake(): TowerState { Registered(Initial(0), 1, 1) }

  function AVoted(): TowerState { AfterVote(OneStake(), A_VOTE) }

  function LateStake(): TowerState { Registered(AVoted(), 2, 100) }

  function BVoted(): TowerState { AfterVote(LateStake(), B_VOTE) }

  /** A validator registered after a block was confirmed can have another block confirmed at the same
  slot, so the electorate has to be fixed first. */
  lemma LateRegistrationForks()
    ensures Confirmed(AVoted(), 1, 10) && Confirmed(BVoted(), 1, 20)
  {
    hide AfterVote;
    hide Accepts;
    FirstVoteAccepted(OneStake(), A_VOTE);
    VoteEffect(OneStake(), A_VOTE);
    VoteNodes(OneStake(), A_VOTE);
    StakeSumAdd(AVoted().stakes, {}, 1);
    assert Eligible(AVoted()) == {} + {1};
    FirstVoteAccepted(LateStake(), B_VOTE);
    VoteEffect(LateStake(), B_VOTE);
    VoteNodes(LateStake(), B_VOTE);
    StakeSumAdd(BVoted().stakes, {}, 1);
    StakeSumAdd(BVoted().stakes, {} + {1}, 2);
    assert Eligible(BVoted()) == {} + {1} + {2};
  }

  // ---------- voting one hash under two slots ----------

  const A_AT_5 := Vote(1, 5, 10, None, 0, true)
  const B_AT_6 := Vote(2, 6, 20, Some(5), 0, true)
  const A_AT_7 := Vote(3, 7, 10, Some(6), 0, true)

  function Pruned(): TowerState {
    AfterAdvance(AfterVote(AfterVote(Initial(0), A_AT_5), B_AT_6), 6)
  }

  /** Block 10 is pruned while block 20 still names it as parent. */
  lemma PrunedParent()
    ensures var s := Pruned();
      && 10 !in s.nodes && 20 in s.nodes && s.nodes[20].parentHash == Some(10)
      && 6 in s.slotToHash && s.slotToHash[6] == 20 && 3 !in s.validators
  {
    hide AfterVote;
    hide Accepts;
    var s0 := Initial(0);
    FirstVoteAccepted(s0, A_AT_5);
    VoteEffect(s0, A_AT_5);
    VoteNodes(s0, A_AT_5);
    var s1 := AfterVote(s0, A_AT_5);
    FirstVoteAccepted(s1, B_AT_6);
    VoteEffect(s1, B_AT_6);
    VoteNodes(s1, B_AT_6);
  }

  /** Voting a pruned hash again under a later slot, on top of its own child, closes a cycle of parent
  links on which summing a chain would not end; so a hash has to fix its slot. */
  lemma ReusedHashClosesCycle()
    ensures var s := AfterVote(Pruned(), A_AT_7);
      && 10 in s.nodes && s.nodes[10].parentHash == Some(20)
      && 20 in s.nodes && s.nodes[20].parentHash == Some(10)
  {
    hide AfterVote;
    hide Accepts;
    hide Pruned;
    PrunedParent();
    FirstVoteAccepted(Pruned(), A_AT_7);
    VoteEffect(Pruned(), A_AT_7);
    VoteNodes(Pruned(), A_AT_7);
  }
}
