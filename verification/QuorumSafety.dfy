/** No run of the tower confirms two different blocks at one slot. */
module QuorumSafety {
  import opened Bytes
  import opened Wrappers
  import opened Votes
  import opened TowerModel

  // ---------- sums of stake ----------

  lemma {:induction false} StakeSumRemove(stakes: map<ValidatorId, U64>, ids: set<ValidatorId>, id: ValidatorId)
    requires id in ids
    ensures StakeSum(stakes, ids) == StakeOf(stakes, id) + StakeSum(stakes, ids - {id})
    decreases ids
  {
    var j :| j in ids && StakeSum(stakes, ids) == StakeOf(stakes, j) + StakeSum(stakes, ids - {j});
    if j != id {
      StakeSumRemove(stakes, ids - {j}, id);
      StakeSumRemove(stakes, ids - {id}, j);
      assert ids - {j} - {id} == ids - {id} - {j};
    }
  }

  lemma StakeSumAdd(stakes: map<ValidatorId, U64>, ids: set<ValidatorId>, id: ValidatorId)
    requires id !in ids
    ensures StakeSum(stakes, ids + {id}) == StakeSum(stakes, ids) + StakeOf(stakes, id)
  {
    StakeSumRemove(stakes, ids + {id}, id);
    assert ids + {id} - {id} == ids;
  }

  lemma {:induction false} StakeSumDisjoint(stakes: map<ValidatorId, U64>, a: set<ValidatorId>, b: set<ValidatorId>)
    requires a !! b
    ensures StakeSum(stakes, a + b) == StakeSum(stakes, a) + StakeSum(stakes, b)
    decreases a
  {
    if a == {} {
      assert a + b == b;
    } else {
      var id :| id in a;
      StakeSumRemove(stakes, a, id);
      StakeSumRemove(stakes, a + b, id);
      assert a + b - {id} == (a - {id}) + b;
      StakeSumDisjoint(stakes, a - {id}, b);
    }
  }

  lemma StakeSumSubset(stakes: map<ValidatorId, U64>, a: set<ValidatorId>, all: set<ValidatorId>)
    requires a <= all
    ensures StakeSum(stakes, a) <= StakeSum(stakes, all)
  {
    StakeSumDisjoint(stakes, a, all - a);
    assert a + (all - a) == all;
  }

  /** Two supermajorities of one electorate share a voter, however the sums saturate. */
  lemma QuorumsMeet(stakes: map<ValidatorId, U64>, all: set<ValidatorId>, a: set<ValidatorId>, b: set<ValidatorId>)
    requires a <= all && b <= all
    requires Supermajority(Sat(StakeSum(stakes, a)), Sat(StakeSum(stakes, all)))
    requires Supermajority(Sat(StakeSum(stakes, b)), Sat(StakeSum(stakes, all)))
    ensures exists id :: id in a && id in b
  {
    if forall id :: id in a ==> id !in b {
      StakeSumDisjoint(stakes, a, b);
      StakeSumSubset(stakes, a + b, all);
    }
  }

  // ---------- what every run keeps ----------

  function Members(voters: seq<ValidatorId>): set<ValidatorId> {
    set id | id in voters
  }

  type Ballots = set<(ValidatorId, Hash)>

  ghost predicate NodeOk(s: TowerState, h: Hash, slotOf: Hash -> U64, ballots: Ballots)
    requires h in s.nodes
  {
    var n := s.nodes[h];
    && n.slot == slotOf(h)
    && n.weight == Sat(StakeSum(s.stakes, Members(n.voters)))
    && (forall id :: id in n.voters ==> (id, h) in ballots && id in s.validators)
  }

  ghost predicate BallotsOk(s: TowerState, slotOf: Hash -> U64, ballots: Ballots) {
    && (forall id, h :: (id, h) in ballots ==> id in s.validators && slotOf(h) <= s.validators[id].lastVoteSlot)
    && OneBallotPerSlot(slotOf, ballots)
  }

  ghost predicate OneBallotPerSlot(slotOf: Hash -> U64, ballots: Ballots) {
    forall id, g, h :: (id, g) in ballots && (id, h) in ballots && slotOf(g) == slotOf(h) ==> g == h
  }

  ghost predicate Inv(s: TowerState, slotOf: Hash -> U64, ballots: Ballots) {
    BallotsOk(s, slotOf, ballots) && forall h :: h in s.nodes ==> NodeOk(s, h, slotOf, ballots)
  }

  /** The ballots accepted so far. */
  function Polled(s: TowerState, e: Event, ballots: Ballots): Ballots {
    if e.Cast? && Accepts(s, e.vote) then ballots + {(e.vote.validator, e.vote.blockHash)} else ballots
  }

  /** An accepted vote names the slot its block hash belongs to, and a registration repeats the stake
  already recorded. Forged and refused votes may say anything. */
  ghost predicate Proper(s: TowerState, e: Event, slotOf: Hash -> U64) {
    match e
    case Register(id, stake) => id in s.stakes && s.stakes[id] == stake
    case Cast(v) => SlotRight(s, v, slotOf)
    case Advance(_) => true
  }

  ghost predicate SlotRight(s: TowerState, v: Vote, slotOf: Hash -> U64) {
    Accepts(s, v) ==> v.slot == slotOf(v.blockHash)
  }

  lemma VoteKeepsBallots(s: TowerState, v: Vote, slotOf: Hash -> U64, ballots: Ballots)
    requires BallotsOk(s, slotOf, ballots) && SlotRight(s, v, slotOf)
    ensures BallotsOk(AfterVote(s, v), slotOf, Polled(s, Cast(v), ballots))
  {
    hide Linked;
    hide Credited;
    hide OneBallotPerSlot;
    var more := Polled(s, Cast(v), ballots);
    assert OneBallotPerSlot(slotOf, more) by {
      NewBallotIsLater(s, v, slotOf, ballots);
    }
  }

  lemma NewBallotIsLater(s: TowerState, v: Vote, slotOf: Hash -> U64, ballots: Ballots)
    requires BallotsOk(s, slotOf, ballots) && SlotRight(s, v, slotOf)
    ensures OneBallotPerSlot(slotOf, Polled(s, Cast(v), ballots))
  {
  }

  /** Linking a child changes nothing but the children lists. */
  lemma LinkedFrame(nodes: map<Hash, Node>, slotToHash: map<U64, Hash>, v: Vote)
    ensures var linked := Linked(nodes, slotToHash, v);
      linked.Keys == nodes.Keys && forall h :: h in nodes ==> linked[h].(children := []) == nodes[h].(children := [])
  {
  }

  lemma CreditedOk(s: TowerState, v: Vote, slotOf: Hash -> U64, ballots: Ballots)
    requires Inv(s, slotOf, ballots) && v.slot == slotOf(v.blockHash)
    ensures var n := Credited(s.nodes, s.slotToHash, s.stakes, v);
      && n.slot == slotOf(v.blockHash)
      && n.weight == Sat(StakeSum(s.stakes, Members(n.voters)))
      && (forall id :: id in n.voters ==> id == v.validator || ((id, v.blockHash) in ballots && id in s.validators))
  {
    hide BallotsOk;
    var voters := if v.blockHash in s.nodes then s.nodes[v.blockHash].voters else [];
    if v.validator !in voters {
      StakeSumAdd(s.stakes, Members(voters), v.validator);
      assert Members(voters + [v.validator]) == Members(voters) + {v.validator};
    }
  }

  /** What a vote does to the nodes, child lists aside. */
  lemma VoteNodes(s: TowerState, v: Vote)
    ensures var t := AfterVote(s, v);
      && t.stakes == s.stakes
      && s.validators.Keys <= t.validators.Keys
      && (forall h :: h in t.nodes && !(Accepts(s, v) && h == v.blockHash) ==>
            h in s.nodes && t.nodes[h].(children := []) == s.nodes[h].(children := []))
      && (Accepts(s, v) ==> v.validator in t.validators && v.blockHash in t.nodes)
      && (Accepts(s, v) ==> t.nodes[v.blockHash].(children := []) == Credited(s.nodes, s.slotToHash, s.stakes, v).(children := []))
  {
    hide Credited;
    hide Rerooted;
    hide Voted;
    if Accepts(s, v) {
      LinkedFrame(s.nodes[v.blockHash := Credited(s.nodes, s.slotToHash, s.stakes, v)], s.slotToHash[v.slot := v.blockHash], v);
      hide Linked;
    }
  }

  lemma VoteKeepsNode(s: TowerState, v: Vote, slotOf: Hash -> U64, ballots: Ballots, h: Hash)
    requires Inv(s, slotOf, ballots) && SlotRight(s, v, slotOf)
    requires h in AfterVote(s, v).nodes
    ensures NodeOk(AfterVote(s, v), h, slotOf, Polled(s, Cast(v), ballots))
  {
    hide BallotsOk;
    hide AfterVote;
    hide Accepts;
    VoteNodes(s, v);
    if Accepts(s, v) { CreditedOk(s, v, slotOf, ballots); }
    hide Credited;
    assert h in s.nodes ==> NodeOk(s, h, slotOf, ballots);
    hide StakeSum;
  }

  lemma AdvanceKeeps(s: TowerState, root: U64, slotOf: Hash -> U64, ballots: Ballots)
    requires Inv(s, slotOf, ballots)
    ensures Inv(AfterAdvance(s, root), slotOf, ballots)
  {
    var s' := AfterAdvance(s, root);
    forall h | h in s'.nodes ensures NodeOk(s', h, slotOf, ballots) {
      assert NodeOk(s, h, slotOf, ballots);
    }
  }

  lemma RegisterKeeps(s: TowerState, id: ValidatorId, stake: U64, slotOf: Hash -> U64, ballots: Ballots)
    requires Inv(s, slotOf, ballots) && id in s.stakes && s.stakes[id] == stake
    ensures Registered(s, id, stake).stakes == s.stakes && Inv(Registered(s, id, stake), slotOf, ballots)
  {
    var t := Registered(s, id, stake);
    assert t.stakes == s.stakes;
    forall h | h in t.nodes ensures NodeOk(t, h, slotOf, ballots) {
      assert NodeOk(s, h, slotOf, ballots);
    }
  }

  lemma StepKeeps(s: TowerState, e: Event, s': TowerState, slotOf: Hash -> U64, ballots: Ballots)
    requires Inv(s, slotOf, ballots) && Proper(s, e, slotOf) && Next(s, e, s')
    ensures Inv(s', slotOf, Polled(s, e, ballots))
    ensures s'.stakes == s.stakes
  {
    var t := After(s, e);
    match e {
      case Register(id, stake) =>
        RegisterKeeps(s, id, stake, slotOf, ballots);
      case Advance(root) =>
        AdvanceKeeps(s, root, slotOf, ballots);
      case Cast(v) =>
        VoteKeepsBallots(s, v, slotOf, ballots);
        forall h | h in t.nodes ensures NodeOk(t, h, slotOf, Polled(s, e, ballots)) {
          VoteKeepsNode(s, v, slotOf, ballots, h);
        }
    }
    SameButHead(t, s', slotOf, Polled(s, e, ballots));
  }

  lemma SameButHead(t: TowerState, s': TowerState, slotOf: Hash -> U64, ballots: Ballots)
    requires Inv(t, slotOf, ballots) && s'.(bestHead := None) == t.(bestHead := None)
    ensures Inv(s', slotOf, ballots)
  {
    assert s'.nodes == t.nodes && s'.validators == t.validators && s'.stakes == t.stakes;
    forall h | h in s'.nodes ensures NodeOk(s', h, slotOf, ballots) {
      assert NodeOk(t, h, slotOf, ballots);
    }
  }

  // ---------- whole runs ----------

  ghost predicate AllProper(states: seq<TowerState>, events: seq<Event>, slotOf: Hash -> U64)
    requires |states| == |events| + 1
  {
    forall i :: 0 <= i < |events| ==> Proper(states[i], events[i], slotOf)
  }

  /** The ballots accepted in the first n steps. */
  function BallotBox(states: seq<TowerState>, events: seq<Event>, n: nat): Ballots
    requires |states| == |events| + 1 && n <= |events|
  {
    if n == 0 then {} else Polled(states[n - 1], events[n - 1], BallotBox(states, events, n - 1))
  }

  lemma {:induction false} RunKeeps(states: seq<TowerState>, events: seq<Event>, slotOf: Hash -> U64, n: nat)
    requires IsRun(states, events) && AllProper(states, events, slotOf) && n <= |events|
    requires states[0].nodes == map[]
    ensures Inv(states[n], slotOf, BallotBox(states, events, n))
    ensures states[n].stakes == states[0].stakes
  {
    if n > 0 {
      RunKeeps(states, events, slotOf, n - 1);
      StepKeeps(states[n - 1], events[n - 1], states[n], slotOf, BallotBox(states, events, n - 1));
    }
  }

  lemma {:induction false} BallotsGrow(states: seq<TowerState>, events: seq<Event>, i: nat, j: nat)
    requires |states| == |events| + 1 && i <= j <= |events|
    ensures BallotBox(states, events, i) <= BallotBox(states, events, j)
  {
    if i < j {
      BallotsGrow(states, events, i, j - 1);
    }
  }

  /** Every accepted vote is cast by a validator that was registered before the first one. */
  ghost predicate VotersRegistered(states: seq<TowerState>, events: seq<Event>, stakes: map<ValidatorId, U64>)
    requires |states| == |events| + 1
  {
    forall i :: 0 <= i < |events| && events[i].Cast? && Accepts(states[i], events[i].vote) ==>
      events[i].vote.validator in stakes
  }

  ghost predicate CastBy(ballots: Ballots, ids: set<ValidatorId>) {
    forall id, h :: (id, h) in ballots ==> id in ids
  }

  lemma {:induction false} BallotsRegistered(states: seq<TowerState>, events: seq<Event>, n: nat)
    requires |states| == |events| + 1 && n <= |events| && VotersRegistered(states, events, states[0].stakes)
    ensures CastBy(BallotBox(states, events, n), states[0].stakes.Keys)
  {
    hide Accepts;
    if n > 0 {
      BallotsRegistered(states, events, n - 1);
    }
  }

  /** A supermajority of a larger electorate is one of a smaller electorate that holds all its voters. */
  lemma SmallerElectorate(stakes: map<ValidatorId, U64>, voters: set<ValidatorId>, ids: set<ValidatorId>, all: set<ValidatorId>)
    requires voters <= ids <= all
    requires Supermajority(Sat(StakeSum(stakes, voters)), Sat(StakeSum(stakes, all)))
    ensures Supermajority(Sat(StakeSum(stakes, voters)), Sat(StakeSum(stakes, ids)))
  {
    StakeSumSubset(stakes, voters, ids);
    StakeSumSubset(stakes, ids, all);
  }

  /** Two blocks at one slot with supermajorities made of one group of voters are the same block. */
  lemma OneBlock(s: TowerState, t: TowerState, slotOf: Hash -> U64, early: Ballots, late: Ballots, slot: U64,
                 g: Hash, h: Hash, ids: set<ValidatorId>)
    requires Inv(s, slotOf, early) && Inv(t, slotOf, late) && early <= late && CastBy(late, ids)
    requires s.stakes == t.stakes && ids <= Eligible(s) && ids <= Eligible(t)
    requires Confirmed(s, slot, g) && Confirmed(t, slot, h)
    ensures g == h
  {
    var a, b := Members(s.nodes[g].voters), Members(t.nodes[h].voters);
    assert NodeOk(s, g, slotOf, early) && NodeOk(t, h, slotOf, late);
    assert a <= ids && b <= ids;
    SmallerElectorate(s.stakes, a, ids, Eligible(s));
    SmallerElectorate(s.stakes, b, ids, Eligible(t));
    QuorumsMeet(s.stakes, ids, a, b);
    var id :| id in a && id in b;
    assert (id, g) in late && (id, h) in late;
  }

  /** If stakes are fixed before the first vote, every accepted vote comes from a registered validator and
  names the slot of its block hash, no two blocks are ever confirmed at one slot, at the same time or at
  different times of a run; forged and refused votes of anyone may be among the events. */
  lemma NeverTwoConfirmed(states: seq<TowerState>, events: seq<Event>, slotOf: Hash -> U64, slot: U64,
                          i: nat, g: Hash, j: nat, h: Hash)
    requires IsRun(states, events) && AllProper(states, events, slotOf) && states[0].nodes == map[]
    requires VotersRegistered(states, events, states[0].stakes)
    requires i <= |events| && j <= |events|
    requires Confirmed(states[i], slot, g) && Confirmed(states[j], slot, h)
    ensures g == h
  {
    hide Confirmed;
    hide Inv;
    RunKeeps(states, events, slotOf, i);
    RunKeeps(states, events, slotOf, j);
    BallotsRegistered(states, events, i);
    BallotsRegistered(states, events, j);
    var bi, bj, ids := BallotBox(states, events, i), BallotBox(states, events, j), states[0].stakes.Keys;
    if i <= j {
      BallotsGrow(states, events, i, j);
      OneBlock(states[i], states[j], slotOf, bi, bj, slot, g, h, ids);
    } else {
      BallotsGrow(states, events, j, i);
      OneBlock(states[j], states[i], slotOf, bj, bi, slot, h, g, ids);
    }
  }

  /** At any one time the same holds even when unregistered validators vote. */
  lemma OneConfirmedPerState(states: seq<TowerState>, events: seq<Event>, slotOf: Hash -> U64, slot: U64,
                             i: nat, g: Hash, h: Hash)
    requires IsRun(states, events) && AllProper(states, events, slotOf)
    requires states[0].nodes == map[]
    requires i <= |events|
    requires Confirmed(states[i], slot, g) && Confirmed(states[i], slot, h)
    ensures g == h
  {
    RunKeeps(states, events, slotOf, i);
    var ballots := BallotBox(states, events, i);
    OneBlock(states[i], states[i], slotOf, ballots, ballots, slot, g, h, states[i].validators.Keys);
  }

  // ---------- the hypotheses ----------

  function RegisterAll(s: TowerState, entries: seq<(ValidatorId, U64)>): TowerState
    decreases |entries|
  {
    if entries == [] then s else RegisterAll(Registered(s, entries[0].0, entries[0].1), entries[1..])
  }

  /** Registering any list of validators with an unused tower meets the hypotheses on the first state:
  no block is recorded and everyone listed is registered. */
  lemma {:induction false} RegistrationSetsUp(s: TowerState, entries: seq<(ValidatorId, U64)>)
    ensures var t := RegisterAll(s, entries);
      && t.nodes == s.nodes && s.stakes.Keys <= t.stakes.Keys
      && forall i :: 0 <= i < |entries| ==> entries[i].0 in t.stakes
    decreases |entries|
  {
    if entries != [] {
      RegistrationSetsUp(Registered(s, entries[0].0, entries[0].1), entries[1..]);
      assert forall i :: 0 < i < |entries| ==> entries[i] == entries[1..][i - 1];
    }
  }
}
