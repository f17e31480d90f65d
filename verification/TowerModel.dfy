/** The tower's state and what each operation does to it, as functions of the state before. */
module TowerModel {
  import opened Bytes
  import opened Wrappers
  import opened Votes

  datatype Node = Node(blockHash: Hash, slot: U64, parentSlot: Option<U64>, parentHash: Option<Hash>, weight: U64,
                       voters: seq<ValidatorId>, children: seq<Hash>)

  datatype TowerState = TowerState(nodes: map<Hash, Node>, validators: map<ValidatorId, VoteState>,
                                   stakes: map<ValidatorId, U64>, slotToHash: map<U64, Hash>, rootSlot: U64,
                                   bestHead: Option<Hash>, totalVotes: U64, totalSwitches: U64)

  const DEFAULT_STAKE: U64 := 1

  /** The block last voted at the parent slot, if any. */
  function ParentHash(slotToHash: map<U64, Hash>, parentSlot: Option<U64>): Option<Hash> {
    if parentSlot.Some? && parentSlot.value in slotToHash then Some(slotToHash[parentSlot.value]) else None
  }

  function Initial(genesis: U64): TowerState {
    TowerState(map[], map[], map[], map[], genesis, None, 0, 0)
  }

  // ---------- registering and counting stake ----------

  function StateOf(s: TowerState, id: ValidatorId): VoteState {
    if id in s.validators then s.validators[id] else NewVoteState(id, s.rootSlot)
  }

  function Registered(s: TowerState, id: ValidatorId, stake: U64): TowerState {
    s.(stakes := s.stakes[id := stake], validators := s.validators[id := StateOf(s, id)])
  }

  function StakeOf(stakes: map<ValidatorId, U64>, id: ValidatorId): U64 {
    if id in stakes then stakes[id] else DEFAULT_STAKE
  }

  /** Everyone whose stake counts: registered validators and those that have a vote state. */
  function Eligible(s: TowerState): set<ValidatorId> {
    s.stakes.Keys + s.validators.Keys
  }

  ghost function StakeSum(stakes: map<ValidatorId, U64>, ids: set<ValidatorId>): nat {
    if ids == {} then 0
    else
      var id :| id in ids;
      StakeOf(stakes, id) + StakeSum(stakes, ids - {id})
  }

  ghost function TotalStake(s: TowerState): U64 {
    Sat(StakeSum(s.stakes, Eligible(s)))
  }

  /** Strictly more than two thirds, compared in saturating arithmetic. */
  predicate Supermajority(weight: U64, total: U64) {
    total != 0 && Sat(weight * 3) > Sat(total * 2)
  }

  ghost predicate Confirmed(s: TowerState, slot: U64, h: Hash) {
    h in s.nodes && s.nodes[h].slot == slot && Supermajority(s.nodes[h].weight, TotalStake(s))
  }

  // ---------- voting ----------

  /** The voter's state once a vote built straight on the root has reset its lockout. */
  function Rerooted(s: TowerState, v: Vote): VoteState {
    var st := StateOf(s, v.validator);
    if v.parentSlot == Some(s.rootSlot) && v.slot > s.rootSlot then st.ResetLockout() else st
  }

  predicate Switches(s: TowerState, v: Vote) {
    v.parentSlot != Some(Rerooted(s, v).lastVoteSlot)
  }

  predicate Accepts(s: TowerState, v: Vote) {
    var st := Rerooted(s, v);
    v.signed && v.slot > st.lastVoteSlot && (Switches(s, v) ==> st.CanSwitchFork(v.slot))
  }

  function Voted(s: TowerState, v: Vote): VoteState {
    var st := Rerooted(s, v);
    (if Switches(s, v) then st.SwitchFork() else st).Process(v)
  }

  /** The voted node with the voter's stake added, unless that voter is already counted there. */
  function Credited(nodes: map<Hash, Node>, slotToHash: map<U64, Hash>, stakes: map<ValidatorId, U64>, v: Vote): Node {
    var n := if v.blockHash in nodes then nodes[v.blockHash]
             else Node(v.blockHash, v.slot, v.parentSlot, ParentHash(slotToHash, v.parentSlot), 0, [], []);
    if v.validator in n.voters then n
    else n.(weight := Sat(n.weight + StakeOf(stakes, v.validator)), voters := n.voters + [v.validator])
  }

  /** Add the voted block to the children of its parent, if the parent is known. */
  function Linked(nodes: map<Hash, Node>, slotToHash: map<U64, Hash>, v: Vote): map<Hash, Node> {
    if v.parentSlot.None? || v.parentSlot.value !in slotToHash then nodes
    else
      var p := slotToHash[v.parentSlot.value];
      if p !in nodes || v.blockHash in nodes[p].children then nodes
      else nodes[p := nodes[p].(children := nodes[p].children + [v.blockHash])]
  }

  /** The state after a vote, before the best head is chosen again. */
  function AfterVote(s: TowerState, v: Vote): TowerState {
    if !v.signed then s
    else if !Accepts(s, v) then s.(validators := s.validators[v.validator := Rerooted(s, v)])
    else
      var slotToHash := s.slotToHash[v.slot := v.blockHash];
      s.(validators := s.validators[v.validator := Voted(s, v)],
         nodes := Linked(s.nodes[v.blockHash := Credited(s.nodes, s.slotToHash, s.stakes, v)], slotToHash, v),
         slotToHash := slotToHash,
         totalVotes := Wrap(s.totalVotes + 1),
         totalSwitches := if Switches(s, v) then Wrap(s.totalSwitches + 1) else s.totalSwitches)
  }

  // ---------- advancing the root ----------

  function Settled(st: VoteState, root: U64): VoteState {
    var st := st.UpdateRoot(root);
    if st.lastVoteSlot <= root then st.ResetLockout() else st
  }

  function AfterAdvance(s: TowerState, root: U64): TowerState {
    s.(rootSlot := root,
       validators := map id | id in s.validators :: Settled(s.validators[id], root),
       nodes := map h | h in s.nodes && s.nodes[h].slot >= root :: s.nodes[h],
       slotToHash := map slot | slot in s.slotToHash && slot >= root :: s.slotToHash[slot])
  }

  // ---------- runs ----------

  datatype Event = Register(id: ValidatorId, stake: U64) | Cast(vote: Vote) | Advance(root: U64)

  function After(s: TowerState, e: Event): TowerState {
    match e
    case Register(id, stake) => Registered(s, id, stake)
    case Cast(v) => AfterVote(s, v)
    case Advance(root) => AfterAdvance(s, root)
  }

  /** One step; which of several equally good heads is chosen is left open. */
  predicate Next(s: TowerState, e: Event, s': TowerState) {
    s'.(bestHead := None) == After(s, e).(bestHead := None)
  }

  predicate IsRun(states: seq<TowerState>, events: seq<Event>) {
    |states| == |events| + 1 && forall i :: 0 <= i < |events| ==> Next(states[i], events[i], states[i + 1])
  }

  // ---------- supermajorities ----------

  /** Strictly more than two thirds of the total, which has to be neither 0 nor at least half of the 64-bit
  range, where the doubled total saturates. */
  lemma SupermajorityExact(weight: U64, total: U64)
    ensures Supermajority(weight, total) <==> 0 < 2 * total < 3 * weight && 2 * total < U64_LIMIT - 1
  {
  }

  // ---------- lockout ----------

  lemma {:induction false} Pow2Cap(n: nat)
    requires n <= LOCKOUT_CAP
    ensures 1 <= Pow2(n) <= Pow2(LOCKOUT_CAP)
  {
    Pow2Mono(n, LOCKOUT_CAP);
  }

  lemma {:induction false} Pow2Mono(n: nat, m: nat)
    requires n <= m
    ensures 1 <= Pow2(n) <= Pow2(m)
    decreases m
  {
    if n < m { Pow2Mono(n, m - 1); } else if m > 0 { Pow2Mono(n - 1, m - 1); }
  }

  lemma Pow2Zero()
    ensures Pow2(0) == 1
  {
  }

  lemma LockoutBounds(st: VoteState)
    ensures 1 <= st.LockoutSlots() <= Pow2(LOCKOUT_CAP) && st.ResetLockout().LockoutSlots() == 1
  {
    hide Pow2;
    Pow2Cap(if st.consecutiveVotes < LOCKOUT_CAP then st.consecutiveVotes else LOCKOUT_CAP);
    Pow2Zero();
  }

  lemma Pow2CapValue()
    ensures Pow2(LOCKOUT_CAP) == 0x8000_0000
  {
    assert Pow2(8) == 0x100;
    assert Pow2(16) == 0x1_0000;
    assert Pow2(24) == 0x100_0000;
  }

  /** A later slot passes the check when the lockout has run out, and also when its end lies past the
  largest slot, since the addition wraps around. */
  lemma SwitchExact(st: VoteState, slot: U64)
    requires slot > st.lastVoteSlot
    ensures var end := st.lastVoteSlot + st.LockoutSlots();
      st.CanSwitchFork(slot) <==> slot >= end || end >= U64_LIMIT
  {
    LockoutBounds(st);
    Pow2CapValue();
    hide Pow2;
    hide Wrap;
    var end := st.lastVoteSlot + st.LockoutSlots();
    if end < U64_LIMIT { WrapSmall(end); } else { WrapOver(end); }
  }

  /** Exactly which votes pass: signed, later than the last one, and extending it, built on the root,
  outside the lockout, or with a lockout that would end past the largest slot. A vote built on the root
  is never held back by the lockout. */
  lemma LockoutExact(s: TowerState, v: Vote)
    ensures var st := StateOf(s, v.validator);
      var end := st.lastVoteSlot + st.LockoutSlots();
      Accepts(s, v) <==>
      && v.signed
      && v.slot > st.lastVoteSlot
      && (|| v.parentSlot == Some(st.lastVoteSlot)
          || (v.parentSlot == Some(s.rootSlot) && v.slot > s.rootSlot)
          || v.slot >= end
          || end >= U64_LIMIT)
  {
    hide StateOf;
    var st := StateOf(s, v.validator);
    LockoutBounds(st);
    hide Pow2;
    if v.slot > st.lastVoteSlot {
      SwitchExact(st, v.slot);
      SwitchExact(st.ResetLockout(), v.slot);
    }
  }

  // ---------- vote histories ----------

  ghost predicate HistoriesOk(s: TowerState) {
    forall id :: id in s.validators ==> HistoryOk(s.validators[id])
  }

  lemma VoteKeepsHistories(s: TowerState, v: Vote)
    requires HistoriesOk(s)
    ensures HistoriesOk(AfterVote(s, v))
  {
    var st := Rerooted(s, v);
    assert HistoryOk(st);
    if Accepts(s, v) {
      ProcessKeepsHistory(if Switches(s, v) then st.SwitchFork() else st, v);
      assert HistoryOk(Voted(s, v));
    }
    hide HistoryOk;
    hide Rerooted;
    hide Voted;
    hide Accepts;
  }

  lemma AdvanceKeepsHistories(s: TowerState, root: U64)
    requires HistoriesOk(s)
    ensures HistoriesOk(AfterAdvance(s, root))
  {
    forall id | id in s.validators ensures HistoryOk(Settled(s.validators[id], root)) {
      UpdateKeepsHistory(s.validators[id], root);
    }
    hide HistoryOk;
    hide Settled;
  }

  /** In every state of every run, every validator's history is a strictly ascending list of at most 32
  votes, none after its last one. */
  lemma {:induction false} RunKeepsHistories(states: seq<TowerState>, events: seq<Event>, n: nat)
    requires IsRun(states, events) && n <= |events| && HistoriesOk(states[0])
    ensures HistoriesOk(states[n])
  {
    if n > 0 {
      RunKeepsHistories(states, events, n - 1);
      var s, e, s' := states[n - 1], events[n - 1], states[n];
      assert Next(s, e, s');
      match e {
        case Register(id, _) => assert HistoryOk(NewVoteState(id, s.rootSlot));
        case Cast(v) => VoteKeepsHistories(s, v);
        case Advance(root) => AdvanceKeepsHistories(s, root);
      }
      assert s'.validators == After(s, e).validators;
    }
  }
}
