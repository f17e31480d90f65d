/** The tower as its history determines it: every field of every voter's state, and every entry of the vote
tree, in terms of which votes were accepted and where the root moved. */
module TowerHistory {
  import opened Bytes
  import opened Wrappers
  import opened Votes
  import opened TowerModel

  datatype Run = Run(genesis: U64, states: seq<TowerState>, events: seq<Event>) {
    /** A run from a new tower. */
    ghost predicate Ok() { IsRun(states, events) && states[0] == Initial(genesis) }
  }

  // ---------- reading the events ----------

  predicate Accepted(r: Run, i: nat) {
    i < |r.events| && i < |r.states| && r.events[i].Cast? && Accepts(r.states[i], r.events[i].vote)
  }

  predicate VotedBy(r: Run, id: ValidatorId, i: nat) {
    Accepted(r, i) && r.events[i].vote.validator == id
  }

  function RootAt(r: Run, n: nat): U64
    requires n <= |r.events|
  {
    if n == 0 then r.genesis else if r.events[n - 1].Advance? then r.events[n - 1].root else RootAt(r, n - 1)
  }

  /** The slot and hash of the voter's last accepted vote. */
  function LastVote(r: Run, id: ValidatorId, n: nat): (U64, Hash)
    requires n <= |r.events|
  {
    if n == 0 then (0, ZERO_HASH)
    else if VotedBy(r, id, n - 1) then (r.events[n - 1].vote.slot, r.events[n - 1].vote.blockHash)
    else LastVote(r, id, n - 1)
  }

  /** How many of the voter's votes from lo to hi were accepted. */
  function Count(r: Run, id: ValidatorId, lo: nat, hi: nat): nat {
    if hi <= lo then 0 else Count(r, id, lo, hi - 1) + if VotedBy(r, id, hi - 1) then 1 else 0
  }

  /** A signed vote of the voter, accepted or not, built on the root; or a root that reaches its last vote. */
  predicate Clears(r: Run, id: ValidatorId, i: nat)
    requires i < |r.events|
  {
    match r.events[i]
    case Register(_, _) => false
    case Cast(v) => v.validator == id && v.signed && v.parentSlot == Some(RootAt(r, i)) && v.slot > RootAt(r, i)
    case Advance(root) => LastVote(r, id, i).0 <= root
  }

  /** An accepted vote that does not extend the voter's last one. */
  predicate SwitchesAt(r: Run, id: ValidatorId, i: nat)
    requires i < |r.events|
  {
    VotedBy(r, id, i) && r.events[i].vote.parentSlot != Some(LastVote(r, id, i).0)
  }

  predicate Resets(r: Run, id: ValidatorId, i: nat)
    requires i < |r.events|
  {
    Clears(r, id, i) || SwitchesAt(r, id, i)
  }

  // ---------- a voter's counters ----------

  function Streak(r: Run, id: ValidatorId, n: nat): nat
    requires n <= |r.events|
  {
    if n == 0 then 0
    else (if Resets(r, id, n - 1) then 0 else Streak(r, id, n - 1)) + if VotedBy(r, id, n - 1) then 1 else 0
  }

  function Doublings(r: Run, id: ValidatorId, n: nat): nat
    requires n <= |r.events|
  {
    if n == 0 then 0
    else (if Clears(r, id, n - 1) then 0 else Doublings(r, id, n - 1)) + if SwitchesAt(r, id, n - 1) then 1 else 0
  }

  ghost predicate CountersAre(r: Run, id: ValidatorId, n: nat)
    requires n <= |r.events| && n < |r.states|
  {
    var st := StateOf(r.states[n], id);
    && r.states[n].rootSlot == RootAt(r, n)
    && st.validator == id && st.rootSlot == RootAt(r, n)
    && st.lastVoteSlot == LastVote(r, id, n).0 && st.lastVoteHash == LastVote(r, id, n).1
    && st.consecutiveVotes == Streak(r, id, n) <= st.lastVoteSlot
    && st.totalVotes == Count(r, id, 0, n) <= st.lastVoteSlot
    && st.lockoutMultiplier == Sat(Pow2(Doublings(r, id, n)))
  }

  lemma SatDoubles(n: nat)
    ensures Sat(Sat(Pow2(n)) * 2) == Sat(Pow2(n + 1))
  {
  }

  /** What an event does to a voter, known or new. */
  function VoterAfter(s: TowerState, e: Event, id: ValidatorId): VoteState {
    match e
    case Register(_, _) => StateOf(s, id)
    case Cast(v) =>
      if v.validator != id || !v.signed then StateOf(s, id) else if Accepts(s, v) then Voted(s, v) else Rerooted(s, v)
    case Advance(root) => Settled(StateOf(s, id), root)
  }

  lemma NextVoter(s: TowerState, e: Event, s': TowerState, id: ValidatorId)
    requires Next(s, e, s')
    ensures StateOf(s', id) == VoterAfter(s, e, id)
    ensures s'.rootSlot == if e.Advance? then e.root else s.rootSlot
  {
    assert s'.validators == After(s, e).validators && s'.rootSlot == After(s, e).rootSlot;
    hide Voted;
    hide Accepts;
    hide Rerooted;
    hide Credited;
    hide Linked;
    hide Wrap;
  }

  /** The voter's own signed vote, accepted or not. */
  lemma VoteCounters(r: Run, id: ValidatorId, n: nat, v: Vote)
    requires n < |r.events| && n + 1 < |r.states| && CountersAre(r, id, n)
    requires r.events[n] == Cast(v) && v.validator == id && v.signed
    requires StateOf(r.states[n + 1], id) == VoterAfter(r.states[n], r.events[n], id)
    requires r.states[n + 1].rootSlot == r.states[n].rootSlot
    ensures CountersAre(r, id, n + 1)
  {
    SatDoubles(0);
    SatDoubles(Doublings(r, id, n));
    hide Pow2;
    if Accepts(r.states[n], v) {
      WrapSmall(StateOf(r.states[n], id).consecutiveVotes + 1);
      WrapSmall(StateOf(r.states[n], id).totalVotes + 1);
      WrapSmall(1);
    }
    hide Wrap;
    hide StateOf;
  }

  lemma CountersStep(r: Run, id: ValidatorId, n: nat)
    requires IsRun(r.states, r.events) && n < |r.events| && CountersAre(r, id, n)
    ensures CountersAre(r, id, n + 1)
  {
    var e := r.events[n];
    assert Next(r.states[n], e, r.states[n + 1]);
    NextVoter(r.states[n], e, r.states[n + 1], id);
    hide StateOf;
    hide Next;
    hide IsRun;
    if e.Cast? && e.vote.validator == id && e.vote.signed {
      hide CountersAre;
      VoteCounters(r, id, n, e.vote);
    } else {
      SatDoubles(0);
    }
  }

  lemma {:induction false} VoterCounters(r: Run, id: ValidatorId, n: nat)
    requires r.Ok() && n <= |r.events|
    ensures CountersAre(r, id, n)
  {
    if n > 0 {
      VoterCounters(r, id, n - 1);
      CountersStep(r, id, n - 1);
    }
  }

  lemma {:induction false} StreakSince(r: Run, id: ValidatorId, p: nat, n: nat)
    requires p <= n <= |r.events| && (p == 0 || (p < n && Resets(r, id, p)))
    requires forall i :: p < i < n ==> !Resets(r, id, i)
    ensures Streak(r, id, n) == Count(r, id, p, n)
    decreases n
  {
    hide Resets;
    if n > p + 1 {
      StreakSince(r, id, p, n - 1);
    }
  }

  /** In every run the lockout is 2 to the number of the voter's accepted votes since the last event that
  reset it, that event included, up to 31: a switch, a signed vote built on the root, or a root that reached
  the voter's last vote. */
  lemma LockoutSince(r: Run, id: ValidatorId, p: nat, n: nat)
    requires r.Ok() && p <= n <= |r.events| && (p == 0 || (p < n && Resets(r, id, p)))
    requires forall i :: p < i < n ==> !Resets(r, id, i)
    ensures var count := Count(r, id, p, n);
      StateOf(r.states[n], id).LockoutSlots() == Pow2(if count < 31 then count else 31)
  {
    hide Resets;
    hide StateOf;
    hide Pow2;
    LockoutIs(r, id, n);
    StreakSince(r, id, p, n);
  }

  function Capped(n: nat): nat { Pow2(if n < 31 then n else 31) }

  lemma CapDoubles(n: nat)
    ensures Capped(n + 1) == if 2 * Capped(n) < 0x8000_0000 then 2 * Capped(n) else 0x8000_0000
    ensures Capped(0) == 1
  {
    Pow2CapValue();
    if n < 30 {
      Pow2Mono(n + 1, 30);
    }
  }

  /** In every run the lockout is the capped power of the streak. */
  lemma LockoutIs(r: Run, id: ValidatorId, n: nat)
    requires r.Ok() && n <= |r.events|
    ensures StateOf(r.states[n], id).LockoutSlots() == Capped(Streak(r, id, n))
  {
    hide StateOf;
    hide Pow2;
    VoterCounters(r, id, n);
  }

  /** A vote built on the root, or one that does not extend the voter's last one. */
  predicate StartsOver(r: Run, id: ValidatorId, i: nat)
    requires i < |r.events| && r.events[i].Cast?
  {
    var v := r.events[i].vote;
    (v.parentSlot == Some(RootAt(r, i)) && v.slot > RootAt(r, i)) || v.parentSlot != Some(LastVote(r, id, i).0)
  }

  lemma StreakStep(r: Run, id: ValidatorId, i: nat)
    requires VotedBy(r, id, i)
    ensures Streak(r, id, i + 1) == if StartsOver(r, id, i) then 1 else Streak(r, id, i) + 1
  {
  }

  /** An accepted vote that starts over leaves a lockout of 2 slots; any other one doubles the lockout, up
  to 2^31. */
  lemma LockoutAfterVote(r: Run, id: ValidatorId, i: nat)
    requires r.Ok() && VotedBy(r, id, i)
    ensures var before := StateOf(r.states[i], id).LockoutSlots();
      StateOf(r.states[i + 1], id).LockoutSlots() ==
      if StartsOver(r, id, i) then 2 else if 2 * before < 0x8000_0000 then 2 * before else 0x8000_0000
  {
    hide StartsOver;
    hide Accepts;
    hide StateOf;
    LockoutIs(r, id, i);
    LockoutIs(r, id, i + 1);
    StreakStep(r, id, i);
    CapDoubles(Streak(r, id, i));
    CapDoubles(0);
    hide *;
  }

  // ---------- a voter's recent votes ----------

  function EntryOf(r: Run, i: nat): Entry
    requires Accepted(r, i)
  {
    Entry(r.events[i].vote.slot, r.events[i].vote.blockHash, r.events[i].vote.timestamp)
  }

  /** How many of the voter's accepted votes follow event i. */
  function Later(r: Run, id: ValidatorId, i: nat, n: nat): nat { Count(r, id, i + 1, n) }

  /** No root above the slot was set between events i and n. */
  predicate Survives(r: Run, slot: U64, i: nat, n: nat)
    requires n <= |r.events|
  {
    forall j :: i < j < n && r.events[j].Advance? ==> r.events[j].root <= slot
  }

  /** The events listed in a history, oldest first. */
  ghost predicate Listed(r: Run, id: ValidatorId, n: nat, h: seq<Entry>, idx: seq<nat>)
    requires n <= |r.events|
  {
    && |idx| == |h|
    && (forall k :: 0 <= k < |idx| ==> idx[k] < n && VotedBy(r, id, idx[k]) && h[k] == EntryOf(r, idx[k]))
    && (forall k, l :: 0 <= k < l < |idx| ==> idx[k] < idx[l])
    && (forall k :: 0 <= k < |idx| ==> Survives(r, h[k].slot, idx[k], n))
    && (forall k :: 0 <= k < |idx| ==> Later(r, id, idx[k], n) == |idx| - 1 - k)
  }

  /** The others are forgotten for a reason. */
  ghost predicate Missed(r: Run, id: ValidatorId, n: nat, idx: seq<nat>)
    requires n <= |r.events|
  {
    forall i: nat :: i < n && VotedBy(r, id, i) && i !in idx ==>
      !Survives(r, r.events[i].vote.slot, i, n) || Later(r, id, i, n) >= 32
  }

  ghost predicate Behind(r: Run, id: ValidatorId, n: nat, h: seq<Entry>, idx: seq<nat>)
    requires n <= |r.events|
  {
    Listed(r, id, n, h, idx) && Missed(r, id, n, idx)
  }

  /** A voter's history lists exactly its accepted votes that no later root has passed and that fewer than
  32 later ones follow, oldest first. */
  ghost predicate Recent(r: Run, id: ValidatorId, n: nat, h: seq<Entry>, idx: seq<nat>)
    requires n <= |r.events|
  {
    && |idx| == |h|
    && (forall k :: 0 <= k < |idx| ==> VotedBy(r, id, idx[k]) && h[k] == EntryOf(r, idx[k]))
    && (forall k, l :: 0 <= k < l < |idx| ==> idx[k] < idx[l])
    && forall i: nat :: i in idx <==>
      i < n && VotedBy(r, id, i) && Survives(r, r.events[i].vote.slot, i, n) && Later(r, id, i, n) < 32
  }

  lemma SurvivesStep(r: Run, slot: U64, i: nat, n: nat)
    requires n < |r.events|
    ensures Survives(r, slot, i, n + 1) <==>
      Survives(r, slot, i, n) && (i < n && r.events[n].Advance? ==> r.events[n].root <= slot)
  {
  }

  lemma BehindSame(r: Run, id: ValidatorId, n: nat, h: seq<Entry>, idx: seq<nat>)
    requires n < |r.events| && Behind(r, id, n, h, idx) && !r.events[n].Advance? && !VotedBy(r, id, n)
    ensures Behind(r, id, n + 1, h, idx)
  {
    forall slot: U64, i: nat | i <= n ensures Survives(r, slot, i, n + 1) <==> Survives(r, slot, i, n) {
      SurvivesStep(r, slot, i, n);
    }
    hide Survives;
    hide VotedBy;
    hide EntryOf;
  }

  lemma LaterStep(r: Run, id: ValidatorId, i: nat, n: nat)
    requires i < n
    ensures Later(r, id, i, n + 1) == Later(r, id, i, n) + if VotedBy(r, id, n) then 1 else 0
  {
  }

  lemma ListedGrown(r: Run, id: ValidatorId, n: nat, h: seq<Entry>, idx: seq<nat>)
    requires n < |r.events| && Listed(r, id, n, h, idx) && VotedBy(r, id, n)
    ensures Listed(r, id, n + 1, h + [EntryOf(r, n)], idx + [n])
  {
    var h', idx' := h + [EntryOf(r, n)], idx + [n];
    forall k | 0 <= k < |idx'|
      ensures Survives(r, h'[k].slot, idx'[k], n + 1) && Later(r, id, idx'[k], n + 1) == |idx'| - 1 - k
    {
      SurvivesStep(r, h'[k].slot, idx'[k], n);
      if k < |idx| {
        LaterStep(r, id, idx[k], n);
      }
    }
    hide Survives;
    hide Accepted;
    hide Later;
  }

  lemma BehindGrown(r: Run, id: ValidatorId, n: nat, h: seq<Entry>, idx: seq<nat>)
    requires n < |r.events| && Behind(r, id, n, h, idx) && VotedBy(r, id, n)
    ensures Behind(r, id, n + 1, h + [EntryOf(r, n)], idx + [n])
  {
    ListedGrown(r, id, n, h, idx);
    hide Listed;
    forall i: nat | i < n + 1 && VotedBy(r, id, i) && i !in idx + [n]
      ensures !Survives(r, r.events[i].vote.slot, i, n + 1) || Later(r, id, i, n + 1) >= 32
    {
      assert i != n && i !in idx;
      SurvivesStep(r, r.events[i].vote.slot, i, n);
      LaterStep(r, id, i, n);
    }
    hide Survives;
    hide Accepted;
    hide Later;
  }

  lemma BehindShorter(r: Run, id: ValidatorId, n: nat, h: seq<Entry>, idx: seq<nat>)
    requires n <= |r.events| && Behind(r, id, n, h, idx) && |h| > 32
    ensures Behind(r, id, n, h[1..], idx[1..])
  {
    forall i: nat | i < n && VotedBy(r, id, i) && i !in idx[1..]
      ensures !Survives(r, r.events[i].vote.slot, i, n) || Later(r, id, i, n) >= 32
    {
      assert idx == [idx[0]] + idx[1..];
      assert i !in idx || i == idx[0];
    }
    hide Survives;
    hide Accepted;
    hide EntryOf;
    hide Later;
  }

  lemma ListedPruned(r: Run, id: ValidatorId, n: nat, h: seq<Entry>, idx: seq<nat>, k: nat)
    requires n < |r.events| && Listed(r, id, n, h, idx) && r.events[n].Advance? && k <= |h|
    requires forall i :: k <= i < |h| ==> h[i].slot >= r.events[n].root
    ensures Listed(r, id, n + 1, h[k..], idx[k..])
  {
    var h', idx' := h[k..], idx[k..];
    forall l | 0 <= l < |idx'|
      ensures Survives(r, h'[l].slot, idx'[l], n + 1) && Later(r, id, idx'[l], n + 1) == |idx'| - 1 - l
    {
      assert h'[l] == h[k + l] && idx'[l] == idx[k + l];
      SurvivesStep(r, h'[l].slot, idx'[l], n);
      LaterStep(r, id, idx'[l], n);
    }
    hide Survives;
    hide Later;
  }

  lemma BehindPruned(r: Run, id: ValidatorId, n: nat, h: seq<Entry>, idx: seq<nat>, k: nat)
    requires n < |r.events| && Behind(r, id, n, h, idx) && r.events[n].Advance? && k <= |h|
    requires forall i :: 0 <= i < |h| ==> (h[i].slot >= r.events[n].root <==> i >= k)
    ensures Behind(r, id, n + 1, h[k..], idx[k..])
  {
    ListedPruned(r, id, n, h, idx, k);
    forall i: nat | i < n + 1 && VotedBy(r, id, i) && i !in idx[k..]
      ensures !Survives(r, r.events[i].vote.slot, i, n + 1) || Later(r, id, i, n + 1) >= 32
    {
      assert i < n;
      assert idx == idx[..k] + idx[k..];
      assert i in idx ==> i in idx[..k];
      SurvivesStep(r, r.events[i].vote.slot, i, n);
      LaterStep(r, id, i, n);
    }
    hide Survives;
    hide Accepted;
    hide Later;
  }

  lemma HistoryAfter(s: TowerState, e: Event, id: ValidatorId)
    ensures VoterAfter(s, e, id).history ==
      match e
      case Register(_, _) => StateOf(s, id).history
      case Cast(v) =>
        if v.validator != id || !Accepts(s, v) then StateOf(s, id).history
        else
          var grown := StateOf(s, id).history + [Entry(v.slot, v.blockHash, v.timestamp)];
          if |grown| > 32 then grown[1..] else grown
      case Advance(root) => KeepFrom(StateOf(s, id).history, root)
  {
    hide StateOf;
  }

  lemma AscendingHistory(r: Run, id: ValidatorId, n: nat)
    requires r.Ok() && n <= |r.events|
    ensures Ascending(StateOf(r.states[n], id).history)
  {
    RunKeepsHistories(r.states, r.events, n);
  }

  lemma {:induction false} HistoryBehind(r: Run, id: ValidatorId, n: nat) returns (idx: seq<nat>)
    requires r.Ok() && n <= |r.events|
    ensures Behind(r, id, n, StateOf(r.states[n], id).history, idx)
  {
    if n == 0 {
      idx := [];
    } else {
      var m := n - 1;
      var e, h := r.events[m], StateOf(r.states[m], id).history;
      idx := HistoryBehind(r, id, m);
      assert Next(r.states[m], e, r.states[n]);
      NextVoter(r.states[m], e, r.states[n], id);
      HistoryAfter(r.states[m], e, id);
      AscendingHistory(r, id, m);
      hide VoterAfter;
      hide StateOf;
      hide Next;
      hide Behind;
      if VotedBy(r, id, m) {
        BehindGrown(r, id, m, h, idx);
        idx := idx + [m];
        if |h| + 1 > 32 {
          BehindShorter(r, id, n, h + [EntryOf(r, m)], idx);
          idx := idx[1..];
        }
      } else if e.Advance? {
        var k := KeepFromIsSuffix(h, e.root);
        BehindPruned(r, id, m, h, idx, k);
        idx := idx[k..];
      } else {
        BehindSame(r, id, m, h, idx);
      }
    }
  }

  lemma HistoryExactly(r: Run, id: ValidatorId, n: nat) returns (idx: seq<nat>)
    requires r.Ok() && n <= |r.events|
    ensures Recent(r, id, n, StateOf(r.states[n], id).history, idx)
  {
    idx := HistoryBehind(r, id, n);
    RunKeepsHistories(r.states, r.events, n);
    hide Survives;
    hide Accepted;
    hide Later;
  }

  // ---------- totals ----------

  lemma LastSlotIs(r: Run, id: ValidatorId, n: nat)
    requires r.Ok() && n <= |r.events|
    ensures StateOf(r.states[n], id).lastVoteSlot == LastVote(r, id, n).0
  {
    VoterCounters(r, id, n);
  }

  function AcceptedBefore(r: Run, n: nat): nat {
    if n == 0 then 0 else AcceptedBefore(r, n - 1) + if Accepted(r, n - 1) then 1 else 0
  }

  function SwitchesBefore(r: Run, n: nat): nat
    requires n <= |r.events|
  {
    if n == 0 then 0
    else SwitchesBefore(r, n - 1) +
         if Accepted(r, n - 1) && SwitchesAt(r, r.events[n - 1].vote.validator, n - 1) then 1 else 0
  }

  lemma TotalsAfter(s: TowerState, e: Event, s': TowerState)
    requires Next(s, e, s')
    ensures s'.totalVotes == if e.Cast? && Accepts(s, e.vote) then Wrap(s.totalVotes + 1) else s.totalVotes
    ensures s'.totalSwitches ==
      if e.Cast? && Accepts(s, e.vote) && e.vote.parentSlot != Some(StateOf(s, e.vote.validator).lastVoteSlot)
      then Wrap(s.totalSwitches + 1) else s.totalSwitches
  {
    assert s'.totalVotes == After(s, e).totalVotes && s'.totalSwitches == After(s, e).totalSwitches;
    hide StateOf;
    hide Voted;
    hide Credited;
    hide Linked;
    hide Wrap;
  }

  ghost predicate TotalsAre(r: Run, n: nat)
    requires n <= |r.events| && n < |r.states|
  {
    r.states[n].totalVotes == Wrap(AcceptedBefore(r, n)) && r.states[n].totalSwitches == Wrap(SwitchesBefore(r, n))
  }

  lemma TotalsStep(r: Run, m: nat)
    requires m < |r.events| && m + 1 < |r.states| && Next(r.states[m], r.events[m], r.states[m + 1]) && TotalsAre(r, m)
    requires Accepted(r, m) ==> (var id := r.events[m].vote.validator;
                                 StateOf(r.states[m], id).lastVoteSlot == LastVote(r, id, m).0)
    ensures TotalsAre(r, m + 1)
  {
    TotalsAfter(r.states[m], r.events[m], r.states[m + 1]);
    hide Next;
    hide Accepts;
    hide StateOf;
    hide LastVote;
    WrapAdd(AcceptedBefore(r, m), 1);
    WrapAdd(SwitchesBefore(r, m), 1);
    hide Wrap;
  }

  /** The tower's counters count the accepted votes and the accepted switches, in 64 bits. */
  lemma {:induction false} TotalsExactly(r: Run, n: nat)
    requires r.Ok() && n <= |r.events|
    ensures TotalsAre(r, n)
  {
    hide Accepts;
    hide StateOf;
    hide LastVote;
    WrapSmall(0);
    hide Wrap;
    if n > 0 {
      var m := n - 1;
      TotalsExactly(r, m);
      if Accepted(r, m) { LastSlotIs(r, r.events[m].vote.validator, m); }
      NextAt(r, m);
      TotalsStep(r, m);
    }
  }

  lemma NextAt(r: Run, m: nat)
    requires r.Ok() && m < |r.events|
    ensures Next(r.states[m], r.events[m], r.states[m + 1])
  {
  }
}
