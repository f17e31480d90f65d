/** Votes and the voting state kept for each validator. */
module Votes {
  import opened Bytes
  import opened Wrappers

  type ValidatorId = nat
  type Hash = nat

  /** A vote; `signed` stands for the outcome of the Ed25519 check against the claimed validator. */
  datatype Vote = Vote(validator: ValidatorId, slot: U64, blockHash: Hash, parentSlot: Option<U64>,
                       timestamp: U64, signed: bool)

  datatype Entry = Entry(slot: U64, blockHash: Hash, timestamp: U64)

  const HISTORY_LIMIT := 32
  const LOCKOUT_CAP := 31
  const ZERO_HASH: Hash := 0

  function KeepFrom(history: seq<Entry>, root: U64): seq<Entry> {
    if history == [] then []
    else (if history[0].slot >= root then [history[0]] else []) + KeepFrom(history[1..], root)
  }

  datatype VoteState = VoteState(validator: ValidatorId, rootSlot: U64, lastVoteSlot: U64, lastVoteHash: Hash,
                                 consecutiveVotes: U64, lockoutMultiplier: U64, totalVotes: U64,
                                 history: seq<Entry>)
  {
    function Process(vote: Vote): VoteState {
      var grown := history + [Entry(vote.slot, vote.blockHash, vote.timestamp)];
      this.(lastVoteSlot := vote.slot, lastVoteHash := vote.blockHash,
            consecutiveVotes := Wrap(consecutiveVotes + 1), totalVotes := Wrap(totalVotes + 1),
            history := if |grown| > HISTORY_LIMIT then grown[1..] else grown)
    }

    function LockoutSlots(): nat {
      Pow2(if consecutiveVotes < LOCKOUT_CAP then consecutiveVotes else LOCKOUT_CAP)
    }

    /** The addition is a 64-bit one. */
    predicate CanSwitchFork(slot: U64) {
      slot >= Wrap(lastVoteSlot + LockoutSlots())
    }

    function SwitchFork(): VoteState {
      this.(consecutiveVotes := 0, lockoutMultiplier := Sat(lockoutMultiplier * 2))
    }

    function ResetLockout(): VoteState {
      this.(consecutiveVotes := 0, lockoutMultiplier := 1)
    }

    function UpdateRoot(root: U64): VoteState {
      this.(rootSlot := root, history := KeepFrom(history, root))
    }
  }

  function NewVoteState(validator: ValidatorId, root: U64): VoteState {
    VoteState(validator, root, 0, ZERO_HASH, 0, 1, 0, [])
  }

  // ---------- the history window ----------

  /** The history lists recent votes in strictly ascending slot order, none after the last vote. */
  predicate HistoryOk(st: VoteState) {
    && |st.history| <= HISTORY_LIMIT
    && Ascending(st.history)
    && (forall i :: 0 <= i < |st.history| ==> st.history[i].slot <= st.lastVoteSlot)
  }

  predicate Ascending(h: seq<Entry>) {
    forall i, j :: 0 <= i < j < |h| ==> h[i].slot < h[j].slot
  }

  lemma ProcessKeepsHistory(st: VoteState, vote: Vote)
    requires HistoryOk(st) && vote.slot > st.lastVoteSlot
    ensures HistoryOk(st.Process(vote))
  {
    var grown := st.history + [Entry(vote.slot, vote.blockHash, vote.timestamp)];
    assert Ascending(grown);
    assert Ascending(grown[1..]);
  }

  lemma {:induction false} KeepAll(h: seq<Entry>, root: U64)
    requires forall i :: 0 <= i < |h| ==> h[i].slot >= root
    ensures KeepFrom(h, root) == h
  {
    if h != [] {
      KeepAll(h[1..], root);
    }
  }

  /** Forgetting the votes before the root cuts off a prefix of the history. */
  lemma {:induction false} KeepFromIsSuffix(h: seq<Entry>, root: U64) returns (k: nat)
    requires Ascending(h)
    ensures k <= |h| && KeepFrom(h, root) == h[k..]
    ensures forall i :: 0 <= i < |h| ==> (h[i].slot >= root <==> i >= k)
  {
    if h == [] || h[0].slot >= root {
      k := 0;
      KeepAll(h, root);
    } else {
      var k' := KeepFromIsSuffix(h[1..], root);
      assert forall i :: 0 < i < |h| ==> h[i] == h[1..][i - 1];
      assert h[1..][k'..] == h[k' + 1..];
      k := k' + 1;
    }
  }

  lemma UpdateKeepsHistory(st: VoteState, root: U64)
    requires HistoryOk(st)
    ensures HistoryOk(st.UpdateRoot(root))
  {
    var k := KeepFromIsSuffix(st.history, root);
    assert Ascending(st.history[k..]);
  }

  // ---------- successive votes ----------

  function CastAll(st: VoteState, votes: seq<Vote>): VoteState {
    if votes == [] then st else CastAll(st, votes[..|votes| - 1]).Process(votes[|votes| - 1])
  }

  /** Without a switch the lockout doubles with every vote, up to its cap. */
  lemma {:induction false} LockoutDoubles(st: VoteState, votes: seq<Vote>)
    requires st.consecutiveVotes + |votes| < U64_LIMIT
    ensures var n := st.consecutiveVotes + |votes|;
      CastAll(st, votes).LockoutSlots() == Pow2(if n < LOCKOUT_CAP then n else LOCKOUT_CAP)
    ensures CastAll(st, votes).consecutiveVotes == st.consecutiveVotes + |votes|
  {
    hide Pow2;
    hide Wrap;
    if votes != [] {
      LockoutDoubles(st, votes[..|votes| - 1]);
      WrapSmall(st.consecutiveVotes + |votes|);
    }
  }

  function Entries(votes: seq<Vote>): (es: seq<Entry>)
    ensures |es| == |votes|
    ensures forall i :: 0 <= i < |es| ==> es[i] == Entry(votes[i].slot, votes[i].blockHash, votes[i].timestamp)
  {
    seq(|votes|, i requires 0 <= i < |votes| => Entry(votes[i].slot, votes[i].blockHash, votes[i].timestamp))
  }

  function Last(es: seq<Entry>, n: nat): seq<Entry> {
    if |es| <= n then es else es[|es| - n..]
  }

  /** The history is exactly the most recent votes, as many as it may hold. */
  lemma {:induction false} HistoryIsWindow(st: VoteState, votes: seq<Vote>)
    requires |st.history| <= HISTORY_LIMIT
    ensures CastAll(st, votes).history == Last(st.history + Entries(votes), HISTORY_LIMIT)
  {
    if votes == [] {
      assert st.history + Entries(votes) == st.history;
    } else {
      var n := |votes| - 1;
      HistoryIsWindow(st, votes[..n]);
      var all := st.history + Entries(votes[..n]);
      assert st.history + Entries(votes) == all + [Entry(votes[n].slot, votes[n].blockHash, votes[n].timestamp)];
    }
  }
}
