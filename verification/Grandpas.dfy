/**
 One node's instance of the protocol: starting rounds, handling votes, caching blocks,
 finding the candidate of a round, finalizing it, and catching up from another node.
 */
module Grandpas {
  import opened Options
  import opened Votes
  import opened Trees
  import opened BlockTrees
  import opened AncestorSync
  import opened Finalized
  import opened Finality
  import opened Rounds
  import opened CatchUp

  // ---------- handling messages ----------

  lemma PutTwice(rounds: map<int, Round>, n: int, r: Round, s: Round)
    ensures rounds[n := r][n := s] == rounds[n := s]
  {
  }

  /** The rounds with this one and its trackers in place. */
  function Ready(
    rounds: map<int, Round>, round: nat, tree: Tree, eligible: set<Hash>, stakes: map<Key, nat>): (r: map<int, Round>)
    ensures round in r
  {
    var started := Started(rounds, round, tree, eligible);
    started[round := WithTrackers(started[round], round, stakes)]
  }

  lemma FirstRound(tree: Tree, eligible: set<Hash>, stakes: map<Key, nat>)
    ensures Ready(WithRound(map[], 0, tree, eligible), 0, tree, eligible, stakes)
      == map[0 := WithTrackers(Round(Graph(tree, eligible, None), Graph(tree, eligible, None), None), 0, stakes)]
  {
  }

  /** The round after the stage's handler saw a message of this set. */
  function Handled(
    rules: Rules, stakes: map<Key, nat>, stage: Stage, round: nat, setOf: nat, r: Round, m: SignedMessage): Round {
    var ready := WithTrackers(r, round, stakes);
    if Admits(rules, stage, round, setOf, m) then VoteIn(ready, Offer(m, stage)) else ready
  }

  /** The round after the handler saw the messages in order, all under the node's own set. */
  function Replayed(
    rules: Rules, stakes: map<Key, nat>, stage: Stage, round: nat, r: Round, ms: seq<SignedMessage>): Round
    decreases |ms|
  {
    if ms == [] then r
    else Handled(rules, stakes, stage, round, rules.setId, Replayed(rules, stakes, stage, round, r, ms[..|ms| - 1]), ms[|ms| - 1])
  }

  predicate HasTrackers(r: Round) {
    r.preVote.tracker.Some? && r.preCommit.tracker.Some? && r.primary.Some?
  }

  lemma PutTrackerTwice(r: Round, stage: Stage, t: Tracker, u: Tracker)
    ensures TrackerOf(PutTracker(r, stage, t), stage) == Some(t)
    ensures PutTracker(PutTracker(r, stage, t), stage, u) == PutTracker(r, stage, u)
    ensures HasTrackers(r) ==> HasTrackers(PutTracker(r, stage, t))
  {
  }

  lemma HandledAdds(rules: Rules, stakes: map<Key, nat>, stage: Stage, round: nat, r: Round, m: SignedMessage)
    requires HasTrackers(r)
    ensures Handled(rules, stakes, stage, round, rules.setId, r, m)
      == if Admits(rules, stage, round, rules.setId, m)
         then PutTracker(r, stage, AddVote(TrackerOf(r, stage).value, Offer(m, stage))) else r
  {
  }

  lemma AdmittedStep(rules: Rules, stage: Stage, round: nat, t: Tracker, ms: seq<SignedMessage>)
    requires ms != []
    ensures var init, last := ms[..|ms| - 1], ms[|ms| - 1];
      var before := AddAll(t, Offers(stage, Admitted(rules, stage, round, init)));
      AddAll(t, Offers(stage, Admitted(rules, stage, round, ms)))
      == if Admits(rules, stage, round, rules.setId, last) then AddVote(before, Offer(last, stage)) else before
  {
    var init, last := ms[..|ms| - 1], ms[|ms| - 1];
    var kept := Admitted(rules, stage, round, init);
    if Admits(rules, stage, round, rules.setId, last) {
      OffersSnoc(stage, kept, last, t);
    } else {
      assert kept + [] == kept;
    }
  }

  /** The round after its stage's tracker took the admitted messages. */
  function Added(rules: Rules, stage: Stage, round: nat, r: Round, ms: seq<SignedMessage>): Round
    requires HasTrackers(r)
  {
    PutTracker(r, stage, AddAll(TrackerOf(r, stage).value, Offers(stage, Admitted(rules, stage, round, ms))))
  }

  lemma AddedStep(rules: Rules, stakes: map<Key, nat>, stage: Stage, round: nat, r: Round, ms: seq<SignedMessage>)
    requires HasTrackers(r) && ms != []
    ensures Handled(rules, stakes, stage, round, rules.setId, Added(rules, stage, round, r, ms[..|ms| - 1]), ms[|ms| - 1])
      == Added(rules, stage, round, r, ms)
  {
    var t := TrackerOf(r, stage).value;
    var before := AddAll(t, Offers(stage, Admitted(rules, stage, round, ms[..|ms| - 1])));
    AdmittedStep(rules, stage, round, t, ms);
    PutTrackerTwice(r, stage, before, AddVote(before, Offer(ms[|ms| - 1], stage)));
    HandledAdds(rules, stakes, stage, round, Added(rules, stage, round, r, ms[..|ms| - 1]), ms[|ms| - 1]);
  }

  /** With its trackers in place, a round gets exactly the admitted messages added to the stage's tracker. */
  lemma {:induction false} ReplayAdds(
    rules: Rules, stakes: map<Key, nat>, stage: Stage, round: nat, r: Round, ms: seq<SignedMessage>)
    requires HasTrackers(r)
    ensures Replayed(rules, stakes, stage, round, r, ms) == Added(rules, stage, round, r, ms)
    decreases |ms|
  {
    if ms == [] {
      assert Added(rules, stage, round, r, []) == r;
    } else {
      ReplayAdds(rules, stakes, stage, round, r, ms[..|ms| - 1]);
      AddedStep(rules, stakes, stage, round, r, ms);
    }
  }

  /** The rounds once a response for this one can be played. */
  function Begun(
    rounds: map<int, Round>, round: nat, tree: Tree, eligible: set<Hash>, stakes: map<Key, nat>): (r: map<int, Round>)
    ensures round in r
  {
    if round in rounds then rounds else Ready(rounds, round, tree, eligible, stakes)
  }

  lemma ReadyAfterStart(rounds: map<int, Round>, round: nat, tree: Tree, eligible: set<Hash>, stakes: map<Key, nat>)
    requires round !in rounds
    ensures Ready(WithRound(rounds, round, tree, eligible), round, tree, eligible, stakes)
      == Ready(rounds, round, tree, eligible, stakes)
  {
  }

  /** The round after playing the messages of a response. */
  function PlayedRound(rules: Rules, stakes: map<Key, nat>, round: nat, response: CatchUpResponse, r: Round): Round {
    Replayed(rules, stakes, Precommit, round,
      Replayed(rules, stakes, Prevote, round, r, response.prevotes), response.precommits)
  }

  function Played(
    rules: Rules, stakes: map<Key, nat>, round: nat, response: CatchUpResponse, begun: map<int, Round>): (r: map<int, Round>)
    requires round in begun
    ensures round in r
  {
    begun[round := PlayedRound(rules, stakes, round, response, begun[round])]
  }

  /** Only messages that the round's handlers would admit again are on record. */
  ghost predicate AdmittedRound(rules: Rules, r: Round, round: int) {
    && round >= 0
    && forall stage: Stage :: TrackerOf(r, stage).Some? ==> OnlyAdmitted(rules, stage, round, TrackerOf(r, stage).value)
  }

  ghost predicate AdmittedRounds(rules: Rules, rounds: map<int, Round>) {
    forall n :: n in rounds ==> AdmittedRound(rules, rounds[n], n)
  }

  lemma PutAdmitted(rules: Rules, rounds: map<int, Round>, n: int, r: Round)
    requires AdmittedRounds(rules, rounds) && AdmittedRound(rules, r, n)
    ensures AdmittedRounds(rules, rounds[n := r])
  {
  }

  lemma StartAdmitted(rules: Rules, rounds: map<int, Round>, round: nat, tree: Tree, eligible: set<Hash>)
    requires AdmittedRounds(rules, rounds)
    ensures AdmittedRounds(rules, WithRound(rounds, round, tree, eligible))
  {
    var empty := Round(Graph(tree, eligible, None), Graph(tree, eligible, None), None);
    assert AdmittedRound(rules, empty, round);
  }

  lemma TrackersKeepAdmitted(rules: Rules, r: Round, round: nat, stakes: map<Key, nat>)
    requires AdmittedRound(rules, r, round)
    ensures AdmittedRound(rules, WithTrackers(r, round, stakes), round)
  {
    var s := WithTrackers(r, round, stakes);
    forall stage: Stage | TrackerOf(s, stage).Some? ensures OnlyAdmitted(rules, stage, round, TrackerOf(s, stage).value) {
      assert TrackerOf(s, stage) == TrackerOf(r, stage) || TrackerOf(s, stage) == Some(Fresh(stage, round, stakes));
    }
  }

  lemma RecordKeepsAdmitted(rules: Rules, stage: Stage, round: nat, r: Round, m: SignedMessage)
    requires AdmittedRound(rules, r, round) && Admits(rules, stage, round, rules.setId, m)
    ensures AdmittedRound(rules, VoteIn(r, Offer(m, stage)), round)
  {
    var s := VoteIn(r, Offer(m, stage));
    if TrackerOf(r, stage).Some? {
      AddKeepsAdmitted(rules, stage, round, TrackerOf(r, stage).value, m);
      forall other: Stage | TrackerOf(s, other).Some? ensures OnlyAdmitted(rules, other, round, TrackerOf(s, other).value) {
        assert other != stage ==> TrackerOf(s, other) == TrackerOf(r, other);
      }
    }
  }

  lemma RecordSound(rounds: map<int, Round>, n: int, tree: Tree, stakes: map<Key, nat>, vote: Offer)
    requires SoundRounds(rounds, tree, stakes) && n in rounds
    ensures SoundRounds(rounds[n := VoteIn(rounds[n], vote)], tree, stakes)
  {
    hide SoundRound;
    VoteKeepsSound(rounds[n], n, tree, stakes, vote);
  }

  lemma RecordAdmitted(rules: Rules, stage: Stage, n: nat, rounds: map<int, Round>, m: SignedMessage)
    requires AdmittedRounds(rules, rounds) && n in rounds && Admits(rules, stage, n, rules.setId, m)
    ensures AdmittedRounds(rules, rounds[n := VoteIn(rounds[n], Offer(m, stage))])
  {
    hide AdmittedRound;
    RecordKeepsAdmitted(rules, stage, n, rounds[n], m);
  }

  lemma ReadySound(rounds: map<int, Round>, round: nat, tree: Tree, eligible: set<Hash>, stakes: map<Key, nat>)
    requires SoundRounds(rounds, tree, stakes) && WellFormed(tree)
    ensures SoundRounds(Ready(rounds, round, tree, eligible, stakes), tree, stakes)
  {
    StartSound(rounds, round, tree, eligible, stakes);
    var started := Started(rounds, round, tree, eligible);
    TrackersKeepSound(started[round], round, tree, stakes);
    PutSound(started, round, WithTrackers(started[round], round, stakes), tree, stakes);
  }

  lemma ReadyAdmitted(
    rules: Rules, rounds: map<int, Round>, round: nat, tree: Tree, eligible: set<Hash>, stakes: map<Key, nat>)
    requires AdmittedRounds(rules, rounds)
    ensures AdmittedRounds(rules, Ready(rounds, round, tree, eligible, stakes))
  {
    StartAdmitted(rules, rounds, round, tree, eligible);
    var started := Started(rounds, round, tree, eligible);
    TrackersKeepAdmitted(rules, started[round], round, stakes);
    PutAdmitted(rules, started, round, WithTrackers(started[round], round, stakes));
  }

  /**
   What handling a message does to the votes on record: they gain its voter and block exactly
   if it is for the stage, signed by the voter and, for a precommit, the voter is an authority.
   */
  lemma HandledPairs(
    rules: Rules, stage: Stage, round: nat, setOf: nat, r: Round, m: SignedMessage, tree: Tree, stakes: map<Key, nat>)
    requires SoundRound(r, round, tree, stakes)
    ensures var before, after := TrackerOf(r, stage), TrackerOf(Handled(rules, stakes, stage, round, setOf, r, m), stage);
      && after.Some?
      && Pairs(after.value) == (if before.Some? then Pairs(before.value) else {}) +
        if m.stage == stage && rules.verify(m.voter, UnsignedVote(stage, m.block, m.slot, round, setOf), m.signature)
          && (stage == Precommit ==> m.voter in rules.authorities)
        then {(m.voter, m.block)} else {}
  {
    hide Valid, FromRun, WithTrackers, Votes.AddVote, Pairs, SoundShape;
    var ready := WithTrackers(r, round, stakes);
    TrackersKeepSound(r, round, tree, stakes);
    ReadyTracker(r, round, stakes, stage);
    var t := TrackerOf(ready, stage).value;
    FromRunValid(stage, round, stakes, t);
    AddedPair(t, Offer(m, stage));
  }

  lemma ReadyTracker(r: Round, round: nat, stakes: map<Key, nat>, stage: Stage)
    ensures TrackerOf(WithTrackers(r, round, stakes), stage)
      == if TrackerOf(r, stage).Some? then TrackerOf(r, stage) else Some(Fresh(stage, round, stakes))
    ensures Pairs(Fresh(stage, round, stakes)) == {}
  {
  }

  lemma AddedPair(t: Tracker, o: Offer)
    requires Valid(t) && o.stage == t.stage
    ensures Pairs(AddVote(t, o)) == Pairs(t) + {(o.msg.voter, o.msg.block)}
  {
    AddVoteStep(t, o);
    InPairs(t, o.msg.voter, o.msg.block);
  }

  /** The message is on record in the stage's tracker. */
  predicate OnRecord(r: Round, stage: Stage, m: SignedMessage) {
    var t := TrackerOf(r, stage);
    t.Some? && m.voter in t.value.votes && m.block in t.value.votes[m.voter] && t.value.votes[m.voter][m.block] == m
  }

  /** An export of the stage's tracker; nothing without one. */
  ghost predicate Exports(tracker: Option<Tracker>, ms: seq<SignedMessage>) {
    if tracker.None? then ms == [] else IsExport(tracker.value, ms)
  }

  /**
   The outcome of an attempt to finalize: some candidate of the round, refused if the
   precommit graph lacks it, and finalized with its ancestors exactly if it is heavy.
   */
  ghost predicate Outcome(
    tree: Tree, before: set<Hash>, rounds: map<int, Round>, stakes: map<Key, nat>, round: nat, after: set<Hash>, ok: bool)
  {
    exists candidate ::
      && RoundGhost(tree, before, rounds, Threshold(StakeTotal(stakes)), round, candidate)
      && ok == (round in rounds && candidate in rounds[round].preCommit.tree.nodes)
      && after == if ok then Attempt(tree, before, rounds[round].preCommit, candidate, stakes) else before
  }

  // ---------- the instance ----------

  class Grandpa {
    const rules: Rules
    const rootParent: Hash
    const voterStaked: map<Key, nat>
    var tree: Tree
    var eligible: set<Hash>
    var finalized: set<Hash>
    var rounds: map<int, Round>
    var lastCompleted: nat

    /** A new instance starts with round 0 and its trackers. */
    constructor (
      rules: Rules, tree: Tree, rootParent: Hash, eligible: set<Hash>, finalized: set<Hash>, voterStaked: map<Key, nat>)
      requires Linked(tree, rootParent) && FinalizedClosed(tree, finalized) && IsChain(tree, finalized)
      ensures Valid() && Vouches() && this.rules == rules && this.voterStaked == voterStaked
      ensures this.tree == tree && this.finalized == finalized && lastCompleted == 0
      ensures rounds ==
        map[0 := WithTrackers(Round(Graph(tree, eligible, None), Graph(tree, eligible, None), None), 0, voterStaked)]
    {
      this.rules, this.tree, this.rootParent, this.eligible := rules, tree, rootParent, eligible;
      this.finalized, this.voterStaked := finalized, voterStaked;
      rounds := map[];
      lastCompleted := 0;
      new;
      assert Valid() && Vouches();
      hide SoundRounds, AdmittedRounds, WithRound, Ready;
      FirstRound(tree, eligible, voterStaked);
      InitRoundState(0);
      InitTrackers(0);
    }

    /** The finalized blocks are a chain from the root, and every round is sound. */
    ghost predicate Valid()
      reads this`tree, this`rounds, this`finalized
    {
      && Linked(tree, rootParent) && FinalizedClosed(tree, finalized) && IsChain(tree, finalized)
      && SoundRounds(rounds, tree, voterStaked)
    }

    /** Every vote on record is one the instance would admit again. */
    ghost predicate Vouches()
      reads this`rounds
    {
      AdmittedRounds(rules, rounds)
    }

    /** Then every message on record is signed by its voter for the round and set; precommits are by authorities. */
    lemma RecordedIsSigned(round: nat, stage: Stage, m: SignedMessage)
      requires Vouches() && round in rounds && OnRecord(rounds[round], stage, m)
      ensures m.stage == stage
      ensures rules.verify(m.voter, UnsignedVote(stage, m.block, m.slot, round, rules.setId), m.signature)
      ensures stage == Precommit ==> m.voter in rules.authorities
    {
      assert AdmittedRound(rules, rounds[round], round);
      assert OnlyAdmitted(rules, stage, round, TrackerOf(rounds[round], stage).value);
    }

    /** Starts a round from copies of the block tree, with its flags, unless it exists. */
    method InitRoundState(round: nat)
      requires Valid()
      modifies this`rounds
      ensures Valid() && (old(Vouches()) ==> Vouches())
      ensures rounds == WithRound(old(rounds), round, tree, eligible)
    {
      hide SoundRounds, AdmittedRounds;
      StartSound(rounds, round, tree, eligible, voterStaked);
      if Vouches() {
        StartAdmitted(rules, rounds, round, tree, eligible);
      }
      rounds := WithRound(rounds, round, tree, eligible);
    }

    /** Makes sure the round and its trackers exist. */
    method InitTrackers(round: nat)
      requires Valid()
      modifies this`rounds
      ensures Valid() && (old(Vouches()) ==> Vouches())
      ensures rounds == Ready(old(rounds), round, tree, eligible, voterStaked)
    {
      hide SoundRounds, AdmittedRounds;
      ghost var ready := Ready(rounds, round, tree, eligible, voterStaked);
      ReadySound(rounds, round, tree, eligible, voterStaked);
      if Vouches() {
        ReadyAdmitted(rules, rounds, round, tree, eligible, voterStaked);
      }
      if round !in rounds {
        InitRoundState(round);
      }
      rounds := rounds[round := WithTrackers(rounds[round], round, voterStaked)];
      assert rounds == ready;
    }

    /** Adds a block to the tree and copies it into every round; a block already there changes nothing. */
    method CacheBlock(block: Hash, parent: Hash, slot: nat) returns (ok: bool)
      requires Valid() && block != rootParent
      modifies this`tree, this`rounds
      ensures Valid() && ok == (parent in old(tree).nodes && block !in old(tree).nodes)
      ensures tree == if ok then Insert(old(tree), block, parent, slot) else old(tree)
      ensures !ok ==> rounds == old(rounds)
      ensures ok ==> rounds == SyncedRounds(old(rounds), old(rounds).Keys, tree, rootParent, block, parent, slot)
    {
      if parent !in tree.nodes || block in tree.nodes {
        return false;
      }
      GrowKeepsSound(tree, finalized, block, parent, slot);
      SoundInLarger(rounds, tree, Insert(tree, block, parent, slot), voterStaked);
      tree := Insert(tree, block, parent, slot);
      rounds := SyncRounds(rounds, tree, rootParent, block, parent, slot, voterStaked);
      return true;
    }

    /** A block that is applied and audited becomes eligible in rounds started from now on. */
    method MarkEligible(block: Hash)
      requires Valid()
      modifies this`eligible
      ensures Valid() && eligible == old(eligible) + {block}
    {
      eligible := eligible + {block};
    }

    /** Checks a prevote under the set id it names and records it. */
    method ProcessPreVoteMessage(vote: GrandpaVote) returns (ok: bool)
      requires Valid()
      modifies this`rounds
      ensures Valid() && (vote.setId == rules.setId && old(Vouches()) ==> Vouches())
      ensures ok <==> vote.msg.stage == Prevote && rules.verify(vote.msg.voter,
        UnsignedVote(Prevote, vote.msg.block, vote.msg.slot, vote.round, vote.setId), vote.msg.signature)
      ensures rounds == After(Prevote, vote, old(rounds))
    {
      hide SoundRounds, AdmittedRounds, After;
      AfterIs(Prevote, vote, rounds);
      InitTrackers(vote.round);
      if vote.msg.stage != Prevote {
        return false;
      }
      var signed := UnsignedVote(Prevote, vote.msg.block, vote.msg.slot, vote.round, vote.setId);
      if !rules.verify(vote.msg.voter, signed, vote.msg.signature) {
        return false;
      }
      Record(Prevote, vote);
      return true;
    }

    /** The same for a precommit, whose voter must be an authority. */
    method ProcessPreCommitMessage(vote: GrandpaVote) returns (ok: bool)
      requires Valid()
      modifies this`rounds
      ensures Valid() && (vote.setId == rules.setId && old(Vouches()) ==> Vouches())
      ensures ok <==> vote.msg.stage == Precommit && vote.msg.voter in rules.authorities && rules.verify(vote.msg.voter,
        UnsignedVote(Precommit, vote.msg.block, vote.msg.slot, vote.round, vote.setId), vote.msg.signature)
      ensures rounds == After(Precommit, vote, old(rounds))
    {
      hide SoundRounds, AdmittedRounds, After;
      AfterIs(Precommit, vote, rounds);
      InitTrackers(vote.round);
      if vote.msg.stage != Precommit {
        return false;
      }
      var signed := UnsignedVote(Precommit, vote.msg.block, vote.msg.slot, vote.round, vote.setId);
      if !rules.verify(vote.msg.voter, signed, vote.msg.signature) {
        return false;
      }
      if vote.msg.voter !in rules.authorities {
        return false;
      }
      Record(Precommit, vote);
      return true;
    }

    /** The rounds after the stage's handler saw a vote. */
    ghost function After(stage: Stage, vote: GrandpaVote, rs: map<int, Round>): map<int, Round>
      reads this`tree, this`eligible
    {
      var started := Started(rs, vote.round, tree, eligible);
      started[vote.round := Handled(rules, voterStaked, stage, vote.round, vote.setId, started[vote.round], vote.msg)]
    }

    lemma AfterIs(stage: Stage, vote: GrandpaVote, rs: map<int, Round>)
      ensures var ready := Ready(rs, vote.round, tree, eligible, voterStaked);
        After(stage, vote, rs) ==
        if Admits(rules, stage, vote.round, vote.setId, vote.msg)
        then ready[vote.round := VoteIn(ready[vote.round], Offer(vote.msg, stage))] else ready
    {
    }

    /** Adds an admitted vote to the stage's tracker. */
    method Record(stage: Stage, vote: GrandpaVote)
      requires Valid() && vote.round in rounds && Admits(rules, stage, vote.round, vote.setId, vote.msg)
      modifies this`rounds
      ensures Valid() && (vote.setId == rules.setId && old(Vouches()) ==> Vouches())
      ensures rounds == old(rounds)[vote.round := VoteIn(old(rounds)[vote.round], Offer(vote.msg, stage))]
    {
      hide SoundRounds, AdmittedRounds;
      RecordSound(rounds, vote.round, tree, voterStaked, Offer(vote.msg, stage));
      if vote.setId == rules.setId && Vouches() {
        RecordAdmitted(rules, stage, vote.round, rounds, vote.msg);
      }
      rounds := rounds[vote.round := VoteIn(rounds[vote.round], Offer(vote.msg, stage))];
    }

    /** Everything on record for the round, stage by stage; empty for an unknown round. */
    method GetAllResults(round: nat) returns (prevotes: seq<SignedMessage>, precommits: seq<SignedMessage>)
      requires Valid()
      ensures round in rounds ==>
        Exports(rounds[round].preVote.tracker, prevotes) && Exports(rounds[round].preCommit.tracker, precommits)
      ensures round !in rounds ==> prevotes == precommits == []
    {
      prevotes, precommits := [], [];
      if round in rounds {
        SoundIsValid(rounds[round], round, tree, voterStaked);
        if rounds[round].preVote.tracker.Some? {
          prevotes := ExportVotes(rounds[round].preVote.tracker.value);
        }
        if rounds[round].preCommit.tracker.Some? {
          precommits := ExportVotes(rounds[round].preCommit.tracker.value);
        }
      }
    }

    lemma ReplayOneMore(stage: Stage, round: nat, rs: map<int, Round>, ms: seq<SignedMessage>, i: nat)
      requires round in rs && i < |ms|
      ensures After(stage, GrandpaVote(round, rules.setId, ms[i]),
          rs[round := Replayed(rules, voterStaked, stage, round, rs[round], ms[..i])])
        == rs[round := Replayed(rules, voterStaked, stage, round, rs[round], ms[..i + 1])]
    {
      assert ms[..i + 1][..i] == ms[..i];
    }

    /** Hands the messages of one stage to its handler, in order. */
    method Replay(stage: Stage, round: nat, ms: seq<SignedMessage>)
      requires Valid() && round in rounds && stage != PrimaryPropose
      modifies this`rounds
      ensures Valid() && (old(Vouches()) ==> Vouches())
      ensures rounds == old(rounds)[round := Replayed(rules, voterStaked, stage, round, old(rounds)[round], ms)]
    {
      hide SoundRounds, AdmittedRounds;
      ghost var before := rounds;
      ghost var vouched := Vouches();
      assert ms[..0] == [] && before[round := before[round]] == before;
      for i := 0 to |ms|
        invariant Valid() && (vouched ==> Vouches())
        invariant rounds == before[round := Replayed(rules, voterStaked, stage, round, before[round], ms[..i])]
      {
        ReplayOneMore(stage, round, before, ms, i);
        if stage == Prevote {
          var ok := ProcessPreVoteMessage(GrandpaVote(round, rules.setId, ms[i]));
        } else {
          var ok := ProcessPreCommitMessage(GrandpaVote(round, rules.setId, ms[i]));
        }
      }
      assert ms[..|ms|] == ms;
    }

    /** Starts the round if it is missing and plays the messages. */
    method PlayVotes(round: nat, response: CatchUpResponse)
      requires Valid()
      modifies this`rounds
      ensures Valid() && (old(Vouches()) ==> Vouches())
      ensures rounds == Played(rules, voterStaked, round, response, Begun(old(rounds), round, tree, eligible, voterStaked))
    {
      hide SoundRounds, AdmittedRounds;
      ghost var begun := Begun(rounds, round, tree, eligible, voterStaked);
      if round !in rounds {
        ReadyAfterStart(rounds, round, tree, eligible, voterStaked);
        InitRoundState(round);
        InitTrackers(round);
      }
      assert rounds == begun;
      Replay(Prevote, round, response.prevotes);
      PutTwice(begun, round, rounds[round], PlayedRound(rules, voterStaked, round, response, begun[round]));
      Replay(Precommit, round, response.precommits);
    }

    /**
     Replays a response for the round it names, skipping messages the handlers refuse, and
     attempts to finalize with the votes; a finished round may become the last completed one.
     */
    method PlayRoundWithCatchUp(round: nat, response: CatchUpResponse) returns (ok: bool)
      requires Valid()
      modifies this`rounds, this`finalized, this`lastCompleted
      ensures Valid() && (old(Vouches()) ==> Vouches()) && old(finalized) <= finalized
      ensures response.round != round ==> !ok && rounds == old(rounds) && finalized == old(finalized)
      ensures response.round == round ==>
        rounds == Played(rules, voterStaked, round, response, Begun(old(rounds), round, tree, eligible, voterStaked))
      ensures response.round == round ==> Attempted(round, old(finalized), ok)
      ensures lastCompleted == if ok && round > old(lastCompleted) then round else old(lastCompleted)
    {
      hide SoundRounds, AdmittedRounds, Outcome, Played;
      if response.round != round {
        return false;
      }
      PlayVotes(round, response);
      ok := FinishRound(round);
    }

    /** Attempts to finalize; a finished round may become the last completed one. */
    method FinishRound(round: nat) returns (ok: bool)
      requires Valid()
      modifies this`finalized, this`lastCompleted
      ensures Valid() && old(finalized) <= finalized && Attempted(round, old(finalized), ok)
      ensures lastCompleted == if ok && round > old(lastCompleted) then round else old(lastCompleted)
    {
      hide SoundRounds, Outcome;
      ok := AttemptToFinalizeAtRound(round);
      if ok && round > lastCompleted {
        lastCompleted := round;
      }
    }

    /** At or below every finalized block. */
    ghost predicate BelowFinalized(h: Hash)
      reads this
    {
      h in tree.nodes && forall d :: d in finalized ==> Below(tree, h, d)
    }

    method GetSupermajorityThreshold() returns (threshold: nat)
      ensures threshold == Threshold(StakeTotal(voterStaked))
    {
      var total := TotalVoteWeight(voterStaked);
      threshold := total * 2 / 3 + 1;
    }

    method GetLastFinalizedBlock() returns (last: Hash)
      requires Valid()
      ensures IsLast(tree, finalized, last) && finalized == Ancestors(tree, last) && BelowFinalized(last)
    {
      last := LastFinalized(tree, finalized);
      ChainIsAncestors(tree, finalized, last);
    }

    /** The block the rounds lead to under the present finalized blocks. */
    ghost predicate Leads(round: nat, r: Hash)
      reads this
    {
      RoundGhost(tree, finalized, rounds, Threshold(StakeTotal(voterStaked)), round, r)
    }

    /** The round's candidate is its ghost, and lies at or below every finalized block. */
    method BestFinalCandidate(round: nat) returns (r: Hash)
      requires Valid()
      ensures BelowFinalized(r) && Leads(round, r)
      decreases round, 1
    {
      if round == 0 {
        r := GetLastFinalizedBlock();
        return;
      }
      r := GrandpaGhost(round);
      if round !in rounds {
        return;
      }
      var g := rounds[round].preCommit;
      SoundIsValid(rounds[round], round, tree, voterStaked);
      var weights := GraphWeights(g, true);
      var threshold := GetSupermajorityThreshold();
      var older := Search(g.tree, weights, g.eligible, r, threshold);
      if older.None? || older.value !in tree.nodes {
        return;
      }
      var o := older.value;
      ReachedBelow(g.tree, weights, threshold, r, o);
      OlderCandidateIsGhost(tree, g.tree, r, o);
      var elsewhere := tree.nodes[o].parent != tree.nodes[r].parent;
      if !ChildOrBrother(tree, r, o) {
        return;
      }
      if elsewhere {
        r := o;
      }
    }

    /** The heaviest observed block below the previous round's candidate. */
    method GrandpaGhost(round: nat) returns (r: Hash)
      requires Valid()
      ensures BelowFinalized(r) && Leads(round, r)
      decreases round, 0
    {
      if round == 0 {
        r := GetLastFinalizedBlock();
        return;
      }
      var base := BestFinalCandidate(round - 1);
      r := base;
      if tree.nodes[base].children == [] || round !in rounds {
        assert GhostStep(tree, rounds, Threshold(StakeTotal(voterStaked)), round, base, r);
        return;
      }
      var g := rounds[round].preVote;
      SoundIsValid(rounds[round], round, tree, voterStaked);
      var weights := GraphWeights(g, false);
      var threshold := GetSupermajorityThreshold();
      var found := Search(g.tree, weights, g.eligible, base, threshold);
      assert Found(g, threshold, base, found);
      if found.Some? && found.value in tree.nodes && found.value != base && Below(tree, found.value, base) {
        r := found.value;
        forall d | d in finalized ensures Below(tree, r, d) {
          BelowTransitive(tree, r, base, d);
        }
      }
      assert GhostStep(tree, rounds, threshold, round, base, r);
    }

    /** How an attempt at the round ended that began with these finalized blocks. */
    ghost predicate Attempted(round: nat, before: set<Hash>, ok: bool)
      reads this`tree, this`rounds, this`finalized
    {
      Outcome(tree, before, rounds, voterStaked, round, finalized, ok)
    }

    /**
     Finalizes the round's candidate exactly if its observed precommit weight exceeds the
     threshold; the finalized blocks are then the candidate and its ancestors, among them
     all that were finalized before.
     */
    method AttemptToFinalizeAtRound(round: nat) returns (ok: bool)
      requires Valid()
      modifies this`finalized
      ensures Valid() && old(finalized) <= finalized && Attempted(round, old(finalized), ok)
    {
      hide RoundGhost;
      var last := GetLastFinalizedBlock();
      var candidate := BestFinalCandidate(round);
      if round !in rounds {
        return false;
      }
      var g := rounds[round].preCommit;
      if candidate !in g.tree.nodes {
        return false;
      }
      var threshold := GetSupermajorityThreshold();
      SoundIsValid(rounds[round], round, tree, voterStaked);
      finalized := FinalizeCandidate(tree, finalized, g, last, candidate, threshold);
      return true;
    }
  }
}
