/**
 The vote tracker object: the maps that AddVote updates in place and the loops that
 add up stake. Value() is the tracker value the theorems speak about. Weights are
 exact integers here: PotentialBounded in module Votes shows that none of them
 exceeds the total stake, so 64-bit sums do not wrap when the total fits.
 */
module VoteTrackers {
  import opened Sums
  import opened Votes

  datatype Result<T> = Ok(value: T) | Err(message: string)

  class VoteTracker {
    const stage: Stage
    const round: nat
    var blockHashes: map<nat, Hash>
    var votes: map<Key, map<Hash, SignedMessage>>
    var voterState: map<Key, VoterState>

    function Value(): Tracker
      reads this
    {
      Tracker(stage, round, blockHashes, votes, voterState)
    }

    constructor (stage: Stage, round: nat, voterStaked: map<Key, nat>)
      ensures Value() == Fresh(stage, round, voterStaked)
      ensures Valid(Value()) && BuiltOn(Value(), voterStaked)
    {
      this.stage, this.round := stage, round;
      blockHashes, votes := map[], map[];
      voterState := map v | v in voterStaked :: VoterState(NotParticipate, voterStaked[v]);
    }

    function GetVoterState(voter: Key): VoterState
      reads this
    {
      if voter in voterState then voterState[voter] else VoterState(NotParticipate, 0)
    }

    /** Records a new vote and moves its voter on; a repeated vote or a wrong stage is an error. */
    method AddVote(vote: SignedMessage, stage: Stage) returns (ok: bool)
      modifies this
      ensures ok == Accepts(old(Value()), Offer(vote, stage))
      ensures Value() == Votes.AddVote(old(Value()), Offer(vote, stage))
    {
      var voter := vote.voter;
      if stage != this.stage {
        return false;
      }
      var mine := if voter in votes then votes[voter] else map[];
      if vote.block in mine {
        return false;
      }
      blockHashes := blockHashes[vote.slot := vote.block];
      votes := votes[voter := mine[vote.block := vote]];
      var current := GetVoterState(voter);
      if current.state == NotParticipate {
        voterState := voterState[voter := VoterState(Voted, current.staked)];
      } else if current.state == Voted {
        voterState := voterState[voter := VoterState(Equivocation, current.staked)];
      } else {
        assert voter in voterState && voterState[voter] == current;
        assert voterState == voterState[voter := current];
      }
      return true;
    }

    /** Stake of the non-equivocating voters on record for the block. */
    method GetVotesWeight(block: Hash) returns (weight: nat)
      requires Valid(Value())
      ensures weight == VotesWeight(Value(), block)
    {
      weight := AddUpVotes(Value(), block);
    }

    /** Stake of the equivocating voters, each counted once. */
    method GetEquivocationWeight() returns (weight: nat)
      requires Valid(Value())
      ensures weight == EquivocationWeight(Value())
    {
      weight := AddUpEquivocations(Value());
    }

    /** Stake of the known voters that have not voted. */
    method GetUnvotedWeight() returns (weight: nat)
      ensures weight == UnvotedWeight(Value())
    {
      weight := AddUpUnvoted(voterState, Value());
    }

    /** The primary's proposal counts only if it is the voter's single vote. */
    method GetPrimaryPropose(voter: Key) returns (r: Result<Hash>)
      requires Valid(Value())
      ensures r.Ok? <==> StateOf(Value(), voter).state == Voted
      ensures r.Ok? ==> BlocksOf(Value(), voter) == {r.value}
    {
      if voter !in votes || |votes[voter]| == 0 {
        return Err("no vote found");
      }
      assert |votes[voter]| == |votes[voter].Keys|;
      if |votes[voter]| > 1 {
        return Err("multiple votes from the primary propose");
      }
      ghost var only := OnlyMember(votes[voter].Keys);
      var hash :| hash in votes[voter];
      return Ok(hash);
    }
  }

  // ---------- the accumulating loops ----------

  /** Visits every recorded vote and counts those for the block whose voter has not equivocated. */
  method AddUpVotes(t: Tracker, block: Hash) returns (weight: nat)
    requires Valid(t)
    ensures weight == VotesWeight(t, block)
  {
    weight := 0;
    ghost var counted := VotersFor(t, block);
    var rest := t.votes.Keys;
    assert counted * rest == counted;
    while rest != {}
      invariant rest <= t.votes.Keys
      invariant weight + Sum(counted * rest, Stakes(t)) == Sum(counted, Stakes(t))
      decreases |rest|
    {
      ghost var m := Member(rest);
      var voter :| voter in rest;
      var own := VotesOfVoter(t, voter, block);
      weight := weight + own;
      TakeNext(counted, rest, voter, Stakes(t));
      rest := rest - {voter};
    }
  }

  method VotesOfVoter(t: Tracker, voter: Key, block: Hash) returns (weight: nat)
    requires Valid(t) && voter in t.votes
    ensures weight == if voter in VotersFor(t, block) then Get(Stakes(t), voter) else 0
  {
    weight := 0;
    var blocks := t.votes[voter].Keys;
    while blocks != {}
      invariant blocks <= t.votes[voter].Keys
      invariant weight == if voter in VotersFor(t, block) && block !in blocks then Get(Stakes(t), voter) else 0
      decreases |blocks|
    {
      ghost var m := Member(blocks);
      var b :| b in blocks;
      var vote := t.votes[voter][b];
      if vote.block == block && StateOf(t, vote.voter).state != Equivocation {
        weight := weight + StateOf(t, vote.voter).staked;
      }
      blocks := blocks - {b};
    }
  }

  /** Visits every recorded vote and counts each equivocating voter the first time it is seen. */
  method AddUpEquivocations(t: Tracker) returns (weight: nat)
    requires Valid(t)
    ensures weight == EquivocationWeight(t)
  {
    weight := 0;
    ghost var counted := Equivocators(t);
    var visited: set<Key> := {};
    var rest := t.votes.Keys;
    EquivocatorsVoted(t);
    assert counted * rest == counted;
    while rest != {}
      invariant rest <= t.votes.Keys && visited !! rest
      invariant weight + Sum(counted * rest, Stakes(t)) == Sum(counted, Stakes(t))
      decreases |rest|
    {
      ghost var m := Member(rest);
      var voter :| voter in rest;
      var own;
      own, visited := EquivocationOfVoter(t, voter, visited);
      weight := weight + own;
      TakeNext(counted, rest, voter, Stakes(t));
      rest := rest - {voter};
    }
  }

  method EquivocationOfVoter(t: Tracker, voter: Key, visited: set<Key>) returns (weight: nat, visited': set<Key>)
    requires Valid(t) && voter in t.votes && voter !in visited
    ensures weight == if voter in Equivocators(t) then Get(Stakes(t), voter) else 0
    ensures visited' == if voter in Equivocators(t) then visited + {voter} else visited
  {
    weight, visited' := 0, visited;
    var blocks := t.votes[voter].Keys;
    while blocks != {}
      invariant blocks <= t.votes[voter].Keys
      invariant blocks == {} && voter in Equivocators(t) ==> voter in visited'
      invariant if voter in visited'
        then voter in Equivocators(t) && visited' == visited + {voter} && weight == Get(Stakes(t), voter)
        else visited' == visited && weight == 0
      decreases |blocks|
    {
      ghost var m := Member(blocks);
      var b :| b in blocks;
      var vote := t.votes[voter][b];
      if StateOf(t, vote.voter).state == Equivocation && vote.voter !in visited' {
        weight := weight + StateOf(t, vote.voter).staked;
        visited' := visited' + {vote.voter};
      }
      blocks := blocks - {b};
    }
  }

  method AddUpUnvoted(voters: map<Key, VoterState>, ghost t: Tracker) returns (weight: nat)
    requires voters == t.voters
    ensures weight == UnvotedWeight(t)
  {
    weight := 0;
    ghost var counted := Unvoted(t);
    var rest := voters.Keys;
    assert counted * rest == counted;
    while rest != {}
      invariant rest <= voters.Keys
      invariant weight + Sum(counted * rest, Stakes(t)) == Sum(counted, Stakes(t))
      decreases |rest|
    {
      ghost var m := Member(rest);
      var voter :| voter in rest;
      if voters[voter].state == NotParticipate {
        weight := weight + voters[voter].staked;
      }
      TakeNext(counted, rest, voter, Stakes(t));
      rest := rest - {voter};
    }
  }

  lemma EquivocatorsVoted(t: Tracker)
    requires Valid(t)
    ensures Equivocators(t) <= t.votes.Keys
  {
    forall v | v in Equivocators(t) ensures v in t.votes {
      assert |BlocksOf(t, v)| != 0;
    }
  }

  lemma TakeNext(s: set<Key>, rest: set<Key>, x: Key, m: map<Key, nat>)
    requires x in rest
    ensures Sum(s * rest, m) == Sum(s * (rest - {x}), m) + if x in s then Get(m, x) else 0
  {
    if x in s {
      SumRemove(s * rest, m, x);
      assert s * rest - {x} == s * (rest - {x});
    } else {
      assert s * rest == s * (rest - {x});
    }
  }
}
