/**
 How the evidence in a vote tracker behaves over whole runs: it does not depend on
 the order or repetition of votes, it only ever grows, and what it can still grow to
 is bounded by the potential weight.
 */
module Evidence {
  import opened Sums
  import opened Votes

  // ---------- convergence ----------

  ghost function BlocksIn(pairs: set<(Key, Hash)>, v: Key): set<Hash> {
    set p | p in pairs && p.0 == v :: p.1
  }

  /** Reference definition: the voter table as a function of stakes and recorded pairs. */
  ghost function VoterTable(stakes: map<Key, nat>, pairs: set<(Key, Hash)>): map<Key, VoterState> {
    map v | v in stakes.Keys + (set p | p in pairs :: p.0) :: VoterState(Classify(|BlocksIn(pairs, v)|), Get(stakes, v))
  }

  lemma BlocksInPairs(t: Tracker, v: Key)
    ensures BlocksIn(Pairs(t), v) == BlocksOf(t, v)
  {
    forall b ensures b in BlocksIn(Pairs(t), v) <==> b in BlocksOf(t, v) {
      if b in BlocksOf(t, v) {
        assert (v, b) in Pairs(t);
      }
    }
  }

  lemma TableOfTracker(t: Tracker, stakes: map<Key, nat>)
    requires Valid(t) && BuiltOn(t, stakes)
    ensures t.voters == VoterTable(stakes, Pairs(t))
  {
    var named := set p | p in Pairs(t) :: p.0;
    forall v ensures v in named <==> v in t.votes {
      if v in t.votes {
        var b := Member(t.votes[v].Keys);
        assert (v, b) in Pairs(t) && (v, b).0 == v;
      }
    }
    forall v | v in t.voters ensures t.voters[v] == VoterTable(stakes, Pairs(t))[v] {
      BlocksInPairs(t, v);
    }
  }

  /** Equal tables and equal pairs give equal weights everywhere. */
  lemma SameWeights(t: Tracker, r: Tracker, blocks: set<Hash>, b: Hash)
    requires t.voters == r.voters && Pairs(t) == Pairs(r)
    ensures VotesWeight(t, b) == VotesWeight(r, b)
    ensures EquivocationWeight(t) == EquivocationWeight(r) && UnvotedWeight(t) == UnvotedWeight(r)
    ensures Observed(t, blocks) == Observed(r, blocks) && Potential(t, blocks) == Potential(r, blocks)
  {
    forall c ensures VotersFor(t, c) == VotersFor(r, c) {
      forall v ensures v in VotersFor(t, c) <==> v in VotersFor(r, c) {
        BlocksInPairs(t, v);
        BlocksInPairs(r, v);
      }
    }
    assert WeightMap(t, blocks) == WeightMap(r, blocks);
  }

  /** The pairs offered to a fresh tracker determine its pairs and its voter table. */
  lemma RunTable(stage: Stage, round: nat, stakes: map<Key, nat>, xs: seq<Offer>)
    ensures var t := AddAll(Fresh(stage, round, stakes), xs);
      Pairs(t) == Offered(stage, xs) && t.voters == VoterTable(stakes, Offered(stage, xs))
  {
    var empty := Fresh(stage, round, stakes);
    FreshValid(stage, round, stakes);
    assert Pairs(empty) == {};
    AddAllStep(empty, xs);
    AddAllBuiltOn(empty, xs, stakes);
    TableOfTracker(AddAll(empty, xs), stakes);
  }

  /**
   Convergence: two runs that offer the same (voter, block) pairs, in any order and
   with any repetition, end with the same pairs, voter table and weights; and both are
   what the pairs alone determine.
   */
  lemma Convergence(
    stage: Stage, round: nat, stakes: map<Key, nat>, xs: seq<Offer>, ys: seq<Offer>, blocks: set<Hash>, b: Hash)
    requires Offered(stage, xs) == Offered(stage, ys)
    ensures var t, r := AddAll(Fresh(stage, round, stakes), xs), AddAll(Fresh(stage, round, stakes), ys);
      && Pairs(t) == Pairs(r) == Offered(stage, xs)
      && t.voters == r.voters == VoterTable(stakes, Offered(stage, xs))
      && VotesWeight(t, b) == VotesWeight(r, b)
      && EquivocationWeight(t) == EquivocationWeight(r) && UnvotedWeight(t) == UnvotedWeight(r)
      && Observed(t, blocks) == Observed(r, blocks) && Potential(t, blocks) == Potential(r, blocks)
  {
    RunTable(stage, round, stakes, xs);
    RunTable(stage, round, stakes, ys);
    SameWeights(AddAll(Fresh(stage, round, stakes), xs), AddAll(Fresh(stage, round, stakes), ys), blocks, b);
  }

  /** A pair is offered by a run exactly when some call of the run carries it. */
  lemma {:induction false} OfferedMember(stage: Stage, offers: seq<Offer>, p: (Key, Hash))
    ensures p in Offered(stage, offers) <==> exists i :: 0 <= i < |offers| && offers[i].stage == stage && PairOf(offers[i]) == p
    decreases |offers|
  {
    if offers != [] {
      var init := offers[..|offers| - 1];
      OfferedMember(stage, init, p);
      forall i | 0 <= i < |init| ensures init[i] == offers[i] {
      }
      if p in Offered(stage, init) {
        var i :| 0 <= i < |init| && init[i].stage == stage && PairOf(init[i]) == p;
        assert offers[i].stage == stage && PairOf(offers[i]) == p;
      }
      if i :| 0 <= i < |offers| && offers[i].stage == stage && PairOf(offers[i]) == p {
        if i < |init| {
          assert init[i].stage == stage && PairOf(init[i]) == p;
        }
      }
    }
  }

  // ---------- growth ----------

  lemma ExtendsBlocks(t: Tracker, r: Tracker, v: Key)
    requires Extends(t, r)
    ensures BlocksOf(t, v) <= BlocksOf(r, v)
  {
    forall b | b in BlocksOf(t, v) ensures b in BlocksOf(r, v) {
      assert v in t.votes && b in t.votes[v];
    }
  }

  lemma SmallerCount(s: set<Hash>, u: set<Hash>)
    requires s <= u
    ensures |s| <= |u|
    ensures |u| == 1 && s != {} ==> s == u
  {
    assert u == s + (u - s);
    assert |u| == |s| + |u - s|;
    if |u| == 1 && s != {} {
      var b := Member(s);
      var c := OnlyMember(u);
    }
  }

  lemma SupportersGrow(t: Tracker, r: Tracker, blocks: set<Hash>)
    requires Valid(t) && Valid(r) && Extends(t, r)
    ensures Equivocators(t) <= Equivocators(r)
    ensures Supporters(t, blocks) <= Supporters(r, blocks)
  {
    forall v | v in t.voters
      ensures v in Equivocators(t) ==> v in Equivocators(r)
      ensures v in Supporters(t, blocks) ==> v in Supporters(r, blocks)
    {
      ExtendsBlocks(t, r, v);
      SmallerCount(BlocksOf(t, v), BlocksOf(r, v));
    }
  }

  lemma StakeOfExtension(t: Tracker, r: Tracker, s: set<Key>)
    requires Extends(t, r) && s <= r.voters.Keys
    ensures Sum(s, Stakes(r)) == Sum(s, Stakes(t))
  {
    forall v | v in s ensures Get(Stakes(r), v) == Get(Stakes(t), v) {
      assert v in r.voters;
    }
    SumCongruent(s, Stakes(r), Stakes(t));
  }

  /**
   Finality evidence is stable: as votes arrive, the observed weight behind any set of
   blocks never decreases, even when a voter turns equivocator.
   */
  lemma ObservedNeverDecreases(t: Tracker, offers: seq<Offer>, blocks: set<Hash>)
    requires Valid(t)
    ensures Observed(t, blocks) <= Observed(AddAll(t, offers), blocks)
    ensures EquivocationWeight(t) <= EquivocationWeight(AddAll(t, offers))
  {
    var r := AddAll(t, offers);
    AddAllStep(t, offers);
    SupportersGrow(t, r, blocks);
    ObservedBySupporters(t, blocks);
    ObservedBySupporters(r, blocks);
    StakeOfExtension(t, r, Supporters(r, blocks));
    StakeOfExtension(t, r, Equivocators(r));
    SumSubset(Supporters(t, blocks), Supporters(r, blocks), Stakes(t));
    SumSubset(Equivocators(t), Equivocators(r), Stakes(t));
  }

  lemma NewSupporters(t: Tracker, r: Tracker, blocks: set<Hash>, v: Key)
    requires Valid(t) && Valid(r) && Extends(t, r)
    requires v in Supporters(r, blocks) && v in t.voters
    ensures v in Supporters(t, blocks) + Unvoted(t) + (Equivocators(r) - Equivocators(t))
  {
    ExtendsBlocks(t, r, v);
    SmallerCount(BlocksOf(t, v), BlocksOf(r, v));
  }

  /**
   Potential weight is a forecast: whatever votes still arrive, the observed weight
   exceeds today's potential weight by at most the stake that equivocates meanwhile.
   */
  lemma PotentialBoundsFuture(t: Tracker, offers: seq<Offer>, blocks: set<Hash>)
    requires Valid(t)
    ensures Observed(AddAll(t, offers), blocks) + EquivocationWeight(t)
         <= Potential(t, blocks) + EquivocationWeight(AddAll(t, offers))
  {
    var r := AddAll(t, offers);
    AddAllStep(t, offers);
    ObservedBySupporters(t, blocks);
    ObservedBySupporters(r, blocks);
    var later, turned := Supporters(r, blocks), Equivocators(r) - Equivocators(t);
    var known := later * t.voters.Keys;
    StakeOfExtension(t, r, later);
    StakeOfExtension(t, r, Equivocators(r));
    // voters first seen in r have no stake
    SumSubset(known, later, Stakes(t));
    SumZero(later - known, Stakes(t));
    var before := Supporters(t, blocks) + Unvoted(t);
    forall v | v in known ensures v in before + (turned - before) {
      NewSupporters(t, r, blocks, v);
    }
    SumUnion(Supporters(t, blocks), Unvoted(t), Stakes(t));
    SumUnion(before, turned - before, Stakes(t));
    SumSubset(known, before + (turned - before), Stakes(t));
    SumSubset(turned - before, turned, Stakes(t));
    SupportersGrow(t, r, blocks);
    SumSubset(Equivocators(t), Equivocators(r), Stakes(t));
  }

  // ---------- the potential weight is attained ----------

  /** A vote for the block by a voter that has not voted yet. */
  function FirstVote(t: Tracker, v: Key, b: Hash): Offer {
    Offer(SignedMessage(t.stage, b, 0, 0, v), t.stage)
  }

  /** The second tracker is the first with one more vote, the only one of its voter. */
  ghost predicate FirstVoted(t: Tracker, r: Tracker, v: Key, b: Hash) {
    && v in t.voters && t.voters[v].state == NotParticipate
    && r.voters == t.voters[v := VoterState(Voted, t.voters[v].staked)]
    && forall w :: BlocksOf(r, w) == if w == v then {b} else BlocksOf(t, w)
  }

  lemma NoBlocksYet(t: Tracker, v: Key)
    requires Valid(t) && v in Unvoted(t)
    ensures BlocksOf(t, v) == {}
  {
    assert |BlocksOf(t, v)| == 0;
  }

  lemma FirstVoteRecorded(t: Tracker, v: Key, b: Hash)
    requires Valid(t) && v in Unvoted(t)
    ensures var r := AddVote(t, FirstVote(t, v, b)); Valid(r) && r.stage == t.stage && FirstVoted(t, r, v, b)
  {
    hide Valid;
    var o := FirstVote(t, v, b);
    var r := AddVote(t, o);
    AddVoteStep(t, o);
    NoBlocksYet(t, v);
    forall w ensures BlocksOf(r, w) == if w == v then {b} else BlocksOf(t, w) {
      RecordBlocks(t, o.msg, w);
    }
  }

  lemma FirstVotedSets(t: Tracker, r: Tracker, v: Key, b: Hash, blocks: set<Hash>)
    requires FirstVoted(t, r, v, b) && b in blocks
    ensures Stakes(r) == Stakes(t) && Unvoted(r) == Unvoted(t) - {v} && Equivocators(r) == Equivocators(t)
    ensures VotersInside(r, blocks) == VotersInside(t, blocks) + {v}
    ensures v !in VotersInside(t, blocks) && v !in Equivocators(t)
  {
    hide BlocksOf;
  }

  lemma FirstVoteCounts(t: Tracker, v: Key, b: Hash, blocks: set<Hash>)
    requires Valid(t) && v in Unvoted(t) && b in blocks
    ensures var r := AddVote(t, FirstVote(t, v, b));
      && Valid(r) && r.stage == t.stage && Stakes(r) == Stakes(t)
      && Unvoted(r) == Unvoted(t) - {v} && Equivocators(r) == Equivocators(t)
      && Supporters(r, blocks) == Supporters(t, blocks) + {v} && v !in Supporters(t, blocks)
  {
    hide Valid, Votes.AddVote, FirstVoted, VotersInside, Equivocators, Unvoted, Stakes;
    FirstVoteRecorded(t, v, b);
    FirstVotedSets(t, AddVote(t, FirstVote(t, v, b)), v, b, blocks);
  }

  lemma FirstVoteKeepsPotential(t: Tracker, v: Key, b: Hash, blocks: set<Hash>)
    requires Valid(t) && v in Unvoted(t) && b in blocks
    ensures var r := AddVote(t, FirstVote(t, v, b));
      Potential(r, blocks) == Potential(t, blocks) && EquivocationWeight(r) == EquivocationWeight(t)
  {
    var r := AddVote(t, FirstVote(t, v, b));
    FirstVoteCounts(t, v, b, blocks);
    ObservedBySupporters(t, blocks);
    ObservedBySupporters(r, blocks);
    SumRemove(Unvoted(t), Stakes(t), v);
    SumRemove(Supporters(r, blocks), Stakes(t), v);
    assert Supporters(r, blocks) - {v} == Supporters(t, blocks);
  }

  lemma NoneUnvoted(t: Tracker, blocks: set<Hash>)
    requires Unvoted(t) == {}
    ensures Potential(t, blocks) == Observed(t, blocks)
  {
    SumZero({}, Stakes(t));
  }

  /** The forecast is exact: if all who have not voted vote inside the set, its potential weight becomes observed. */
  lemma {:induction false} PotentialAttained(t: Tracker, blocks: set<Hash>, b: Hash) returns (offers: seq<Offer>)
    requires Valid(t) && b in blocks
    ensures Observed(AddAll(t, offers), blocks) == Potential(t, blocks)
    ensures EquivocationWeight(AddAll(t, offers)) == EquivocationWeight(t)
    decreases |Unvoted(t)|
  {
    if Unvoted(t) == {} {
      offers := [];
      NoneUnvoted(t, blocks);
    } else {
      var v := Member(Unvoted(t));
      var r := AddVote(t, FirstVote(t, v, b));
      FirstVoteCounts(t, v, b, blocks);
      FirstVoteKeepsPotential(t, v, b, blocks);
      var rest := PotentialAttained(r, blocks, b);
      offers := [FirstVote(t, v, b)] + rest;
      AddFirst(t, FirstVote(t, v, b), rest);
    }
  }

  lemma {:induction false} AddFirst(t: Tracker, o: Offer, rest: seq<Offer>)
    ensures AddAll(t, [o] + rest) == AddAll(AddVote(t, o), rest)
    decreases |rest|
  {
    if rest == [] {
      assert [o] + rest == [o] && [o][..0] == [];
    } else {
      assert ([o] + rest)[..|rest|] == [o] + rest[..|rest| - 1];
      AddFirst(t, o, rest[..|rest| - 1]);
    }
  }
}
