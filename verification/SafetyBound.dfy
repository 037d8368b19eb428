/**
 The threshold of a supermajority is the least safe one: for every total stake and every
 lower threshold there is a round in which two conflicting blocks reach it although at most
 a third of the stake equivocates. The bound of accountable safety is exact as well.
 */
module SafetyBound {
  import opened Sums
  import opened Votes
  import opened Trees
  import opened Finality

  /** The stake that must stand behind both of two conflicting blocks for each to reach the goal. */
  function Shared(total: nat, goal: nat): nat {
    if 2 * goal > total then 2 * goal - total else 0
  }

  /** Two voters stand behind one block each, the third behind both. */
  function SplitStakes(total: nat, goal: nat): map<Key, nat>
    requires goal <= total
  {
    if 2 * goal > total then map[0 := total - goal, 1 := total - goal, 2 := 2 * goal - total]
    else map[0 := goal, 1 := total - goal, 2 := 0]
  }

  function Vote(voter: Key, block: Hash): Offer {
    Offer(SignedMessage(Precommit, block, 1, 0, voter), Precommit)
  }

  function SplitVotes(): seq<Offer> {
    [Vote(0, 1), Vote(1, 2), Vote(2, 1), Vote(2, 2)]
  }

  lemma SplitPairs()
    ensures Offered(Precommit, SplitVotes()) == {(0, 1), (1, 2), (2, 1), (2, 2)}
  {
    var v := SplitVotes();
    assert v[..3] == [Vote(0, 1), Vote(1, 2), Vote(2, 1)];
    assert v[..3][..2] == [Vote(0, 1), Vote(1, 2)];
    assert v[..3][..2][..1] == [Vote(0, 1)];
    assert v[..3][..2][..1][..0] == [];
    assert Offered(Precommit, v[..3][..2][..1]) == {(0, 1)};
    assert Offered(Precommit, v[..3][..2]) == {(0, 1), (1, 2)};
  }

  ghost predicate IsSplit(t: Tracker, total: nat, goal: nat)
    requires goal <= total
  {
    Valid(t) && BuiltOn(t, SplitStakes(total, goal)) && Pairs(t) == {(0, 1), (1, 2), (2, 1), (2, 2)}
  }

  lemma SplitTracker(total: nat, goal: nat)
    requires goal <= total
    ensures IsSplit(AddAll(Fresh(Precommit, 0, SplitStakes(total, goal)), SplitVotes()), total, goal)
  {
    var start := Fresh(Precommit, 0, SplitStakes(total, goal));
    FreshValid(Precommit, 0, SplitStakes(total, goal));
    assert Pairs(start) == {};
    AddAllStep(start, SplitVotes());
    AddAllBuiltOn(start, SplitVotes(), SplitStakes(total, goal));
    SplitPairs();
  }

  lemma SplitVoters(t: Tracker, total: nat, goal: nat)
    requires goal <= total && IsSplit(t, total, goal)
    ensures t.voters.Keys == {0, 1, 2} && Stakes(t) == SplitStakes(total, goal)
  {
    forall v | v in t.votes ensures v in {0, 1, 2} {
      var b := Member(t.votes[v].Keys);
      InPairs(t, v, b);
    }
  }

  /** Voters 0 and 1 have voted once, voter 2 has equivocated. */
  lemma SplitStates(t: Tracker, total: nat, goal: nat)
    requires goal <= total && IsSplit(t, total, goal)
    ensures Equivocators(t) == {2} && VotersInside(t, {1}) == {0} && VotersInside(t, {2}) == {1}
  {
    SplitVoters(t, total, goal);
    SplitBlocks(t);
    assert t.voters[0].state == Voted && t.voters[1].state == Voted && t.voters[2].state == Equivocation;
    assert 1 in BlocksOf(t, 0) && 2 in BlocksOf(t, 1);
  }

  lemma SplitBlocks(t: Tracker)
    requires Pairs(t) == {(0, 1), (1, 2), (2, 1), (2, 2)}
    ensures BlocksOf(t, 0) == {1} && BlocksOf(t, 1) == {2} && BlocksOf(t, 2) == {1, 2}
    ensures |BlocksOf(t, 0)| == 1 && |BlocksOf(t, 1)| == 1 && |BlocksOf(t, 2)| == 2
  {
    forall v, b ensures (v, b) in Pairs(t) <==> b in BlocksOf(t, v) {
      InPairs(t, v, b);
    }
    assert forall b :: b in BlocksOf(t, 0) <==> (0, b) in Pairs(t);
    assert forall b :: b in BlocksOf(t, 1) <==> (1, b) in Pairs(t);
    assert forall b :: b in BlocksOf(t, 2) <==> (2, b) in Pairs(t);
  }

  lemma SumOfTwo(a: Key, b: Key, m: map<Key, nat>)
    requires a != b
    ensures Sum({a, b}, m) == Get(m, a) + Get(m, b) && Sum({a}, m) == Get(m, a)
  {
    SumRemove({a, b}, m, a);
    assert {a, b} - {a} == {b};
    SumRemove({b}, m, b);
    assert {b} - {b} == {};
    SumRemove({a}, m, a);
    assert {a} - {a} == {};
  }

  lemma SplitSums(total: nat, goal: nat)
    requires goal <= total
    ensures var s := SplitStakes(total, goal);
      && Sum({0, 2}, s) == goal <= Sum({1, 2}, s)
      && Sum({2}, s) == Shared(total, goal) && Sum({0, 1, 2}, s) == total
      && (2 * goal > total ==> Sum({1, 2}, s) == goal)
  {
    var s := SplitStakes(total, goal);
    SumOfTwo(0, 2, s);
    SumOfTwo(1, 2, s);
    SumOfTwo(2, 0, s);
    SumRemove({0, 1, 2}, s, 0);
    assert {0, 1, 2} - {0} == {1, 2};
  }

  lemma OneSide(t: Tracker, b: Hash, v: Key)
    requires Valid(t) && VotersInside(t, {b}) == {v} && Equivocators(t) == {2}
    ensures Observed(t, {b}) == Sum({v, 2}, Stakes(t)) && EquivocationWeight(t) == Sum({2}, Stakes(t))
  {
    ObservedBySupporters(t, {b});
    assert Supporters(t, {b}) == {v, 2};
  }

  lemma SplitWeights(t: Tracker, total: nat, goal: nat)
    requires goal <= total && IsSplit(t, total, goal)
    ensures Observed(t, {1}) == goal <= Observed(t, {2}) && (2 * goal > total ==> Observed(t, {2}) == goal)
    ensures EquivocationWeight(t) == Shared(total, goal) && TotalStake(t) == total
  {
    SplitVoters(t, total, goal);
    SplitStates(t, total, goal);
    OneSide(t, 1, 0);
    OneSide(t, 2, 1);
    SplitSums(total, goal);
  }

  /** A round of this total in which two conflicting blocks reach the goal. */
  ghost predicate BothReach(tree: Tree, t: Tracker, a: Hash, b: Hash, total: nat, goal: nat) {
    && WellFormed(tree) && Valid(t) && TotalStake(t) == total && Conflicting(tree, a, b)
    && Observed(t, Subtree(tree, a)) >= goal && Observed(t, Subtree(tree, b)) >= goal
  }

  /** For every goal some round reaches it on both sides with no more equivocating stake than must be shared. */
  lemma SplitReaches(total: nat, goal: nat)
    requires goal <= total
    ensures var t := AddAll(Fresh(Precommit, 0, SplitStakes(total, goal)), SplitVotes());
      BothReach(Fork(), t, 1, 2, total, goal) && EquivocationWeight(t) == Shared(total, goal)
  {
    ForkShape();
    SplitTracker(total, goal);
    SplitWeights(AddAll(Fresh(Precommit, 0, SplitStakes(total, goal)), SplitVotes()), total, goal);
  }

  /** Two conflicting blocks that reach the goal always convict more than a third. */
  ghost predicate SafeGoal(total: nat, goal: nat) {
    forall tree: Tree, t: Tracker, a: Hash, b: Hash ::
      BothReach(tree, t, a, b, total, goal) ==> 3 * EquivocationWeight(t) > total
  }

  /** The threshold is the least safe goal, for every total stake. */
  lemma ThresholdIsLeastSafe(total: nat, goal: nat)
    ensures SafeGoal(total, goal) <==> goal >= Threshold(total)
  {
    if goal >= Threshold(total) {
      forall tree: Tree, t: Tracker, a: Hash, b: Hash | BothReach(tree, t, a, b, total, goal)
        ensures 3 * EquivocationWeight(t) > total
      {
        AccountableSafety(tree, t, a, b);
      }
    } else {
      var t := AddAll(Fresh(Precommit, 0, SplitStakes(total, goal)), SplitVotes());
      SplitReaches(total, goal);
      assert BothReach(Fork(), t, 1, 2, total, goal) && 3 * EquivocationWeight(t) <= total;
    }
  }

  /** Both conflicting blocks reach the threshold, and the equivocating stake is exactly the bound. */
  lemma SafetyBoundIsTight(total: nat)
    requires total > 0
    ensures var goal := Threshold(total);
      var t := AddAll(Fresh(Precommit, 0, SplitStakes(total, goal)), SplitVotes());
      && BothReach(Fork(), t, 1, 2, total, goal)
      && Observed(t, Subtree(Fork(), 1)) == goal == Observed(t, Subtree(Fork(), 2))
      && EquivocationWeight(t) == 2 * goal - total
  {
    var goal := Threshold(total);
    var t := AddAll(Fresh(Precommit, 0, SplitStakes(total, goal)), SplitVotes());
    ForkShape();
    SplitReaches(total, goal);
    SplitTracker(total, goal);
    SplitWeights(t, total, goal);
  }
}
