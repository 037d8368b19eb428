/**
 What the weights of a round prove about finality: conflicting blocks cannot both be
 backed by a supermajority unless more than a third of the stake equivocated, and
 then the supermajority blocks form a chain whose tip only moves down the tree.
 */
module Finality {
  import opened Options
  import opened Sums
  import opened Votes
  import opened Evidence
  import opened Trees
  import opened BlockTrees

  /** Two thirds of the total stake, rounded down, plus one. */
  function Threshold(total: nat): nat {
    total * 2 / 3 + 1
  }

  ghost function StakeTotal(stakes: map<Key, nat>): nat {
    Sum(stakes.Keys, stakes)
  }

  /** Voters that join without a stake do not change the total. */
  lemma TotalIsStakes(t: Tracker, stakes: map<Key, nat>)
    requires BuiltOn(t, stakes)
    ensures TotalStake(t) == StakeTotal(stakes)
  {
    forall v | v in t.voters.Keys ensures Get(Stakes(t), v) == Get(stakes, v) {
      assert v in t.voters;
    }
    SumCongruent(t.voters.Keys, Stakes(t), stakes);
    SumSubset(stakes.Keys, t.voters.Keys, stakes);
    SumZero(t.voters.Keys - stakes.Keys, stakes);
  }

  /**
   Accountable safety in one view: if two conflicting blocks both reach the threshold,
   the equivocating stake is at least twice the threshold minus the total, which is
   more than a third of all stake.
   */
  lemma AccountableSafety(tree: Tree, t: Tracker, a: Hash, b: Hash)
    requires WellFormed(tree) && Valid(t) && Conflicting(tree, a, b)
    requires Observed(t, Subtree(tree, a)) >= Threshold(TotalStake(t))
    requires Observed(t, Subtree(tree, b)) >= Threshold(TotalStake(t))
    ensures EquivocationWeight(t) >= 2 * Threshold(TotalStake(t)) - TotalStake(t)
    ensures 3 * EquivocationWeight(t) > TotalStake(t)
  {
    ConflictingDisjoint(tree, a, b);
    DisjointSupport(t, Subtree(tree, a), Subtree(tree, b));
  }

  lemma {:induction false} AddAllConcat(t: Tracker, xs: seq<Offer>, ys: seq<Offer>)
    ensures AddAll(t, xs + ys) == AddAll(AddAll(t, xs), ys)
    decreases |ys|
  {
    if ys == [] {
      assert xs + ys == xs;
    } else {
      assert (xs + ys)[..|xs + ys| - 1] == xs + ys[..|ys| - 1];
      AddAllConcat(t, xs, ys[..|ys| - 1]);
    }
  }

  lemma {:induction false} OfferedConcat(stage: Stage, xs: seq<Offer>, ys: seq<Offer>)
    ensures Offered(stage, xs + ys) == Offered(stage, xs) + Offered(stage, ys)
    decreases |ys|
  {
    if ys == [] {
      assert xs + ys == xs;
    } else {
      assert (xs + ys)[..|xs + ys| - 1] == xs + ys[..|ys| - 1];
      OfferedConcat(stage, xs, ys[..|ys| - 1]);
    }
  }

  /**
   Accountable safety between nodes: when two nodes saw different votes of one round
   and stage and each saw a supermajority for one of two conflicting blocks, then the
   votes of both together convict more than a third of the stake of equivocation.
   */
  lemma AccountableSafetyAcrossViews(
    tree: Tree, stage: Stage, round: nat, stakes: map<Key, nat>, xs: seq<Offer>, ys: seq<Offer>, a: Hash, b: Hash)
    requires WellFormed(tree) && Conflicting(tree, a, b)
    requires Observed(AddAll(Fresh(stage, round, stakes), xs), Subtree(tree, a)) >= Threshold(StakeTotal(stakes))
    requires Observed(AddAll(Fresh(stage, round, stakes), ys), Subtree(tree, b)) >= Threshold(StakeTotal(stakes))
    ensures var both := AddAll(Fresh(stage, round, stakes), xs + ys);
      && EquivocationWeight(both) >= 2 * Threshold(StakeTotal(stakes)) - StakeTotal(stakes)
      && 3 * EquivocationWeight(both) > StakeTotal(stakes)
  {
    var start := Fresh(stage, round, stakes);
    var both, flipped := AddAll(start, xs + ys), AddAll(start, ys + xs);
    FreshValid(stage, round, stakes);
    AddAllStep(start, xs);
    AddAllStep(start, ys);
    AddAllStep(start, xs + ys);
    AddAllBuiltOn(start, xs + ys, stakes);
    TotalIsStakes(both, stakes);
    AddAllConcat(start, xs, ys);
    AddAllConcat(start, ys, xs);
    ObservedNeverDecreases(AddAll(start, xs), ys, Subtree(tree, a));
    ObservedNeverDecreases(AddAll(start, ys), xs, Subtree(tree, b));
    OfferedConcat(stage, xs, ys);
    OfferedConcat(stage, ys, xs);
    Convergence(stage, round, stakes, xs + ys, ys + xs, Subtree(tree, b), b);
    AccountableSafety(tree, both, a, b);
  }

  // ---------- supermajority blocks ----------

  /** The weights are the observed weights of the blocks' subtrees. */
  ghost predicate ObservedWeights(tree: Tree, t: Tracker, weight: map<Hash, nat>) {
    forall d :: d in tree.nodes ==> Get(weight, d) == Observed(t, Subtree(tree, d))
  }

  lemma ObservedDownwards(tree: Tree, t: Tracker, d: Hash, a: Hash)
    requires Valid(t) && Below(tree, d, a)
    ensures Observed(t, Subtree(tree, d)) <= Observed(t, Subtree(tree, a))
  {
    SubtreeNested(tree, d, a);
    ObservedBySupporters(t, Subtree(tree, d));
    ObservedBySupporters(t, Subtree(tree, a));
    SumSubset(Supporters(t, Subtree(tree, d)), Supporters(t, Subtree(tree, a)), Stakes(t));
  }

  /** With observed weights, being reached by the search means being a heavy descendant. */
  lemma {:induction false} ReachedIsHeavy(
    tree: Tree, t: Tracker, weight: map<Hash, nat>, threshold: nat, start: Hash, d: Hash)
    requires WellFormed(tree) && Valid(t) && ObservedWeights(tree, t, weight) && d in tree.nodes
    ensures Reached(tree, weight, threshold, start, d)
       <==> Below(tree, d, start) && Observed(t, Subtree(tree, d)) >= threshold
    decreases tree.nodes[d].height
  {
    if d != start && tree.nodes[d].parent.Some? {
      var p := tree.nodes[d].parent.value;
      assert IsParent(tree, p, d);
      ChildBelow(tree, p, d);
      ObservedDownwards(tree, t, d, p);
      ReachedIsHeavy(tree, t, weight, threshold, start, p);
    }
  }

  /** With at most a third equivocating, no two supermajority blocks conflict. */
  lemma SupermajorityIsChain(tree: Tree, t: Tracker, a: Hash, b: Hash)
    requires WellFormed(tree) && Valid(t) && 3 * EquivocationWeight(t) <= TotalStake(t)
    requires Observed(t, Subtree(tree, a)) >= Threshold(TotalStake(t))
    requires Observed(t, Subtree(tree, b)) >= Threshold(TotalStake(t))
    ensures !Conflicting(tree, a, b)
  {
    if Conflicting(tree, a, b) {
      AccountableSafety(tree, t, a, b);
    }
  }

  lemma ObservedInPart(s: Tree, tree: Tree, t: Tracker, a: Hash)
    requires Valid(t) && WellFormed(s) && PartOf(s, tree)
    ensures Observed(t, Subtree(s, a)) <= Observed(t, Subtree(tree, a))
  {
    PartSubtree(s, tree, a);
    ObservedBySupporters(t, Subtree(s, a));
    ObservedBySupporters(t, Subtree(tree, a));
    SumSubset(Supporters(t, Subtree(s, a)), Supporters(t, Subtree(tree, a)), Stakes(t));
  }

  /** A candidate stays one as votes arrive, blocks are added and blocks become eligible. */
  lemma CandidateStays(
    s: Tree, tree: Tree, t: Tracker, offers: seq<Offer>, threshold: nat, flagged: set<Hash>, grown: set<Hash>, start: Hash,
    before: map<Hash, nat>, after: map<Hash, nat>, g: Hash)
    requires WellFormed(s) && WellFormed(tree) && PartOf(s, tree) && flagged <= grown && Valid(t)
    requires ObservedWeights(s, t, before) && ObservedWeights(tree, AddAll(t, offers), after)
    requires Candidate(s, before, threshold, start, flagged, g)
    ensures Candidate(tree, after, threshold, start, grown, g)
  {
    AddAllStep(t, offers);
    ReachedIsHeavy(s, t, before, threshold, start, g);
    ObservedNeverDecreases(t, offers, Subtree(s, g));
    ObservedInPart(s, tree, AddAll(t, offers), g);
    PartBelow(s, tree, g, start);
    ReachedIsHeavy(tree, AddAll(t, offers), after, threshold, start, g);
  }

  /**
   The ghost only moves down: as votes arrive, blocks are added and blocks become
   eligible, the search result moves to descendants and never to a conflicting or an
   older block, as long as at most a third of the stake has equivocated.
   */
  lemma GhostMovesDown(
    s: Tree, tree: Tree, t: Tracker, offers: seq<Offer>, stakes: map<Key, nat>, flagged: set<Hash>, grown: set<Hash>, start: Hash,
    before: map<Hash, nat>, after: map<Hash, nat>, g: Hash, r: Option<Hash>)
    requires WellFormed(s) && WellFormed(tree) && PartOf(s, tree) && flagged <= grown && Valid(t) && BuiltOn(t, stakes)
    requires ObservedWeights(s, t, before) && ObservedWeights(tree, AddAll(t, offers), after)
    requires 3 * EquivocationWeight(AddAll(t, offers)) <= StakeTotal(stakes)
    requires IsGhost(s, before, Threshold(StakeTotal(stakes)), start, flagged, Some(g))
    requires IsGhost(tree, after, Threshold(StakeTotal(stakes)), start, grown, r)
    ensures r.Some? && Below(tree, r.value, g)
  {
    var later, T := AddAll(t, offers), Threshold(StakeTotal(stakes));
    CandidateStays(s, tree, t, offers, T, flagged, grown, start, before, after, g);
    AddAllStep(t, offers);
    AddAllBuiltOn(t, offers, stakes);
    TotalIsStakes(later, stakes);
    var h := r.value;
    assert Candidate(tree, after, T, start, grown, h);
    ReachedIsHeavy(tree, later, after, T, start, g);
    ReachedIsHeavy(tree, later, after, T, start, h);
    SupermajorityIsChain(tree, later, g, h);
    assert NotBetter(tree, g, h);
    if Below(tree, g, h) {
      BelowHeight(tree, g, h);
    }
  }
}
