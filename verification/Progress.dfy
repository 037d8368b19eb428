/**
 What votes bring about: prevotes move the candidate of a round down to every block that a
 supermajority backs, and precommits for the candidate finalize it.
 */
module Progress {
  import opened Options
  import opened Votes
  import opened Trees
  import opened BlockTrees
  import opened Finalized
  import opened Finality
  import opened Rounds
  import opened Grandpas
  import opened Agreement

  // ---------- prevotes move the candidate ----------

  /** The search ends at or below every eligible block under the start that a supermajority backs. */
  lemma FoundReaches(g: Graph, t: Tracker, stakes: map<Key, nat>, start: Hash, found: Option<Hash>, d: Hash)
    requires ValidGraph(g) && g.tracker == Some(t) && BuiltOn(t, stakes) && Calm(g, stakes)
    requires Found(g, Threshold(StakeTotal(stakes)), start, found)
    requires d in g.eligible && Below(g.tree, d, start)
    requires Observed(t, Subtree(g.tree, d)) >= Threshold(StakeTotal(stakes))
    ensures found.Some? && Below(g.tree, found.value, d) && Below(g.tree, found.value, start)
  {
    var T := Threshold(StakeTotal(stakes));
    var w :| Refreshed(g, false, w) && IsGhost(g.tree, w, T, start, g.eligible, found);
    assert ObservedWeights(g.tree, t, w);
    ReachedIsHeavy(g.tree, t, w, T, start, d);
    assert Candidate(g.tree, w, T, start, g.eligible, d);
    var h := found.value;
    ReachedIsHeavy(g.tree, t, w, T, start, h);
    TotalIsStakes(t, stakes);
    SupermajorityIsChain(g.tree, t, d, h);
    if Below(g.tree, d, h) {
      BelowHeight(g.tree, d, h);
    }
  }

  lemma NothingBelowLeaf(tree: Tree, d: Hash, base: Hash)
    requires WellFormed(tree) && base in tree.nodes && Below(tree, d, base) && tree.nodes[base].children == []
    ensures d == base
  {
    if d != base {
      var c := ChildTowards(tree, d, base);
    }
  }

  /**
   The candidate of a round lies at or below every eligible block under the previous
   candidate that a supermajority of prevotes backs.
   */
  lemma PrevotesMoveCandidate(
    tree: Tree, rs: map<int, Round>, stakes: map<Key, nat>, n: nat, t: Tracker, base: Hash, r: Hash, d: Hash)
    requires n > 0 && n in rs && WellFormed(tree) && SoundRounds(rs, tree, stakes)
    requires rs[n].preVote.tracker == Some(t) && 3 * EquivocationWeight(t) <= StakeTotal(stakes)
    requires GhostStep(tree, rs, Threshold(StakeTotal(stakes)), n, base, r)
    requires d in rs[n].preVote.eligible && Below(rs[n].preVote.tree, d, base)
    requires Observed(t, Subtree(rs[n].preVote.tree, d)) >= Threshold(StakeTotal(stakes))
    ensures Below(tree, r, d)
  {
    var g := rs[n].preVote;
    SoundIsValid(rs[n], n, tree, stakes);
    FromRunValid(Prevote, n, stakes, TrackerOf(rs[n], Prevote).value);
    PartBelow(g.tree, tree, d, base);
    if tree.nodes[base].children == [] {
      NothingBelowLeaf(tree, d, base);
    } else {
      var found :| Found(g, Threshold(StakeTotal(stakes)), base, found) && r == Moved(tree, base, found);
      FoundReaches(g, t, stakes, base, found, d);
      PartBelow(g.tree, tree, found.value, d);
      PartBelow(g.tree, tree, found.value, base);
    }
  }

  /** It moves only to an eligible block below the previous one that a supermajority of prevotes backs. */
  lemma CandidateIsBacked(tree: Tree, rs: map<int, Round>, stakes: map<Key, nat>, n: nat, base: Hash, r: Hash)
    requires n > 0 && WellFormed(tree) && SoundRounds(rs, tree, stakes)
    requires GhostStep(tree, rs, Threshold(StakeTotal(stakes)), n, base, r)
    ensures Below(tree, r, base)
    ensures r != base ==>
      && n in rs && rs[n].preVote.tracker.Some? && r in rs[n].preVote.eligible
      && Observed(rs[n].preVote.tracker.value, Subtree(rs[n].preVote.tree, r)) >= Threshold(StakeTotal(stakes))
  {
    if r != base {
      var g, T := rs[n].preVote, Threshold(StakeTotal(stakes));
      SoundIsValid(rs[n], n, tree, stakes);
      var found :| Found(g, T, base, found) && r == Moved(tree, base, found);
      var w :| Refreshed(g, false, w) && IsGhost(g.tree, w, T, base, g.eligible, found);
      assert Candidate(g.tree, w, T, base, g.eligible, r);
      assert Reached(g.tree, w, T, base, r);
    }
  }

  lemma PreviousCandidate(tree: Tree, finalized: set<Hash>, rs: map<int, Round>, T: nat, n: nat, r: Hash) returns (base: Hash)
    requires n > 0 && RoundGhost(tree, finalized, rs, T, n, r)
    ensures RoundGhost(tree, finalized, rs, T, n - 1, base) && GhostStep(tree, rs, T, n, base, r)
  {
    hide GhostStep;
    base :| RoundGhost(tree, finalized, rs, T, n - 1, base) && GhostStep(tree, rs, T, n, base, r);
  }

  /** In none of the rounds 1 to n more than a third of the stake equivocated in the prevotes. */
  ghost predicate CalmUpTo(rs: map<int, Round>, stakes: map<Key, nat>, n: nat) {
    forall k :: 1 <= k <= n && k in rs ==> Calm(rs[k].preVote, stakes)
  }

  lemma CalmAgrees(rs: map<int, Round>, stakes: map<Key, nat>, n: nat, k: nat)
    requires CalmUpTo(rs, stakes, n) && k <= n
    ensures AgreeUpTo(rs, rs, stakes, k)
  {
    hide Calm;
  }

  lemma CalmAt(rs: map<int, Round>, stakes: map<Key, nat>, n: nat, t: Tracker)
    requires n > 0 && n in rs && CalmUpTo(rs, stakes, n) && rs[n].preVote.tracker == Some(t)
    ensures 3 * EquivocationWeight(t) <= StakeTotal(stakes)
  {
    hide EquivocationWeight, StakeTotal;
    assert Calm(rs[n].preVote, stakes);
  }

  /** The same for the candidates of successive rounds. */
  lemma CandidateReaches(
    tree: Tree, finalized: set<Hash>, rs: map<int, Round>, stakes: map<Key, nat>, n: nat, t: Tracker,
    base: Hash, r: Hash, d: Hash)
    requires n > 0 && n in rs && WellFormed(tree) && FinalizedClosed(tree, finalized) && IsChain(tree, finalized)
    requires SoundRounds(rs, tree, stakes) && CalmUpTo(rs, stakes, n)
    requires RoundGhost(tree, finalized, rs, Threshold(StakeTotal(stakes)), n - 1, base)
    requires RoundGhost(tree, finalized, rs, Threshold(StakeTotal(stakes)), n, r)
    requires rs[n].preVote.tracker == Some(t) && d in rs[n].preVote.eligible && Below(rs[n].preVote.tree, d, base)
    requires Observed(t, Subtree(rs[n].preVote.tree, d)) >= Threshold(StakeTotal(stakes))
    ensures Below(tree, r, d)
  {
    hide *;
    var other := PreviousCandidate(tree, finalized, rs, Threshold(StakeTotal(stakes)), n, r);
    CalmAgrees(rs, stakes, n, n - 1);
    CalmAt(rs, stakes, n, t);
    CandidateUnique(tree, finalized, rs, rs, stakes, n - 1, base, other);
    PrevotesMoveCandidate(tree, rs, stakes, n, t, base, r, d);
  }

  // ---------- precommits finalize it ----------

  /**
   If the observed precommit weight of a round's candidate exceeds the threshold, an attempt
   succeeds and finalizes it together with every block above it.
   */
  lemma PrecommitsFinalize(
    tree: Tree, before: set<Hash>, rs: map<int, Round>, stakes: map<Key, nat>, n: nat, t: Tracker, r: Hash,
    after: set<Hash>, ok: bool, d: Hash)
    requires WellFormed(tree) && FinalizedClosed(tree, before) && IsChain(tree, before)
    requires SoundRounds(rs, tree, stakes) && CalmUpTo(rs, stakes, n)
    requires RoundGhost(tree, before, rs, Threshold(StakeTotal(stakes)), n, r)
    requires n in rs && rs[n].preCommit.tracker == Some(t) && r in rs[n].preCommit.tree.nodes
    requires Observed(t, Subtree(rs[n].preCommit.tree, r)) > Threshold(StakeTotal(stakes))
    requires Outcome(tree, before, rs, stakes, n, after, ok) && Below(tree, r, d)
    ensures ok && d in after
  {
    hide *;
    var c := CandidateOf(tree, before, rs, stakes, n, after, ok);
    CalmAgrees(rs, stakes, n, n);
    CandidateUnique(tree, before, rs, rs, stakes, n, c, r);
    HeavyAncestors(tree, before, rs[n].preCommit, t, r, stakes, d);
  }

  lemma CandidateOf(
    tree: Tree, before: set<Hash>, rs: map<int, Round>, stakes: map<Key, nat>, n: nat, after: set<Hash>, ok: bool)
    returns (c: Hash)
    requires n in rs && Outcome(tree, before, rs, stakes, n, after, ok)
    ensures RoundGhost(tree, before, rs, Threshold(StakeTotal(stakes)), n, c)
    ensures ok == (c in rs[n].preCommit.tree.nodes)
    ensures after == if ok then Attempt(tree, before, rs[n].preCommit, c, stakes) else before
  {
    hide RoundGhost, Attempt;
    c :| && RoundGhost(tree, before, rs, Threshold(StakeTotal(stakes)), n, c)
         && ok == (c in rs[n].preCommit.tree.nodes)
         && after == if ok then Attempt(tree, before, rs[n].preCommit, c, stakes) else before;
  }

  lemma HeavyAncestors(tree: Tree, before: set<Hash>, g: Graph, t: Tracker, r: Hash, stakes: map<Key, nat>, d: Hash)
    requires WellFormed(tree) && Below(tree, r, d)
    requires g.tracker == Some(t) && Observed(t, Subtree(g.tree, r)) > Threshold(StakeTotal(stakes))
    ensures d in Attempt(tree, before, g, r, stakes)
  {
    BelowHeight(tree, r, d);
  }

  /**
   So a block that a supermajority of prevotes backs is finalized as soon as the candidate,
   which then lies at or below it, has the precommits.
   */
  lemma BackedBlockFinalized(
    tree: Tree, before: set<Hash>, rs: map<int, Round>, stakes: map<Key, nat>, n: nat, prevotes: Tracker, precommits: Tracker,
    base: Hash, r: Hash, d: Hash, after: set<Hash>, ok: bool)
    requires n > 0 && n in rs && WellFormed(tree) && FinalizedClosed(tree, before) && IsChain(tree, before)
    requires SoundRounds(rs, tree, stakes) && CalmUpTo(rs, stakes, n)
    requires RoundGhost(tree, before, rs, Threshold(StakeTotal(stakes)), n - 1, base)
    requires RoundGhost(tree, before, rs, Threshold(StakeTotal(stakes)), n, r)
    requires rs[n].preVote.tracker == Some(prevotes) && d in rs[n].preVote.eligible && Below(rs[n].preVote.tree, d, base)
    requires Observed(prevotes, Subtree(rs[n].preVote.tree, d)) >= Threshold(StakeTotal(stakes))
    requires rs[n].preCommit.tracker == Some(precommits) && r in rs[n].preCommit.tree.nodes
    requires Observed(precommits, Subtree(rs[n].preCommit.tree, r)) > Threshold(StakeTotal(stakes))
    requires Outcome(tree, before, rs, stakes, n, after, ok)
    ensures ok && d in after
  {
    CandidateReaches(tree, before, rs, stakes, n, prevotes, base, r, d);
    PrecommitsFinalize(tree, before, rs, stakes, n, precommits, r, after, ok, d);
  }

  /** Nothing else is finalized: a newly finalized block lies above a candidate with the precommits. */
  lemma NewlyFinalizedIsBacked(
    tree: Tree, before: set<Hash>, rs: map<int, Round>, stakes: map<Key, nat>, n: nat, after: set<Hash>, ok: bool, d: Hash)
    requires Outcome(tree, before, rs, stakes, n, after, ok) && d in after && d !in before
    ensures ok && n in rs && rs[n].preCommit.tracker.Some?
    ensures exists r ::
      && RoundGhost(tree, before, rs, Threshold(StakeTotal(stakes)), n, r) && Below(tree, r, d)
      && Observed(rs[n].preCommit.tracker.value, Subtree(rs[n].preCommit.tree, r)) > Threshold(StakeTotal(stakes))
  {
  }

  /** The same of an instance: after its attempt the backed block is among its finalized blocks. */
  method FinalizeBacked(
    p: Grandpa, n: nat, ghost prevotes: Tracker, ghost precommits: Tracker, ghost base: Hash, ghost r: Hash, ghost d: Hash)
    returns (ok: bool)
    requires p.Valid() && n > 0 && n in p.rounds && CalmUpTo(p.rounds, p.voterStaked, n)
    requires p.Leads(n - 1, base) && p.Leads(n, r)
    requires p.rounds[n].preVote.tracker == Some(prevotes) && p.rounds[n].preCommit.tracker == Some(precommits)
    requires d in p.rounds[n].preVote.eligible && Below(p.rounds[n].preVote.tree, d, base)
    requires Observed(prevotes, Subtree(p.rounds[n].preVote.tree, d)) >= Threshold(StakeTotal(p.voterStaked))
    requires r in p.rounds[n].preCommit.tree.nodes
    requires Observed(precommits, Subtree(p.rounds[n].preCommit.tree, r)) > Threshold(StakeTotal(p.voterStaked))
    modifies p`finalized
    ensures p.Valid() && ok && d in p.finalized && old(p.finalized) <= p.finalized
  {
    hide SoundRounds, CalmUpTo, Outcome, RoundGhost, Threshold;
    ghost var before := p.finalized;
    ok := p.AttemptToFinalizeAtRound(n);
    BackedBlockFinalized(
      p.tree, before, p.rounds, p.voterStaked, n, prevotes, precommits, base, r, d, p.finalized, ok);
  }
}
