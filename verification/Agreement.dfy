/**
 What instances of the protocol agree on: equal votes give equal candidates, catching up
 leads to the same finalized blocks, and conflicting finalizations convict voters.
 */
module Agreement {
  import opened Options
  import opened Sums
  import opened Votes
  import opened Evidence
  import opened Trees
  import opened BlockTrees
  import opened Finalized
  import opened Finality
  import opened Rounds
  import opened CatchUp
  import opened Grandpas

  // ---------- the candidate is unique ----------

  /** At most a third of the stake equivocated in the graph's votes. */
  ghost predicate Calm(g: Graph, stakes: map<Key, nat>) {
    g.tracker.Some? ==> 3 * EquivocationWeight(g.tracker.value) <= StakeTotal(stakes)
  }

  lemma GhostUnique(
    tree: Tree, t: Tracker, stakes: map<Key, nat>, eligible: set<Hash>, start: Hash,
    v: map<Hash, nat>, w: map<Hash, nat>, q: Option<Hash>, r: Option<Hash>)
    requires WellFormed(tree) && Valid(t) && BuiltOn(t, stakes) && 3 * EquivocationWeight(t) <= StakeTotal(stakes)
    requires ObservedWeights(tree, t, v) && ObservedWeights(tree, t, w)
    requires IsGhost(tree, v, Threshold(StakeTotal(stakes)), start, eligible, q)
    requires IsGhost(tree, w, Threshold(StakeTotal(stakes)), start, eligible, r)
    ensures q == r
  {
    assert AddAll(t, []) == t;
    if q.Some? {
      GhostMovesDown(tree, tree, t, [], stakes, eligible, eligible, start, v, w, q.value, r);
    }
    if r.Some? {
      GhostMovesDown(tree, tree, t, [], stakes, eligible, eligible, start, w, v, r.value, q);
    }
    if q.Some? && r.Some? {
      BelowHeight(tree, q.value, r.value);
      BelowHeight(tree, r.value, q.value);
    }
  }

  lemma NoTrackerNoGhost(g: Graph, threshold: nat, start: Hash, w: map<Hash, nat>, r: Option<Hash>)
    requires g.tracker.None? && threshold > 0
    requires Refreshed(g, false, w) && IsGhost(g.tree, w, threshold, start, g.eligible, r)
    ensures r.None?
  {
    NothingReached(g.tree, w, threshold, start);
  }

  /** While at most a third equivocates, the search has one possible result. */
  lemma FoundUnique(g: Graph, stakes: map<Key, nat>, start: Hash, q: Option<Hash>, r: Option<Hash>)
    requires ValidGraph(g) && Calm(g, stakes) && (g.tracker.Some? ==> BuiltOn(g.tracker.value, stakes))
    requires Found(g, Threshold(StakeTotal(stakes)), start, q) && Found(g, Threshold(StakeTotal(stakes)), start, r)
    ensures q == r
  {
    var T := Threshold(StakeTotal(stakes));
    var v :| Refreshed(g, false, v) && IsGhost(g.tree, v, T, start, g.eligible, q);
    var w :| Refreshed(g, false, w) && IsGhost(g.tree, w, T, start, g.eligible, r);
    if g.tracker.None? {
      NoTrackerNoGhost(g, T, start, v, q);
      NoTrackerNoGhost(g, T, start, w, r);
    } else {
      GhostUnique(g.tree, g.tracker.value, stakes, g.eligible, start, v, w, q, r);
    }
  }

  // ---------- equal votes, equal candidates ----------

  predicate AgreeTrackers(s: Option<Tracker>, t: Option<Tracker>) {
    && s.Some? == t.Some?
    && (s.Some? ==> s.value.votes == t.value.votes && s.value.voters == t.value.voters)
  }

  /** The same blocks, eligible blocks, ballots and voter states. */
  predicate AgreeGraphs(g: Graph, h: Graph) {
    g.tree == h.tree && g.eligible == h.eligible && AgreeTrackers(g.tracker, h.tracker)
  }

  lemma AgreeWeights(g: Graph, h: Graph, blocks: set<Hash>, withUnvoted: bool)
    requires AgreeGraphs(g, h)
    ensures GraphWeight(g.tracker, blocks, withUnvoted) == GraphWeight(h.tracker, blocks, withUnvoted)
  {
    if g.tracker.Some? {
      SameWeights(g.tracker.value, h.tracker.value, blocks, 0);
    }
  }

  lemma FoundInBoth(g: Graph, h: Graph, threshold: nat, start: Hash, r: Option<Hash>)
    requires AgreeGraphs(g, h) && Found(h, threshold, start, r)
    ensures Found(g, threshold, start, r)
  {
    var w :| Refreshed(h, false, w) && IsGhost(h.tree, w, threshold, start, h.eligible, r);
    forall d | d in g.tree.nodes ensures Get(w, d) == GraphWeight(g.tracker, Subtree(g.tree, d), false) {
      AgreeWeights(g, h, Subtree(g.tree, d), false);
    }
    assert Refreshed(g, false, w);
  }

  /** The prevotes of rounds 1 to n agree, and in none of them more than a third equivocated. */
  ghost predicate AgreeUpTo(rs: map<int, Round>, ss: map<int, Round>, stakes: map<Key, nat>, n: nat) {
    forall k :: 1 <= k <= n ==>
      && (k in rs <==> k in ss)
      && (k in rs ==> AgreeGraphs(rs[k].preVote, ss[k].preVote) && Calm(rs[k].preVote, stakes))
  }

  lemma StepUnique(
    tree: Tree, rs: map<int, Round>, ss: map<int, Round>, stakes: map<Key, nat>, n: nat, base: Hash, q: Hash, r: Hash)
    requires n > 0 && AgreeUpTo(rs, ss, stakes, n) && SoundRounds(rs, tree, stakes)
    requires GhostStep(tree, rs, Threshold(StakeTotal(stakes)), n, base, q)
    requires GhostStep(tree, ss, Threshold(StakeTotal(stakes)), n, base, r)
    ensures q == r
  {
    var T := Threshold(StakeTotal(stakes));
    if tree.nodes[base].children != [] && n in rs {
      var g, h := rs[n].preVote, ss[n].preVote;
      var found :| Found(g, T, base, found) && q == Moved(tree, base, found);
      var other :| Found(h, T, base, other) && r == Moved(tree, base, other);
      FoundInBoth(g, h, T, base, other);
      SoundIsValid(rs[n], n, tree, stakes);
      if TrackerOf(rs[n], Prevote).Some? {
        FromRunValid(Prevote, n, stakes, g.tracker.value);
      }
      FoundUnique(g, stakes, base, found, other);
    }
  }

  lemma LastUnique(tree: Tree, finalized: set<Hash>, q: Hash, r: Hash)
    requires WellFormed(tree) && FinalizedClosed(tree, finalized) && IsChain(tree, finalized)
    requires IsLast(tree, finalized, q) && IsLast(tree, finalized, r)
    ensures q == r
  {
    ChainIsAncestors(tree, finalized, q);
    ChainIsAncestors(tree, finalized, r);
    BelowHeight(tree, q, r);
    BelowHeight(tree, r, q);
  }

  /** Instances with the same tree, finalized blocks and prevotes have the same candidate in every round. */
  lemma {:induction false} CandidateUnique(
    tree: Tree, finalized: set<Hash>, rs: map<int, Round>, ss: map<int, Round>, stakes: map<Key, nat>, n: nat, q: Hash, r: Hash)
    requires WellFormed(tree) && FinalizedClosed(tree, finalized) && IsChain(tree, finalized)
    requires AgreeUpTo(rs, ss, stakes, n) && SoundRounds(rs, tree, stakes)
    requires RoundGhost(tree, finalized, rs, Threshold(StakeTotal(stakes)), n, q)
    requires RoundGhost(tree, finalized, ss, Threshold(StakeTotal(stakes)), n, r)
    ensures q == r
    decreases n
  {
    var T := Threshold(StakeTotal(stakes));
    if n == 0 {
      LastUnique(tree, finalized, q, r);
    } else {
      var base :| RoundGhost(tree, finalized, rs, T, n - 1, base) && GhostStep(tree, rs, T, n, base, q);
      var other :| RoundGhost(tree, finalized, ss, T, n - 1, other) && GhostStep(tree, ss, T, n, other, r);
      CandidateUnique(tree, finalized, rs, ss, stakes, n - 1, base, other);
      StepUnique(tree, rs, ss, stakes, n, base, q, r);
    }
  }

  // ---------- conflicting finalizations ----------

  /**
   Two instances whose trees are part of one tree each find a supermajority of precommits
   of a round for a block, and the blocks conflict: then the votes that the two saw
   convict more than a third of the stake of equivocation.
   */
  lemma ConflictConvicts(
    whole: Tree, round: nat, stakes: map<Key, nat>, p: Round, left: Tree, q: Round, right: Tree, a: Hash, b: Hash,
    xs: seq<Offer>, ys: seq<Offer>)
    requires WellFormed(whole) && PartOf(left, whole) && PartOf(right, whole) && Conflicting(whole, a, b)
    requires SoundRound(p, round, left, stakes) && SoundRound(q, round, right, stakes)
    requires Heavy(p.preCommit, a, Threshold(StakeTotal(stakes))) && Heavy(q.preCommit, b, Threshold(StakeTotal(stakes)))
    requires p.preCommit.tracker == Some(AddAll(Fresh(Precommit, round, stakes), xs))
    requires q.preCommit.tracker == Some(AddAll(Fresh(Precommit, round, stakes), ys))
    ensures 3 * EquivocationWeight(AddAll(Fresh(Precommit, round, stakes), xs + ys)) > StakeTotal(stakes)
  {
    SoundIsValid(p, round, left, stakes);
    SoundIsValid(q, round, right, stakes);
    PartOfTransitive(p.preCommit.tree, left, whole);
    PartOfTransitive(q.preCommit.tree, right, whole);
    ObservedInPart(p.preCommit.tree, whole, p.preCommit.tracker.value, a);
    ObservedInPart(q.preCommit.tree, whole, q.preCommit.tracker.value, b);
    AccountableSafetyAcrossViews(whole, Precommit, round, stakes, xs, ys, a, b);
  }

  /** Both blocks can be finalized only if such votes exist: every sound round has its votes. */
  lemma ConflictHasEvidence(
    whole: Tree, round: nat, stakes: map<Key, nat>, p: Round, left: Tree, q: Round, right: Tree, a: Hash, b: Hash)
    requires WellFormed(whole) && PartOf(left, whole) && PartOf(right, whole) && Conflicting(whole, a, b)
    requires SoundRound(p, round, left, stakes) && SoundRound(q, round, right, stakes)
    requires Heavy(p.preCommit, a, Threshold(StakeTotal(stakes))) && Heavy(q.preCommit, b, Threshold(StakeTotal(stakes)))
    ensures exists xs, ys ::
      && p.preCommit.tracker == Some(AddAll(Fresh(Precommit, round, stakes), xs))
      && q.preCommit.tracker == Some(AddAll(Fresh(Precommit, round, stakes), ys))
      && 3 * EquivocationWeight(AddAll(Fresh(Precommit, round, stakes), xs + ys)) > StakeTotal(stakes)
  {
    var s, t := TrackerOf(p, Precommit).value, TrackerOf(q, Precommit).value;
    assert FromRun(Precommit, round, stakes, s) && FromRun(Precommit, round, stakes, t);
    var xs :| s == AddAll(Fresh(Precommit, round, stakes), xs);
    var ys :| t == AddAll(Fresh(Precommit, round, stakes), ys);
    ConflictConvicts(whole, round, stakes, p, left, q, right, a, b, xs, ys);
  }

  // ---------- catching up ----------

  /** The two run by the same rules on the same blocks, and have finalized the same ones. */
  ghost predicate Alike(p: Grandpa, q: Grandpa)
    reads p, q
  {
    && p.rules == q.rules && p.voterStaked == q.voterStaked
    && p.tree == q.tree && p.finalized == q.finalized
  }

  lemma RebuiltTracker(
    r: Round, round: nat, tree: Tree, stakes: map<Key, nat>, rules: Rules, stage: Stage, ms: seq<SignedMessage>)
    requires SoundRound(r, round, tree, stakes) && AdmittedRound(rules, r, round) && TrackerOf(r, stage).Some?
    requires IsExport(TrackerOf(r, stage).value, ms)
    ensures AgreeTrackers(
      Some(AddAll(Fresh(stage, round, stakes), Offers(stage, Admitted(rules, stage, round, ms)))), TrackerOf(r, stage))
  {
    var t := TrackerOf(r, stage).value;
    FromRunValid(stage, round, stakes, t);
    ReplayRebuilds(t, stakes, ms);
    assert OnlyAdmitted(rules, stage, round, t);
    forall m | m in ms ensures Admits(rules, stage, round, rules.setId, m) {
      assert t.votes[m.voter][m.block] == m;
    }
    AllAdmitted(rules, stage, round, ms);
  }

  /** Playing an export into a new round rebuilds the ballots and voter states of both stages. */
  lemma PlayRebuilds(
    r: Round, round: nat, tree: Tree, stakes: map<Key, nat>, rules: Rules, eligible: set<Hash>,
    prevotes: seq<SignedMessage>, precommits: seq<SignedMessage>)
    requires SoundRound(r, round, tree, stakes) && AdmittedRound(rules, r, round)
    requires r.preVote.tracker.Some? && r.preCommit.tracker.Some?
    requires IsExport(r.preVote.tracker.value, prevotes) && IsExport(r.preCommit.tracker.value, precommits)
    ensures var start := WithTrackers(Round(Graph(tree, eligible, None), Graph(tree, eligible, None), None), round, stakes);
      var prevoted := Replayed(rules, stakes, Prevote, round, start, prevotes);
      var played := Replayed(rules, stakes, Precommit, round, prevoted, precommits);
      && played.preVote.tree == played.preCommit.tree == tree
      && played.preVote.eligible == played.preCommit.eligible == eligible
      && AgreeTrackers(played.preVote.tracker, r.preVote.tracker)
      && AgreeTrackers(played.preCommit.tracker, r.preCommit.tracker)
  {
    var start := WithTrackers(Round(Graph(tree, eligible, None), Graph(tree, eligible, None), None), round, stakes);
    ReplayAdds(rules, stakes, Prevote, round, start, prevotes);
    var prevoted := Added(rules, Prevote, round, start, prevotes);
    ReplayAdds(rules, stakes, Precommit, round, prevoted, precommits);
    RebuiltTracker(r, round, tree, stakes, rules, Prevote, prevotes);
    RebuiltTracker(r, round, tree, stakes, rules, Precommit, precommits);
  }

  /** Attempts on agreeing rounds end alike. */
  lemma SameOutcome(
    tree: Tree, before: set<Hash>, rs: map<int, Round>, ss: map<int, Round>, stakes: map<Key, nat>, round: nat,
    led: set<Hash>, ledOk: bool, followed: set<Hash>, followedOk: bool)
    requires WellFormed(tree) && FinalizedClosed(tree, before) && IsChain(tree, before)
    requires AgreeUpTo(rs, ss, stakes, round) && SoundRounds(rs, tree, stakes)
    requires round in rs && round in ss && AgreeGraphs(rs[round].preCommit, ss[round].preCommit)
    requires Outcome(tree, before, rs, stakes, round, led, ledOk)
    requires Outcome(tree, before, ss, stakes, round, followed, followedOk)
    ensures led == followed && ledOk == followedOk
  {
    var T := Threshold(StakeTotal(stakes));
    var q :| && RoundGhost(tree, before, rs, T, round, q)
             && ledOk == (q in rs[round].preCommit.tree.nodes)
             && led == if ledOk then Attempt(tree, before, rs[round].preCommit, q, stakes) else before;
    var r :| && RoundGhost(tree, before, ss, T, round, r)
             && followedOk == (r in ss[round].preCommit.tree.nodes)
             && followed == if followedOk then Attempt(tree, before, ss[round].preCommit, r, stakes) else before;
    CandidateUnique(tree, before, rs, ss, stakes, round, q, r);
    AgreeWeights(rs[round].preCommit, ss[round].preCommit, Subtree(tree, q), false);
    AgreeWeights(rs[round].preCommit, ss[round].preCommit, Subtree(rs[round].preCommit.tree, q), false);
  }

  /** The rounds an instance keeps when it starts this one. */
  function Kept(rounds: map<int, Round>, round: nat): map<int, Round> {
    rounds - {(round + TWO64 - 10) % TWO64}
  }

  /** What the rounds ahead must share with those of an instance that is to catch up. */
  ghost predicate CanFollow(
    rs: map<int, Round>, bs: map<int, Round>, round: nat, tree: Tree, eligible: set<Hash>, stakes: map<Key, nat>)
  {
    && round in rs && round !in bs
    && rs[round].preVote.tracker.Some? && rs[round].preCommit.tracker.Some?
    && rs[round].preVote.tree == rs[round].preCommit.tree == tree
    && rs[round].preVote.eligible == rs[round].preCommit.eligible == eligible
    && Calm(rs[round].preVote, stakes)
    && (round > 0 ==> AgreeUpTo(rs, Kept(bs, round), stakes, round - 1))
  }

  lemma BegunIs(bs: map<int, Round>, round: nat, tree: Tree, eligible: set<Hash>, stakes: map<Key, nat>)
    requires round !in bs
    ensures Begun(bs, round, tree, eligible, stakes) == Kept(bs, round)[round :=
      WithTrackers(Round(Graph(tree, eligible, None), Graph(tree, eligible, None), None), round, stakes)]
  {
  }

  lemma AgreeOneMore(rs: map<int, Round>, ss: map<int, Round>, stakes: map<Key, nat>, n: nat, r: Round)
    requires n in rs && AgreeGraphs(rs[n].preVote, r.preVote) && Calm(rs[n].preVote, stakes)
    requires n > 0 ==> AgreeUpTo(rs, ss, stakes, n - 1)
    ensures AgreeUpTo(rs, ss[n := r], stakes, n)
  {
  }

  /** The rounds after playing an export agree with those it came from. */
  lemma PlayedAgrees(
    rules: Rules, stakes: map<Key, nat>, tree: Tree, eligible: set<Hash>, rs: map<int, Round>, bs: map<int, Round>, round: nat,
    response: CatchUpResponse)
    requires SoundRounds(rs, tree, stakes) && AdmittedRounds(rules, rs) && CanFollow(rs, bs, round, tree, eligible, stakes)
    requires IsExport(rs[round].preVote.tracker.value, response.prevotes)
    requires IsExport(rs[round].preCommit.tracker.value, response.precommits)
    ensures var ss := Played(rules, stakes, round, response, Begun(bs, round, tree, eligible, stakes));
      && AgreeUpTo(rs, ss, stakes, round)
      && AgreeGraphs(rs[round].preVote, ss[round].preVote) && AgreeGraphs(rs[round].preCommit, ss[round].preCommit)
  {
    PlayRebuilds(rs[round], round, tree, stakes, rules, eligible, response.prevotes, response.precommits);
    var start := WithTrackers(Round(Graph(tree, eligible, None), Graph(tree, eligible, None), None), round, stakes);
    BegunIs(bs, round, tree, eligible, stakes);
    PutTwice(Kept(bs, round), round, start, PlayedRound(rules, stakes, round, response, start));
    AgreeOneMore(rs, Kept(bs, round), stakes, round, PlayedRound(rules, stakes, round, response, start));
  }

  /**
   An instance that missed a round replays another's votes of it. It ends with the same
   ballots and voter states and, when both attempt to finalize, with the same finalized
   blocks.
   */
  method CatchUpFrom(source: Grandpa, behind: Grandpa, round: nat) returns (led: bool, followed: bool)
    requires source.Valid() && behind.Valid() && source.Vouches() && source != behind && Alike(source, behind)
    requires CanFollow(source.rounds, behind.rounds, round, behind.tree, behind.eligible, behind.voterStaked)
    modifies source`finalized, behind`rounds, behind`finalized, behind`lastCompleted
    ensures source.Valid() && behind.Valid() && round in behind.rounds
    ensures AgreeGraphs(source.rounds[round].preVote, behind.rounds[round].preVote)
    ensures AgreeGraphs(source.rounds[round].preCommit, behind.rounds[round].preCommit)
    ensures led == followed && behind.finalized == source.finalized
  {
    hide SoundRounds, Outcome, AgreeUpTo, AgreeGraphs, PlayedRound;
    var prevotes, precommits := source.GetAllResults(round);
    var response := CatchUpResponse(round, prevotes, precommits);
    ghost var before := source.finalized;
    PlayedAgrees(source.rules, source.voterStaked, source.tree, behind.eligible, source.rounds, behind.rounds, round, response);
    led := source.AttemptToFinalizeAtRound(round);
    followed := behind.PlayRoundWithCatchUp(round, response);
    SameOutcome(source.tree, before, source.rounds, behind.rounds, source.voterStaked, round,
      source.finalized, led, behind.finalized, followed);
  }
}
