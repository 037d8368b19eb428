/**
 Rounds of the protocol as values: refreshing a round's vote graphs, copying blocks into
 them, and the recursion over rounds that yields the candidate for finalization.
 */
module Rounds {
  import opened Options
  import opened Sums
  import opened Votes
  import opened VoteTrackers
  import opened Trees
  import opened BlockTrees
  import opened AncestorSync
  import opened Finalized
  import opened Finality

  // ---------- vote graphs ----------

  /** Weight of a block's subtree in a round: observed, or potential with unvoted stake. */
  ghost function GraphWeight(tracker: Option<Tracker>, blocks: set<Hash>, withUnvoted: bool): nat {
    match tracker
    case None => 0
    case Some(t) => if withUnvoted then Potential(t, blocks) else Observed(t, blocks)
  }

  ghost predicate ValidTracker(tracker: Option<Tracker>) {
    tracker.Some? ==> Valid(tracker.value)
  }

  /** The direct weight of every block in the graph, taken from the tracker. */
  method DirectWeights(blocks: set<Hash>, tracker: Tracker) returns (w: map<Hash, nat>)
    requires Valid(tracker)
    ensures forall b :: Get(w, b) == if b in blocks then VotesWeight(tracker, b) else 0
  {
    w := map[];
    var rest := blocks;
    while rest != {}
      invariant rest <= blocks
      invariant forall c :: Get(w, c) == if c in blocks && c !in rest then VotesWeight(tracker, c) else 0
      decreases |rest|
    {
      ghost var m := Member(rest);
      var b :| b in rest;
      var own := AddUpVotes(tracker, b);
      w := w[b := own];
      rest := rest - {b};
    }
  }

  lemma SubtreeWeight(tree: Tree, t: Tracker, w: map<Hash, nat>, d: Hash)
    requires forall b :: Get(w, b) == if b in tree.nodes then VotesWeight(t, b) else 0
    ensures CumulativeOf(tree, w, d) == WeightOf(t, Subtree(tree, d))
  {
    SumCongruent(Subtree(tree, d), w, WeightMap(t, Subtree(tree, d)));
  }

  lemma NoVotesNoWeight(tree: Tree, d: Hash)
    ensures CumulativeOf(tree, map[], d) == 0
  {
    SumZero(Subtree(tree, d), map[]);
  }

  class RoundState {
    const preVoteGraph: BlockTree
    const preCommitGraph: BlockTree
    var trackers: map<Stage, VoteTracker>

    constructor (preVoteGraph: BlockTree, preCommitGraph: BlockTree)
      ensures this.preVoteGraph == preVoteGraph && this.preCommitGraph == preCommitGraph && trackers == map[]
    {
      this.preVoteGraph, this.preCommitGraph := preVoteGraph, preCommitGraph;
      trackers := map[];
    }

    /** The tracker's value; none when the stage has no tracker yet. */
    function TrackerValue(stage: Stage): Option<Tracker>
      reads this, trackers.Values
    {
      if stage in trackers then Some(trackers[stage].Value()) else None
    }

    method UpdatePreVoteGraph(withUnvoted: bool)
      requires WellFormed(preVoteGraph.tree) && ValidTracker(TrackerValue(Prevote))
      modifies preVoteGraph`votesWeight, preVoteGraph`cumulative
      ensures forall d :: d in preVoteGraph.tree.nodes ==>
        Get(preVoteGraph.cumulative, d) == GraphWeight(TrackerValue(Prevote), Subtree(preVoteGraph.tree, d), withUnvoted)
    {
      UpdateGraph(preVoteGraph, TrackerValue(Prevote), withUnvoted);
    }

    method UpdatePreCommitGraph(withUnvoted: bool)
      requires WellFormed(preCommitGraph.tree) && ValidTracker(TrackerValue(Precommit))
      modifies preCommitGraph`votesWeight, preCommitGraph`cumulative
      ensures forall d :: d in preCommitGraph.tree.nodes ==>
        Get(preCommitGraph.cumulative, d) == GraphWeight(TrackerValue(Precommit), Subtree(preCommitGraph.tree, d), withUnvoted)
    {
      UpdateGraph(preCommitGraph, TrackerValue(Precommit), withUnvoted);
    }
  }

  /** Sets every block's direct weight, then refreshes the cumulative weights. */
  method UpdateGraph(graph: BlockTree, tracker: Option<Tracker>, withUnvoted: bool)
    requires WellFormed(graph.tree) && ValidTracker(tracker)
    modifies graph`votesWeight, graph`cumulative
    ensures forall d :: d in graph.tree.nodes ==>
      Get(graph.cumulative, d) == GraphWeight(tracker, Subtree(graph.tree, d), withUnvoted)
  {
    var equivocated, unvoted := 0, 0;
    graph.votesWeight := map[];
    if tracker.Some? {
      equivocated := AddUpEquivocations(tracker.value);
      var w := DirectWeights(graph.tree.nodes.Keys, tracker.value);
      graph.votesWeight := w;
      if withUnvoted {
        unvoted := AddUpUnvoted(tracker.value.voters, tracker.value);
      }
    }
    graph.UpdateCumulateVotesWeight(unvoted, equivocated);
    forall d | d in graph.tree.nodes
      ensures Get(graph.cumulative, d) == GraphWeight(tracker, Subtree(graph.tree, d), withUnvoted)
    {
      if tracker.Some? {
        SubtreeWeight(graph.tree, tracker.value, graph.votesWeight, d);
      } else {
        NoVotesNoWeight(graph.tree, d);
      }
    }
  }

  // ---------- the candidate for finalization ----------

  /** A round's graph as the search sees it: its shape, eligible blocks and tracker. */
  datatype Graph = Graph(tree: Tree, eligible: set<Hash>, tracker: Option<Tracker>)

  datatype Round = Round(preVote: Graph, preCommit: Graph, primary: Option<Tracker>)

  ghost predicate ValidGraph(g: Graph) {
    WellFormed(g.tree) && ValidTracker(g.tracker)
  }

  /** The weights a refresh of the graph leaves behind. */
  method GraphWeights(g: Graph, withUnvoted: bool) returns (w: map<Hash, nat>)
    requires ValidGraph(g)
    ensures forall d :: d in g.tree.nodes ==> Get(w, d) == GraphWeight(g.tracker, Subtree(g.tree, d), withUnvoted)
  {
    var scratch := new BlockTree(g.tree.root, 0);
    scratch.tree := g.tree;
    UpdateGraph(scratch, g.tracker, withUnvoted);
    w := scratch.cumulative;
  }

  method TotalVoteWeight(stakes: map<Key, nat>) returns (total: nat)
    ensures total == StakeTotal(stakes)
  {
    total := 0;
    var rest := stakes.Keys;
    while rest != {}
      invariant rest <= stakes.Keys
      invariant total + Sum(rest, stakes) == StakeTotal(stakes)
      decreases |rest|
    {
      ghost var m := Member(rest);
      var voter :| voter in rest;
      total := total + stakes[voter];
      SumRemove(rest, stakes, voter);
      rest := rest - {voter};
    }
  }

  /**
   The search for an older candidate starts at the ghost and only looks below it, so it
   can never return an older block: whenever its result passes the "older" test, it is
   the ghost itself.
   */
  lemma OlderCandidateIsGhost(main: Tree, graph: Tree, ghostBlock: Hash, found: Hash)
    requires WellFormed(main) && WellFormed(graph) && PartOf(graph, main) && Below(graph, found, ghostBlock)
    ensures found in main.nodes && ghostBlock in main.nodes
    ensures ChildOrBrother(main, ghostBlock, found) <==> found == ghostBlock
  {
    PartBelow(graph, main, found, ghostBlock);
    BelowHeight(main, found, ghostBlock);
    if Below(main, ghostBlock, found) {
      BelowHeight(main, ghostBlock, found);
    }
    if main.nodes[found].parent == main.nodes[ghostBlock].parent && found != ghostBlock {
      var p := main.nodes[found].parent.value;
      assert IsParent(main, p, found) && IsParent(main, p, ghostBlock);
    }
  }

  /** The weights are those a refresh of the graph gives its blocks. */
  ghost predicate Refreshed(g: Graph, withUnvoted: bool, w: map<Hash, nat>) {
    forall d :: d in g.tree.nodes ==> Get(w, d) == GraphWeight(g.tracker, Subtree(g.tree, d), withUnvoted)
  }

  /** A result of searching the graph, freshly weighed, from the start block. */
  ghost predicate Found(g: Graph, threshold: nat, start: Hash, r: Option<Hash>) {
    exists w :: Refreshed(g, false, w) && IsGhost(g.tree, w, threshold, start, g.eligible, r)
  }

  /** The found block if it is a proper descendant in the main tree, else the block searched from. */
  function Moved(tree: Tree, base: Hash, found: Option<Hash>): Hash {
    if found.Some? && found.value in tree.nodes && found.value != base && Below(tree, found.value, base)
    then found.value else base
  }

  /** The block the prevotes of a round lead to from the previous round's block. */
  ghost predicate GhostStep(tree: Tree, rounds: map<int, Round>, threshold: nat, round: nat, base: Hash, r: Hash) {
    base in tree.nodes &&
    if tree.nodes[base].children == [] || round !in rounds then r == base
    else exists found :: Found(rounds[round].preVote, threshold, base, found) && r == Moved(tree, base, found)
  }

  /** Reference definition: follow the prevotes of rounds 1, 2, ... from the last finalized block. */
  ghost predicate RoundGhost(
    tree: Tree, finalized: set<Hash>, rounds: map<int, Round>, threshold: nat, round: nat, r: Hash) {
    if round == 0 then IsLast(tree, finalized, r)
    else exists base ::
      && RoundGhost(tree, finalized, rounds, threshold, round - 1, base)
      && GhostStep(tree, rounds, threshold, round, base, r)
  }

  const TWO64: nat := 0x1_0000_0000_0000_0000

  /** The rounds once this one exists; the one ten rounds back is dropped, by 64-bit arithmetic. */
  function WithRound(rounds: map<int, Round>, round: nat, tree: Tree, eligible: set<Hash>): map<int, Round> {
    var kept := rounds - {(round + TWO64 - 10) % TWO64};
    if round in kept then kept
    else kept[round := Round(Graph(tree, eligible, None), Graph(tree, eligible, None), None)]
  }

  /** The rounds with this one started if it was missing. */
  function Started(rounds: map<int, Round>, round: nat, tree: Tree, eligible: set<Hash>): (r: map<int, Round>)
    ensures round in r
  {
    if round in rounds then rounds else WithRound(rounds, round, tree, eligible)
  }

  function TrackerOf(r: Round, stage: Stage): Option<Tracker> {
    match stage
    case Prevote => r.preVote.tracker
    case Precommit => r.preCommit.tracker
    case PrimaryPropose => r.primary
  }

  function PutTracker(r: Round, stage: Stage, t: Tracker): Round {
    match stage
    case Prevote => r.(preVote := r.preVote.(tracker := Some(t)))
    case Precommit => r.(preCommit := r.preCommit.(tracker := Some(t)))
    case PrimaryPropose => r.(primary := Some(t))
  }

  function WithTracker(r: Round, stage: Stage, round: nat, stakes: map<Key, nat>): Round {
    if TrackerOf(r, stage).Some? then r else PutTracker(r, stage, Fresh(stage, round, stakes))
  }

  function WithTrackers(r: Round, round: nat, stakes: map<Key, nat>): Round {
    WithTracker(WithTracker(WithTracker(r, Prevote, round, stakes), Precommit, round, stakes), PrimaryPropose, round, stakes)
  }

  /** The round after a vote: the stage picks the tracker. */
  function VoteIn(r: Round, vote: Offer): Round {
    match TrackerOf(r, vote.stage)
    case None => r
    case Some(t) => PutTracker(r, vote.stage, Votes.AddVote(t, vote))
  }

  // ---------- what every round keeps ----------

  /** The tracker holds what some votes left in a fresh one. */
  ghost predicate FromRun(stage: Stage, round: nat, stakes: map<Key, nat>, t: Tracker) {
    exists xs :: t == AddAll(Fresh(stage, round, stakes), xs)
  }

  lemma FreshFromRun(stage: Stage, round: nat, stakes: map<Key, nat>)
    ensures FromRun(stage, round, stakes, Fresh(stage, round, stakes))
  {
    assert Fresh(stage, round, stakes) == AddAll(Fresh(stage, round, stakes), []);
  }

  lemma AddFromRun(stage: Stage, round: nat, stakes: map<Key, nat>, t: Tracker, vote: Offer)
    requires FromRun(stage, round, stakes, t)
    ensures FromRun(stage, round, stakes, Votes.AddVote(t, vote))
  {
    var xs :| t == AddAll(Fresh(stage, round, stakes), xs);
    assert (xs + [vote])[..|xs|] == xs;
    assert Votes.AddVote(t, vote) == AddAll(Fresh(stage, round, stakes), xs + [vote]);
  }

  lemma FromRunValid(stage: Stage, round: nat, stakes: map<Key, nat>, t: Tracker)
    requires FromRun(stage, round, stakes, t)
    ensures Valid(t) && BuiltOn(t, stakes) && t.stage == stage && t.round == round
  {
    var xs :| t == AddAll(Fresh(stage, round, stakes), xs);
    FreshValid(stage, round, stakes);
    AddAllStep(Fresh(stage, round, stakes), xs);
    AddAllBuiltOn(Fresh(stage, round, stakes), xs, stakes);
  }

  /** Every tracker of the round comes from votes of its round and stage. */
  ghost predicate SoundTrackers(r: Round, round: nat, stakes: map<Key, nat>) {
    forall stage: Stage :: TrackerOf(r, stage).Some? ==> FromRun(stage, round, stakes, TrackerOf(r, stage).value)
  }

  /** The graphs are well formed and part of the main tree. */
  ghost predicate SoundShape(r: Round, tree: Tree) {
    && WellFormed(r.preVote.tree) && WellFormed(r.preCommit.tree)
    && PartOf(r.preVote.tree, tree) && PartOf(r.preCommit.tree, tree)
  }

  ghost predicate SoundRound(r: Round, round: int, tree: Tree, stakes: map<Key, nat>) {
    round >= 0 && SoundShape(r, tree) && SoundTrackers(r, round, stakes)
  }

  lemma SoundHasShape(r: Round, round: int, tree: Tree, stakes: map<Key, nat>)
    requires SoundRound(r, round, tree, stakes)
    ensures round >= 0 && SoundShape(r, tree)
  {
  }

  lemma SoundIsValid(r: Round, round: int, tree: Tree, stakes: map<Key, nat>)
    requires SoundRound(r, round, tree, stakes)
    ensures ValidGraph(r.preVote) && ValidGraph(r.preCommit)
  {
    if TrackerOf(r, Prevote).Some? {
      FromRunValid(Prevote, round, stakes, TrackerOf(r, Prevote).value);
    }
    if TrackerOf(r, Precommit).Some? {
      FromRunValid(Precommit, round, stakes, TrackerOf(r, Precommit).value);
    }
  }

  lemma PutKeepsSound(r: Round, round: int, tree: Tree, stakes: map<Key, nat>, stage: Stage, t: Tracker)
    requires SoundRound(r, round, tree, stakes) && FromRun(stage, round, stakes, t)
    ensures SoundRound(PutTracker(r, stage, t), round, tree, stakes)
  {
    var p := PutTracker(r, stage, t);
    forall other: Stage | TrackerOf(p, other).Some? ensures FromRun(other, round, stakes, TrackerOf(p, other).value) {
      assert other != stage ==> TrackerOf(p, other) == TrackerOf(r, other);
    }
  }

  lemma VoteKeepsSound(r: Round, round: int, tree: Tree, stakes: map<Key, nat>, vote: Offer)
    requires SoundRound(r, round, tree, stakes)
    ensures SoundRound(VoteIn(r, vote), round, tree, stakes)
  {
    var tracker := TrackerOf(r, vote.stage);
    if tracker.Some? {
      AddFromRun(vote.stage, round, stakes, tracker.value, vote);
      PutKeepsSound(r, round, tree, stakes, vote.stage, Votes.AddVote(tracker.value, vote));
    }
  }

  lemma TrackerKeepsSound(r: Round, round: nat, tree: Tree, stakes: map<Key, nat>, stage: Stage)
    requires SoundRound(r, round, tree, stakes)
    ensures SoundRound(WithTracker(r, stage, round, stakes), round, tree, stakes)
  {
    FreshFromRun(stage, round, stakes);
    PutKeepsSound(r, round, tree, stakes, stage, Fresh(stage, round, stakes));
  }

  lemma TrackersKeepSound(r: Round, round: nat, tree: Tree, stakes: map<Key, nat>)
    requires SoundRound(r, round, tree, stakes)
    ensures SoundRound(WithTrackers(r, round, stakes), round, tree, stakes)
  {
    var one := WithTracker(r, Prevote, round, stakes);
    TrackerKeepsSound(r, round, tree, stakes, Prevote);
    TrackerKeepsSound(one, round, tree, stakes, Precommit);
    TrackerKeepsSound(WithTracker(one, Precommit, round, stakes), round, tree, stakes, PrimaryPropose);
  }

  /** A round's graphs after a block of the main tree was copied into them. */
  ghost function SyncedRound(r: Round, tree: Tree, rootParent: Hash, block: Hash, parent: Hash, slot: nat): Round
    requires Linked(tree, rootParent)
  {
    Round(r.preVote.(tree := Synced(tree, rootParent, r.preVote.tree, block, parent, slot)),
          r.preCommit.(tree := Synced(tree, rootParent, r.preCommit.tree, block, parent, slot)),
          r.primary)
  }

  /** The block is in the main tree under this parent and slot. */
  ghost predicate Placed(tree: Tree, rootParent: Hash, block: Hash, parent: Hash, slot: nat) {
    Linked(tree, rootParent) && block in tree.nodes && tree.nodes[block].parent == Some(parent) && tree.nodes[block].slot == slot
  }

  lemma SyncKeepsSound(
    r: Round, round: int, tree: Tree, stakes: map<Key, nat>, rootParent: Hash, block: Hash, parent: Hash, slot: nat)
    requires Placed(tree, rootParent, block, parent, slot) && SoundRound(r, round, tree, stakes)
    ensures SoundRound(SyncedRound(r, tree, rootParent, block, parent, slot), round, tree, stakes)
  {
    var s := SyncedRound(r, tree, rootParent, block, parent, slot);
    SyncedPart(tree, rootParent, r.preVote.tree, block, parent, slot);
    SyncedPart(tree, rootParent, r.preCommit.tree, block, parent, slot);
    assert forall stage: Stage :: TrackerOf(s, stage) == TrackerOf(r, stage);
  }

  /** Copies a block and its missing ancestors into one graph. */
  method SyncGraph(g: Graph, tree: Tree, rootParent: Hash, block: Hash, parent: Hash, slot: nat) returns (r: Graph)
    requires Linked(tree, rootParent) && WellFormed(g.tree)
    requires block in tree.nodes && tree.nodes[block].parent == Some(parent)
    ensures r == g.(tree := Synced(tree, rootParent, g.tree, block, parent, slot))
  {
    var target := new BlockTree(g.tree.root, 0);
    target.tree := g.tree;
    SyncBlockWithAncestors(tree, rootParent, block, parent, slot, target);
    r := g.(tree := target.tree);
  }

  ghost predicate SoundRounds(rounds: map<int, Round>, tree: Tree, stakes: map<Key, nat>) {
    forall n :: n in rounds ==> SoundRound(rounds[n], n, tree, stakes)
  }

  lemma PutSound(rounds: map<int, Round>, n: int, r: Round, tree: Tree, stakes: map<Key, nat>)
    requires SoundRounds(rounds, tree, stakes) && SoundRound(r, n, tree, stakes)
    ensures SoundRounds(rounds[n := r], tree, stakes)
  {
  }

  /** The rounds after a block was copied into the graphs of those in the set. */
  ghost function SyncedRounds(
    rounds: map<int, Round>, done: set<int>, tree: Tree, rootParent: Hash, block: Hash, parent: Hash, slot: nat): map<int, Round>
    requires Linked(tree, rootParent)
  {
    map n | n in rounds :: if n in done then SyncedRound(rounds[n], tree, rootParent, block, parent, slot) else rounds[n]
  }

  lemma SyncNone(rounds: map<int, Round>, tree: Tree, rootParent: Hash, block: Hash, parent: Hash, slot: nat)
    requires Linked(tree, rootParent)
    ensures SyncedRounds(rounds, {}, tree, rootParent, block, parent, slot) == rounds
  {
  }

  lemma SyncOneMore(
    rounds: map<int, Round>, done: set<int>, n: int, tree: Tree, rootParent: Hash, block: Hash, parent: Hash, slot: nat)
    requires Linked(tree, rootParent) && n in rounds
    ensures SyncedRounds(rounds, done, tree, rootParent, block, parent, slot)
        [n := SyncedRound(rounds[n], tree, rootParent, block, parent, slot)]
      == SyncedRounds(rounds, done + {n}, tree, rootParent, block, parent, slot)
  {
  }

  /** The keys still to do and those done. */
  ghost predicate Split(all: set<int>, rest: set<int>, done: set<int>) {
    rest <= all && done == all - rest
  }

  lemma SplitStep(all: set<int>, rest: set<int>, done: set<int>, n: int)
    requires Split(all, rest, done) && n in rest
    ensures n in all && Split(all, rest - {n}, done + {n})
  {
  }

  lemma SplitDone(all: set<int>, done: set<int>)
    requires Split(all, {}, done)
    ensures done == all
  {
  }

  method SyncRound(r: Round, tree: Tree, rootParent: Hash, block: Hash, parent: Hash, slot: nat) returns (s: Round)
    requires Placed(tree, rootParent, block, parent, slot) && SoundShape(r, tree)
    ensures s == SyncedRound(r, tree, rootParent, block, parent, slot)
  {
    var preVote := SyncGraph(r.preVote, tree, rootParent, block, parent, slot);
    var preCommit := SyncGraph(r.preCommit, tree, rootParent, block, parent, slot);
    s := Round(preVote, preCommit, r.primary);
  }

  /** Copies a block into the graphs of every round. */
  method SyncRounds(
    rounds: map<int, Round>, tree: Tree, rootParent: Hash, block: Hash, parent: Hash, slot: nat, ghost stakes: map<Key, nat>)
    returns (r: map<int, Round>)
    requires Placed(tree, rootParent, block, parent, slot) && SoundRounds(rounds, tree, stakes)
    ensures r == SyncedRounds(rounds, rounds.Keys, tree, rootParent, block, parent, slot) && SoundRounds(r, tree, stakes)
  {
    hide SoundRound;
    r := rounds;
    var rest := rounds.Keys;
    ghost var done: set<int> := {};
    SyncNone(rounds, tree, rootParent, block, parent, slot);
    while rest != {}
      invariant Split(rounds.Keys, rest, done) && SoundRounds(r, tree, stakes)
      invariant r == SyncedRounds(rounds, done, tree, rootParent, block, parent, slot)
      decreases |rest|
    {
      ghost var some := Member(rest);
      var n :| n in rest;
      SplitStep(rounds.Keys, rest, done, n);
      SoundHasShape(rounds[n], n, tree, stakes);
      var one := SyncRound(rounds[n], tree, rootParent, block, parent, slot);
      SyncKeepsSound(rounds[n], n, tree, stakes, rootParent, block, parent, slot);
      PutSound(r, n, one, tree, stakes);
      SyncOneMore(rounds, done, n, tree, rootParent, block, parent, slot);
      r := r[n := one];
      rest := rest - {n};
      done := done + {n};
    }
    SplitDone(rounds.Keys, done);
  }

  /** A larger main tree keeps rounds sound, and the finalized blocks a closed chain. */
  lemma GrowKeepsSound(tree: Tree, finalized: set<Hash>, block: Hash, parent: Hash, slot: nat)
    requires WellFormed(tree) && parent in tree.nodes && block !in tree.nodes
    requires FinalizedClosed(tree, finalized) && IsChain(tree, finalized)
    ensures var grown := Insert(tree, block, parent, slot);
      && WellFormed(grown) && PartOf(tree, grown) && FinalizedClosed(grown, finalized) && IsChain(grown, finalized)
  {
    var grown := Insert(tree, block, parent, slot);
    InsertWellFormed(tree, block, parent, slot);
    forall a, b | a in finalized && b in finalized ensures Below(grown, a, b) || Below(grown, b, a) {
      PartBelow(tree, grown, a, b);
      PartBelow(tree, grown, b, a);
    }
  }

  lemma PartOfTransitive(s: Tree, t: Tree, u: Tree)
    requires PartOf(s, t) && PartOf(t, u)
    ensures PartOf(s, u)
  {
  }

  lemma SoundInLarger(rounds: map<int, Round>, s: Tree, t: Tree, stakes: map<Key, nat>)
    requires SoundRounds(rounds, s, stakes) && PartOf(s, t)
    ensures SoundRounds(rounds, t, stakes)
  {
    forall n | n in rounds ensures SoundRound(rounds[n], n, t, stakes) {
      PartOfTransitive(rounds[n].preVote.tree, s, t);
      PartOfTransitive(rounds[n].preCommit.tree, s, t);
    }
  }

  lemma StartSound(rounds: map<int, Round>, round: nat, tree: Tree, eligible: set<Hash>, stakes: map<Key, nat>)
    requires SoundRounds(rounds, tree, stakes) && WellFormed(tree)
    ensures SoundRounds(WithRound(rounds, round, tree, eligible), tree, stakes)
  {
    var empty := Round(Graph(tree, eligible, None), Graph(tree, eligible, None), None);
    assert SoundTrackers(empty, round, stakes);
  }

  // ---------- finalizing ----------

  /** The finalized blocks after an attempt with this candidate. */
  ghost function Attempt(
    tree: Tree, finalized: set<Hash>, g: Graph, candidate: Hash, stakes: map<Key, nat>): set<Hash> {
    if Heavy(g, candidate, Threshold(StakeTotal(stakes))) then Ancestors(tree, candidate) else finalized
  }

  method FinalizeCandidate(tree: Tree, finalized: set<Hash>, g: Graph, last: Hash, candidate: Hash, threshold: nat)
    returns (r: set<Hash>)
    requires WellFormed(tree) && FinalizedClosed(tree, finalized) && IsChain(tree, finalized) && ValidGraph(g)
    requires last in tree.nodes && finalized == Ancestors(tree, last) && Below(tree, candidate, last) && candidate in g.tree.nodes
    ensures r == if Heavy(g, candidate, threshold) then Ancestors(tree, candidate) else finalized
    ensures FinalizedClosed(tree, r) && IsChain(tree, r) && finalized <= r
  {
    r := finalized;
    AttemptOutcome(tree, finalized, last, candidate);
    var newer := ChildOrBrother(tree, candidate, last);
    var weights := GraphWeights(g, false);
    if newer && Get(weights, candidate) > threshold {
      var marked, marks := FinalizeBlock(tree, finalized, candidate);
      r := marks;
    }
  }

  /** More than the threshold is observed behind the block. */
  ghost predicate Heavy(g: Graph, block: Hash, threshold: nat) {
    GraphWeight(g.tracker, Subtree(g.tree, block), false) > threshold
  }

  /** Finalizing a block at or below the last finalized one yields the chain up to it. */
  lemma AttemptOutcome(t: Tree, finalized: set<Hash>, last: Hash, candidate: Hash)
    requires WellFormed(t) && last in t.nodes && finalized == Ancestors(t, last) && Below(t, candidate, last)
    ensures finalized + Ancestors(t, candidate) == Ancestors(t, candidate) && IsChain(t, Ancestors(t, candidate))
    ensures candidate in finalized ==> Ancestors(t, candidate) == finalized
  {
    if candidate in finalized {
      BelowHeight(t, last, candidate);
      BelowHeight(t, candidate, last);
    }
    forall a | a in finalized ensures a in Ancestors(t, candidate) {
      BelowTransitive(t, candidate, last, a);
    }
    AncestorsAreChain(t, candidate);
  }

  // ---------- starting rounds and copying blocks ----------

  /** Starting a round drops the one ten rounds back and touches no other. */
  lemma OldRoundDropped(rounds: map<int, Round>, round: nat, tree: Tree, eligible: set<Hash>, n: nat)
    requires 10 <= round < TWO64 && n < TWO64 && n != round
    ensures n in WithRound(rounds, round, tree, eligible) <==> n in rounds && n + 10 != round
    ensures n in rounds && n + 10 != round ==> WithRound(rounds, round, tree, eligible)[n] == rounds[n]
  {
  }

  /** A block copied into the rounds is afterwards in every graph that it meets at most 1000 steps up. */
  lemma BlockReachesRounds(
    rounds: map<int, Round>, tree: Tree, stakes: map<Key, nat>, rootParent: Hash, block: Hash, parent: Hash, slot: nat, n: int)
    requires Placed(tree, rootParent, block, parent, slot) && SoundRounds(rounds, tree, stakes) && n in rounds
    ensures var r := SyncedRounds(rounds, rounds.Keys, tree, rootParent, block, parent, slot)[n];
      && (MeetsWithin(tree, rootParent, rounds[n].preVote.tree.nodes.Keys, parent, 1000) ==> block in r.preVote.tree.nodes)
      && (MeetsWithin(tree, rootParent, rounds[n].preCommit.tree.nodes.Keys, parent, 1000) ==> block in r.preCommit.tree.nodes)
  {
    SoundHasShape(rounds[n], n, tree, stakes);
    hide SoundRounds, MeetsWithin, SoundRound;
    CopyOrThere(rounds[n].preVote.tree, tree, rootParent, block, parent, slot);
    CopyOrThere(rounds[n].preCommit.tree, tree, rootParent, block, parent, slot);
  }

  lemma CopyOrThere(target: Tree, tree: Tree, rootParent: Hash, block: Hash, parent: Hash, slot: nat)
    requires Linked(tree, rootParent) && WellFormed(target)
    ensures MeetsWithin(tree, rootParent, target.nodes.Keys, parent, 1000) ==>
      block in Synced(tree, rootParent, target, block, parent, slot).nodes
  {
    hide MeetsWithin;
    if block !in target.nodes {
      SyncedExactly(tree, rootParent, target, block, parent, slot);
    }
  }
}
