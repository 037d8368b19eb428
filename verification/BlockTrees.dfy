/**
 The block tree object of a round: blocks with their direct and cumulative vote
 weights and their applied, audited and finalized flags.
 */
module BlockTrees {
  import opened Options
  import opened Sums
  import opened Votes
  import opened Trees

  /** The tree after adding a block under a parent that is present. */
  function Insert(t: Tree, block: Hash, parent: Hash, slot: nat): Tree
    requires parent in t.nodes
  {
    var p := t.nodes[parent];
    t.(nodes := t.nodes[parent := p.(children := p.children + [block])]
                       [block := Node(Some(parent), [], p.height + 1, slot)])
  }

  lemma InsertWellFormed(t: Tree, block: Hash, parent: Hash, slot: nat)
    requires WellFormed(t) && parent in t.nodes && block !in t.nodes
    ensures WellFormed(Insert(t, block, parent, slot))
    ensures Insert(t, block, parent, slot).nodes.Keys == t.nodes.Keys + {block}
    ensures forall p, c :: IsParent(Insert(t, block, parent, slot), p, c) <==> IsParent(t, p, c) || (p == parent && c == block)
  {
    var u := Insert(t, block, parent, slot);
    forall p, c | p in u.nodes && c in u.nodes[p].children ensures IsParent(u, p, c) {
      if p != block && c != block {
        assert c in t.nodes[p].children;
        assert IsParent(t, p, c);
      }
    }
    forall p, c | IsParent(u, p, c)
      ensures p in u.nodes && c in u.nodes[p].children && u.nodes[c].height == u.nodes[p].height + 1
    {
      if c == block {
        var cs := u.nodes[parent].children;
        assert cs[|cs| - 1] == block;
      } else {
        assert IsParent(t, p, c);
        if p == parent {
          var i :| 0 <= i < |t.nodes[p].children| && t.nodes[p].children[i] == c;
          assert u.nodes[p].children[i] == c;
        }
      }
    }
    forall p | p in u.nodes ensures NoDuplicates(u.nodes[p].children) {
      if p == parent {
        var cs := t.nodes[parent].children;
        forall i | 0 <= i < |cs| ensures cs[i] != block {
          assert cs[i] in cs;
          assert IsParent(t, parent, cs[i]);
        }
      }
    }
  }

  /** Blocks reached from start through blocks whose weight meets the threshold. */
  ghost predicate Reached(t: Tree, weight: map<Hash, nat>, threshold: nat, start: Hash, d: Hash)
    decreases if d in t.nodes then t.nodes[d].height else 0
  {
    && d in t.nodes && Get(weight, d) >= threshold
    && (d == start
      || (var p := t.nodes[d].parent;
          && p.Some? && p.value in t.nodes
          && t.nodes[p.value].height < t.nodes[d].height
          && Reached(t, weight, threshold, start, p.value)))
  }

  lemma {:induction false} ReachedBelow(t: Tree, weight: map<Hash, nat>, threshold: nat, start: Hash, d: Hash)
    requires Reached(t, weight, threshold, start, d)
    ensures Below(t, d, start) && Reached(t, weight, threshold, start, start)
    decreases t.nodes[d].height
  {
    if d != start {
      ReachedBelow(t, weight, threshold, start, t.nodes[d].parent.value);
    }
  }

  /** A search that never leaves a reached block's heavy children unvisited misses nothing. */
  lemma {:induction false} ClosedSearch(
    t: Tree, weight: map<Hash, nat>, threshold: nat, start: Hash, seen: set<Hash>, d: Hash)
    requires WellFormed(t) && start in seen
    requires forall p, c :: p in seen && IsParent(t, p, c) && Get(weight, c) >= threshold ==> c in seen
    requires Reached(t, weight, threshold, start, d)
    ensures d in seen
    decreases t.nodes[d].height
  {
    if d != start {
      var p := t.nodes[d].parent.value;
      ClosedSearch(t, weight, threshold, start, seen, p);
      assert IsParent(t, p, d);
    }
  }

  /** The better of two candidates is deeper, or as deep with a later slot. */
  predicate NotBetter(t: Tree, q: Hash, r: Hash) {
    && q in t.nodes && r in t.nodes
    && (t.nodes[q].height < t.nodes[r].height
      || (t.nodes[q].height == t.nodes[r].height && t.nodes[q].slot <= t.nodes[r].slot))
  }

  class BlockTree {
    var tree: Tree
    var votesWeight: map<Hash, nat>
    var cumulative: map<Hash, nat>
    var applied: set<Hash>
    var audited: set<Hash>
    var finalized: set<Hash>

    constructor (root: Hash, slot: nat)
      ensures WellFormed(tree) && tree.root == root && tree.nodes.Keys == {root}
      ensures finalized == applied == {root} && audited == {} && FinalizedClosed(tree, finalized)
    {
      tree := Tree(root, map[root := Node(None, [], 0, slot)]);
      votesWeight, cumulative := map[], map[];
      applied, audited, finalized := {root}, {}, {root};
    }

    /** Fails when the parent is missing or the block is already there. */
    method AddBlock(block: Hash, parent: Hash, slot: nat) returns (ok: bool)
      requires WellFormed(tree)
      modifies this`tree
      ensures WellFormed(tree)
      ensures ok == (parent in old(tree).nodes && block !in old(tree).nodes)
      ensures tree == if ok then Insert(old(tree), block, parent, slot) else old(tree)
    {
      if parent !in tree.nodes || block in tree.nodes {
        return false;
      }
      InsertWellFormed(tree, block, parent, slot);
      tree := Insert(tree, block, parent, slot);
      return true;
    }

    /** Every block ends with the direct weights of its whole subtree plus both extras. */
    method UpdateCumulateVotesWeight(unvoted: nat, equivocated: nat)
      requires WellFormed(tree)
      modifies this`cumulative
      ensures forall d :: d in tree.nodes ==> Get(cumulative, d) == CumulativeOf(tree, votesWeight, d) + unvoted + equivocated
    {
      var c := CumulateNode(tree, votesWeight, cumulative, tree.root);
      WholeTree(tree);
      if unvoted > 0 {
        c := AddToAll(tree.nodes.Keys, c, unvoted);
      }
      if equivocated > 0 {
        c := AddToAll(tree.nodes.Keys, c, equivocated);
      }
      cumulative := c;
    }

    method FindGhost(start: Hash, threshold: nat) returns (r: Option<Hash>)
      requires WellFormed(tree)
      ensures IsGhost(tree, cumulative, threshold, start, applied * audited, r)
    {
      r := Search(tree, cumulative, applied * audited, start, threshold);
    }
  }

  // ---------- searching for the ghost ----------

  ghost predicate Candidate(t: Tree, weight: map<Hash, nat>, threshold: nat, start: Hash, flagged: set<Hash>, q: Hash) {
    Reached(t, weight, threshold, start, q) && q in flagged
  }

  /** The deepest candidate, a later slot breaking ties; none only if there is no candidate. */
  ghost predicate IsGhost(
    t: Tree, weight: map<Hash, nat>, threshold: nat, start: Hash, flagged: set<Hash>, r: Option<Hash>) {
    match r
    case None => forall q :: !Candidate(t, weight, threshold, start, flagged, q)
    case Some(best) =>
      && Candidate(t, weight, threshold, start, flagged, best)
      && forall q :: Candidate(t, weight, threshold, start, flagged, q) ==> NotBetter(t, q, best)
  }

  /**
   Breadth-first search for the deepest applied and audited block reached from the
   start through blocks that meet the threshold.
   */
  method Search(
    t: Tree, weight: map<Hash, nat>, flagged: set<Hash>, start: Hash, threshold: nat) returns (r: Option<Hash>)
    requires WellFormed(t)
    ensures IsGhost(t, weight, threshold, start, flagged, r)
  {
    if start !in t.nodes || Get(weight, start) < threshold {
      NothingReached(t, weight, threshold, start);
      return None;
    }
    var queue: seq<(Hash, nat)> := [(start, 0)];
    var maxDepth: int := -1;
    var maxSlot := 0;
    r := None;
    ghost var seen: set<Hash> := {};
    SearchStart(t, weight, threshold, start);
    while |queue| > 0
      invariant SearchInv(t, weight, threshold, start, queue, seen)
      invariant BestSoFar(t, start, flagged, seen, r, maxDepth, maxSlot)
      decreases |t.nodes.Keys - seen|
    {
      var node, depth := queue[0].0, queue[0].1;
      HeadOfQueue(t, weight, threshold, start, queue, seen);
      StepFrontier(t, weight, threshold, start, queue, seen);
      StepDepths(t, weight, threshold, start, queue);
      BestStep(t, start, flagged, seen, r, maxDepth, maxSlot, node);
      if node in flagged && (depth > maxDepth || (depth == maxDepth && t.nodes[node].slot > maxSlot)) {
        r, maxDepth, maxSlot := Some(node), depth, t.nodes[node].slot;
      }
      queue := Advance(t, weight, threshold, queue);
      SeenGrows(t.nodes.Keys, seen, node);
      seen := seen + {node};
    }
    SearchDone(t, weight, threshold, start, queue, seen);
  }

  /** The queue entries appended for a block's children, in order. */
  function HeavyChildren(weight: map<Hash, nat>, threshold: nat, children: seq<Hash>, depth: nat): (r: seq<(Hash, nat)>)
    ensures forall e :: e in r ==> e.0 in children && e.1 == depth && Get(weight, e.0) >= threshold
    ensures forall c :: c in children && Get(weight, c) >= threshold ==> (c, depth) in r
    ensures NoDuplicates(children) ==> DistinctBlocks(r)
  {
    if children == [] then []
    else
      (if Get(weight, children[0]) >= threshold then [(children[0], depth)] else [])
      + HeavyChildren(weight, threshold, children[1..], depth)
  }

  ghost function Queued(queue: seq<(Hash, nat)>): set<Hash> {
    set e | e in queue :: e.0
  }

  predicate DistinctBlocks(queue: seq<(Hash, nat)>) {
    forall i, j :: 0 <= i < j < |queue| ==> queue[i].0 != queue[j].0
  }

  predicate ParentIn(t: Tree, d: Hash, s: set<Hash>) {
    d in t.nodes && t.nodes[d].parent.Some? && t.nodes[d].parent.value in s
  }

  /** Seen and queued blocks are reached, and no heavy child of a seen block is forgotten. */
  ghost predicate Frontier(
    t: Tree, weight: map<Hash, nat>, threshold: nat, start: Hash, queued: set<Hash>, seen: set<Hash>) {
    && start in t.nodes && start in seen + queued && queued !! seen
    && (forall d :: d in seen + queued ==> Reached(t, weight, threshold, start, d))
    && (forall d :: d in seen + queued && d != start ==> ParentIn(t, d, seen))
    && (forall p, c :: p in seen && IsParent(t, p, c) && Get(weight, c) >= threshold ==> c in seen + queued)
  }

  ghost predicate SearchInv(
    t: Tree, weight: map<Hash, nat>, threshold: nat, start: Hash, queue: seq<(Hash, nat)>, seen: set<Hash>) {
    && Frontier(t, weight, threshold, start, Queued(queue), seen)
    && DistinctBlocks(queue)
    && DepthsRight(t, start, queue)
  }

  lemma NewChild(
    t: Tree, weight: map<Hash, nat>, threshold: nat, start: Hash, queued: set<Hash>, seen: set<Hash>, node: Hash, c: Hash)
    requires WellFormed(t) && Frontier(t, weight, threshold, start, queued, seen)
    requires node in queued && IsParent(t, node, c) && Get(weight, c) >= threshold
    ensures c !in seen && c !in queued && Reached(t, weight, threshold, start, c) && ParentIn(t, c, seen + {node})
  {
    ReachedBelow(t, weight, threshold, start, node);
    BelowHeight(t, node, start);
    assert Reached(t, weight, threshold, start, node);
  }

  /** The heavy children of a queued block are new, reached and have a seen parent afterwards. */
  lemma HeavyChildrenNew(
    t: Tree, weight: map<Hash, nat>, threshold: nat, start: Hash, queued: set<Hash>, seen: set<Hash>,
    node: Hash, heavy: set<Hash>)
    requires WellFormed(t) && Frontier(t, weight, threshold, start, queued, seen) && node in queued && node in t.nodes
    requires heavy == set c | c in t.nodes[node].children && Get(weight, c) >= threshold
    ensures forall c :: c in heavy ==>
      c !in seen && c !in queued && Reached(t, weight, threshold, start, c) && ParentIn(t, c, seen + {node})
  {
    forall c | c in heavy
      ensures c !in seen && c !in queued && Reached(t, weight, threshold, start, c) && ParentIn(t, c, seen + {node})
    {
      NewChild(t, weight, threshold, start, queued, seen, node, c);
    }
  }

  lemma NoneForgotten(
    t: Tree, weight: map<Hash, nat>, threshold: nat, start: Hash, queued: set<Hash>, seen: set<Hash>,
    node: Hash, heavy: set<Hash>, p: Hash, c: Hash)
    requires WellFormed(t) && Frontier(t, weight, threshold, start, queued, seen) && node in queued && node in t.nodes
    requires heavy == set d | d in t.nodes[node].children && Get(weight, d) >= threshold
    requires (p in seen || p == node) && IsParent(t, p, c) && Get(weight, c) >= threshold
    ensures c in seen || c in queued || c in heavy
  {
    if p != node {
      assert c in seen + queued;
    }
  }

  lemma FrontierStep(
    t: Tree, weight: map<Hash, nat>, threshold: nat, start: Hash, queued: set<Hash>, seen: set<Hash>, node: Hash)
    requires WellFormed(t) && Frontier(t, weight, threshold, start, queued, seen) && node in queued
    ensures node in t.nodes
    ensures var heavy := set c | c in t.nodes[node].children && Get(weight, c) >= threshold;
      heavy !! queued && Frontier(t, weight, threshold, start, queued - {node} + heavy, seen + {node})
  {
    assert Reached(t, weight, threshold, start, node);
    var heavy := set c | c in t.nodes[node].children && Get(weight, c) >= threshold;
    HeavyChildrenNew(t, weight, threshold, start, queued, seen, node, heavy);
    var queue, done := queued - {node} + heavy, seen + {node};
    assert queue !! done;
    forall d | d in done + queue ensures Reached(t, weight, threshold, start, d) && (d == start || ParentIn(t, d, done)) {
      assert d in heavy || d in seen + queued;
    }
    forall p, c | p in done && IsParent(t, p, c) && Get(weight, c) >= threshold ensures c in done + queue {
      NoneForgotten(t, weight, threshold, start, queued, seen, node, heavy, p, c);
    }
  }

  function Advance(t: Tree, weight: map<Hash, nat>, threshold: nat, queue: seq<(Hash, nat)>): seq<(Hash, nat)>
    requires |queue| > 0 && queue[0].0 in t.nodes
  {
    queue[1..] + HeavyChildren(weight, threshold, t.nodes[queue[0].0].children, queue[0].1 + 1)
  }

  lemma AddedBlocks(weight: map<Hash, nat>, threshold: nat, children: seq<Hash>, depth: nat)
    ensures Queued(HeavyChildren(weight, threshold, children, depth)) == set c | c in children && Get(weight, c) >= threshold
  {
    var added := HeavyChildren(weight, threshold, children, depth);
    forall c | c in children && Get(weight, c) >= threshold ensures c in Queued(added) {
      assert (c, depth) in added;
    }
  }

  lemma HeadOfQueue(
    t: Tree, weight: map<Hash, nat>, threshold: nat, start: Hash, queue: seq<(Hash, nat)>, seen: set<Hash>)
    requires SearchInv(t, weight, threshold, start, queue, seen) && |queue| > 0
    ensures queue[0].0 in t.nodes && queue[0].0 in Queued(queue) && queue[0].0 !in seen
    ensures queue[0].1 == t.nodes[queue[0].0].height - t.nodes[start].height
  {
    assert queue[0] in queue;
  }

  lemma StepFrontier(
    t: Tree, weight: map<Hash, nat>, threshold: nat, start: Hash, queue: seq<(Hash, nat)>, seen: set<Hash>)
    requires WellFormed(t) && SearchInv(t, weight, threshold, start, queue, seen) && |queue| > 0 && queue[0].0 in t.nodes
    ensures Frontier(t, weight, threshold, start, Queued(Advance(t, weight, threshold, queue)), seen + {queue[0].0})
    ensures DistinctBlocks(Advance(t, weight, threshold, queue))
  {
    var children := t.nodes[queue[0].0].children;
    HeadOfQueue(t, weight, threshold, start, queue, seen);
    AddedBlocks(weight, threshold, children, queue[0].1 + 1);
    FrontierStep(t, weight, threshold, start, Queued(queue), seen, queue[0].0);
    QueueStep(queue, HeavyChildren(weight, threshold, children, queue[0].1 + 1),
      set c | c in children && Get(weight, c) >= threshold);
  }

  ghost predicate DepthsRight(t: Tree, start: Hash, queue: seq<(Hash, nat)>) {
    && start in t.nodes
    && forall e :: e in queue ==> e.0 in t.nodes && t.nodes[e.0].height == t.nodes[start].height + e.1
  }

  lemma StepDepths(t: Tree, weight: map<Hash, nat>, threshold: nat, start: Hash, queue: seq<(Hash, nat)>)
    requires WellFormed(t) && |queue| > 0 && queue[0].0 in t.nodes && DepthsRight(t, start, queue)
    ensures DepthsRight(t, start, Advance(t, weight, threshold, queue))
  {
    var children := t.nodes[queue[0].0].children;
    var added := HeavyChildren(weight, threshold, children, queue[0].1 + 1);
    assert queue[0] in queue;
    forall e | e in queue[1..] + added ensures e.0 in t.nodes && t.nodes[e.0].height == t.nodes[start].height + e.1 {
      if e in added {
        assert IsParent(t, queue[0].0, e.0);
      }
    }
  }

  lemma QueuedAt(queue: seq<(Hash, nat)>, i: nat)
    requires i < |queue|
    ensures queue[i].0 in Queued(queue)
  {
    assert queue[i] in queue;
  }

  lemma QueuedConcat(a: seq<(Hash, nat)>, b: seq<(Hash, nat)>)
    ensures Queued(a + b) == Queued(a) + Queued(b)
  {
    forall e | e in a ensures e in a + b {
    }
    forall e | e in b ensures e in a + b {
    }
  }

  lemma DistinctConcat(a: seq<(Hash, nat)>, b: seq<(Hash, nat)>)
    requires DistinctBlocks(a) && DistinctBlocks(b) && Queued(a) !! Queued(b)
    ensures DistinctBlocks(a + b)
  {
    forall i, j | 0 <= i < j < |a + b| ensures (a + b)[i].0 != (a + b)[j].0 {
      if i < |a| <= j {
        QueuedAt(a, i);
        QueuedAt(b, j - |a|);
      }
    }
  }

  lemma QueueStep(queue: seq<(Hash, nat)>, added: seq<(Hash, nat)>, heavy: set<Hash>)
    requires |queue| > 0 && DistinctBlocks(queue) && DistinctBlocks(added)
    requires Queued(added) == heavy && heavy !! Queued(queue)
    ensures DistinctBlocks(queue[1..] + added)
    ensures Queued(queue[1..] + added) == Queued(queue) - {queue[0].0} + heavy
  {
    var head, rest := queue[..1], queue[1..];
    assert queue == head + rest;
    QueuedConcat(head, rest);
    QueuedConcat(rest, added);
    assert Queued(head) == {queue[0].0} by {
      QueuedAt(head, 0);
    }
    DistinctConcat(rest, added);
  }

  lemma NothingReached(t: Tree, weight: map<Hash, nat>, threshold: nat, start: Hash)
    requires start !in t.nodes || Get(weight, start) < threshold
    ensures forall q :: !Reached(t, weight, threshold, start, q)
  {
    forall q | Reached(t, weight, threshold, start, q) ensures false {
      ReachedBelow(t, weight, threshold, start, q);
    }
  }

  lemma SearchStart(t: Tree, weight: map<Hash, nat>, threshold: nat, start: Hash)
    requires start in t.nodes && Get(weight, start) >= threshold
    ensures SearchInv(t, weight, threshold, start, [(start, 0)], {})
  {
    assert Queued([(start, 0)]) == {start} by {
      assert (start, 0) in [(start, 0)];
    }
  }

  lemma SearchDone(
    t: Tree, weight: map<Hash, nat>, threshold: nat, start: Hash, queue: seq<(Hash, nat)>, seen: set<Hash>)
    requires WellFormed(t) && SearchInv(t, weight, threshold, start, queue, seen) && queue == []
    ensures forall q :: Reached(t, weight, threshold, start, q) <==> q in seen
  {
    assert Queued(queue) == {};
    forall q | Reached(t, weight, threshold, start, q) ensures q in seen {
      ClosedSearch(t, weight, threshold, start, seen, q);
    }
  }

  lemma SeenGrows(all: set<Hash>, seen: set<Hash>, node: Hash)
    requires node in all && node !in seen
    ensures |all - (seen + {node})| < |all - seen|
  {
    assert all - (seen + {node}) == (all - seen) - {node};
  }

  lemma BestStep(
    t: Tree, start: Hash, flagged: set<Hash>, seen: set<Hash>, r: Option<Hash>, maxDepth: int, maxSlot: nat, node: Hash)
    requires BestSoFar(t, start, flagged, seen, r, maxDepth, maxSlot)
    requires node in t.nodes && t.nodes[node].height >= t.nodes[start].height
    ensures var depth, slot := t.nodes[node].height - t.nodes[start].height, t.nodes[node].slot;
      if node in flagged && (depth > maxDepth || (depth == maxDepth && slot > maxSlot))
      then BestSoFar(t, start, flagged, seen + {node}, Some(node), depth, slot)
      else BestSoFar(t, start, flagged, seen + {node}, r, maxDepth, maxSlot)
  {
    var seen' := seen + {node};
    forall q | q in seen' * flagged ensures q in seen * flagged || q == node {
    }
    if r.None? && node !in flagged {
      assert seen' !! flagged;
    }
  }

  ghost predicate BestSoFar(
    t: Tree, start: Hash, flagged: set<Hash>, seen: set<Hash>, r: Option<Hash>, maxDepth: int, maxSlot: nat) {
    && start in t.nodes
    && match r
      case None => maxDepth == -1 && seen !! flagged
      case Some(best) =>
        && best in seen * flagged && best in t.nodes
        && maxDepth == t.nodes[best].height - t.nodes[start].height && maxSlot == t.nodes[best].slot
        && forall q :: q in seen * flagged ==> NotBetter(t, q, best)
  }

  // ---------- bottom-up cumulative weights ----------

  ghost function CumulativeOf(t: Tree, votes: map<Hash, nat>, d: Hash): nat {
    Sum(Subtree(t, d), votes)
  }

  ghost predicate Settled(t: Tree, votes: map<Hash, nat>, c: map<Hash, nat>, s: set<Hash>) {
    forall d {:trigger d in s} :: d in s ==> Get(c, d) == CumulativeOf(t, votes, d)
  }

  ghost predicate SameElsewhere(c: map<Hash, nat>, c': map<Hash, nat>, s: set<Hash>) {
    forall d :: d !in s ==> Get(c', d) == Get(c, d)
  }

  method CumulateNode(t: Tree, votes: map<Hash, nat>, start: map<Hash, nat>, h: Hash) returns (c: map<Hash, nat>)
    requires WellFormed(t) && h in t.nodes
    ensures Settled(t, votes, c, Subtree(t, h)) && SameElsewhere(start, c, Subtree(t, h))
    decreases |Subtree(t, h)|
  {
    hide Settled, SameElsewhere, PartlySettled;
    c := start[h := Get(votes, h)];
    SettleStart(t, votes, start, h);
    var children := t.nodes[h].children;
    for i := 0 to |children|
      invariant PartlySettled(t, votes, start, c, h, i)
    {
      ForestStep(t, h, i);
      ChildSmaller(t, h, children[i]);
      var c' := CumulateNode(t, votes, c, children[i]);
      SettleChild(t, votes, start, c, c', h, i);
      c := c'[h := Get(c', h) + Get(c', children[i])];
    }
    SettleNode(t, votes, start, c, h);
  }

  method AddToAll(blocks: set<Hash>, start: map<Hash, nat>, weight: nat) returns (c: map<Hash, nat>)
    ensures forall d :: Get(c, d) == Get(start, d) + if d in blocks then weight else 0
  {
    c := start;
    var rest := blocks;
    while rest != {}
      invariant rest <= blocks
      invariant forall d :: Get(c, d) == Get(start, d) + if d in blocks - rest then weight else 0
      decreases |rest|
    {
      ghost var m := Member(rest);
      var d :| d in rest;
      c := c[d := Get(c, d) + weight];
      rest := rest - {d};
    }
  }

  lemma WholeTree(t: Tree)
    requires WellFormed(t)
    ensures Subtree(t, t.root) == t.nodes.Keys
  {
    forall d | d in t.nodes ensures d in Subtree(t, t.root) {
      RootAboveAll(t, d);
    }
  }

  /** The first n child subtrees are settled and added up at h. */
  ghost predicate PartlySettled(
    t: Tree, votes: map<Hash, nat>, start: map<Hash, nat>, c: map<Hash, nat>, h: Hash, n: nat)
    requires h in t.nodes && n <= |t.nodes[h].children|
  {
    && Settled(t, votes, c, ChildForest(t, h, n))
    && SameElsewhere(start, c, {h} + ChildForest(t, h, n))
    && Get(c, h) == (Get(votes, h) + Sum(ChildForest(t, h, n), votes))
  }

  lemma SettleStart(t: Tree, votes: map<Hash, nat>, start: map<Hash, nat>, h: Hash)
    requires h in t.nodes
    ensures PartlySettled(t, votes, start, start[h := Get(votes, h)], h, 0)
  {
  }

  lemma SettleChild(
    t: Tree, votes: map<Hash, nat>, start: map<Hash, nat>, c: map<Hash, nat>, c': map<Hash, nat>, h: Hash, n: nat)
    requires WellFormed(t) && h in t.nodes && n < |t.nodes[h].children|
    requires PartlySettled(t, votes, start, c, h, n)
    requires Settled(t, votes, c', Subtree(t, t.nodes[h].children[n]))
    requires SameElsewhere(c, c', Subtree(t, t.nodes[h].children[n]))
    ensures PartlySettled(t, votes, start, c'[h := Get(c', h) + Get(c', t.nodes[h].children[n])], h, n + 1)
  {
    var child := t.nodes[h].children[n];
    ForestSum(t, h, n, votes);
    HeadNotInForest(t, h, n + 1);
    assert child in Subtree(t, child);
    assert Get(c', child) == CumulativeOf(t, votes, child);
    assert Get(c', h) == Get(c, h);
    assert Settled(t, votes, c', ChildForest(t, h, n));
  }

  lemma ForestSum(t: Tree, h: Hash, n: nat, votes: map<Hash, nat>)
    requires WellFormed(t) && h in t.nodes && n < |t.nodes[h].children|
    ensures t.nodes[h].children[n] in t.nodes
    ensures ChildForest(t, h, n) !! Subtree(t, t.nodes[h].children[n])
    ensures Sum(ChildForest(t, h, n + 1), votes)
      == Sum(ChildForest(t, h, n), votes) + CumulativeOf(t, votes, t.nodes[h].children[n])
  {
    ForestStep(t, h, n);
    SumUnion(ChildForest(t, h, n), Subtree(t, t.nodes[h].children[n]), votes);
  }

  lemma HeadNotInForest(t: Tree, h: Hash, n: nat)
    requires WellFormed(t) && h in t.nodes && n <= |t.nodes[h].children|
    ensures h !in ChildForest(t, h, n)
  {
    ForestMember(t, h, n, h);
    if i :| 0 <= i < n && h in Subtree(t, t.nodes[h].children[i]) {
      ForestStep(t, h, i);
    }
  }

  lemma SettleNode(t: Tree, votes: map<Hash, nat>, start: map<Hash, nat>, c: map<Hash, nat>, h: Hash)
    requires WellFormed(t) && h in t.nodes && PartlySettled(t, votes, start, c, h, |t.nodes[h].children|)
    ensures Settled(t, votes, c, Subtree(t, h)) && SameElsewhere(start, c, Subtree(t, h))
  {
    SubtreeSplit(t, h);
    SumRemove(Subtree(t, h), votes, h);
    assert Subtree(t, h) - {h} == ChildForest(t, h, |t.nodes[h].children|);
  }

  lemma ChildSmaller(t: Tree, h: Hash, child: Hash)
    requires WellFormed(t) && IsParent(t, h, child)
    ensures |Subtree(t, child)| < |Subtree(t, h)|
  {
    ChildBelow(t, h, child);
    SubtreeNested(t, child, h);
    if h in Subtree(t, child) {
      BelowHeight(t, h, child);
    }
    ProperSubset(Subtree(t, child), Subtree(t, h), h);
  }

  // ---------- finalized blocks ----------

  /** Everything above a finalized block is finalized. */
  ghost predicate FinalizedClosed(t: Tree, finalized: set<Hash>) {
    && t.root in finalized && finalized <= t.nodes.Keys
    && forall p, d :: d in finalized && IsParent(t, p, d) ==> p in finalized
  }

  lemma ProperSubset(s: set<Hash>, u: set<Hash>, x: Hash)
    requires s <= u && x in u && x !in s
    ensures |s| < |u|
  {
    assert u == s + (u - s);
    assert x in u - s;
  }

  // ---------- what a search result is ----------

  /** A block is reached exactly if every block on the way down to it from the start is heavy enough. */
  lemma {:induction false} ReachedExactly(t: Tree, weight: map<Hash, nat>, threshold: nat, start: Hash, d: Hash)
    requires WellFormed(t) && d in t.nodes
    ensures Reached(t, weight, threshold, start, d) <==>
      Below(t, d, start) && forall a :: Below(t, d, a) && Below(t, a, start) ==> Get(weight, a) >= threshold
    decreases t.nodes[d].height
  {
    if d == start {
      forall a | Below(t, d, a) && Below(t, a, start) ensures a == d {
        BelowHeight(t, d, a);
        BelowHeight(t, a, start);
      }
      assert Below(t, d, d);
    } else if t.nodes[d].parent.Some? {
      var p := t.nodes[d].parent.value;
      assert IsParent(t, p, d);
      ReachedExactly(t, weight, threshold, start, p);
      forall a ensures Below(t, d, a) <==> a == d || Below(t, p, a) {
      }
      if Below(t, p, start) {
        assert Below(t, d, d) && Below(t, d, start);
      }
    }
  }

  /** A search result in plain terms: eligible, reached, and none is deeper, or as deep with a later slot. */
  lemma GhostIsDeepest(
    t: Tree, weight: map<Hash, nat>, threshold: nat, start: Hash, flagged: set<Hash>, best: Hash, q: Hash)
    requires IsGhost(t, weight, threshold, start, flagged, Some(best))
    ensures best in flagged && Reached(t, weight, threshold, start, best)
    ensures q in flagged && Reached(t, weight, threshold, start, q) ==>
      && t.nodes[q].height <= t.nodes[best].height
      && (t.nodes[q].height == t.nodes[best].height ==> t.nodes[q].slot <= t.nodes[best].slot)
  {
    assert Candidate(t, weight, threshold, start, flagged, q) <==> Reached(t, weight, threshold, start, q) && q in flagged;
  }
}
