/**
 Marking blocks as finalized: the walk that finalizes a block with its ancestors, the
 walk that finds the last finalized block, and when the finalized blocks stay a chain.
 */
module Finalized {
  import opened Options
  import opened Votes
  import opened Trees
  import opened BlockTrees

  /** The block itself and everything above it. */
  ghost function Ancestors(t: Tree, h: Hash): set<Hash> {
    set a | a in t.nodes && Below(t, h, a)
  }

  ghost predicate IsChain(t: Tree, s: set<Hash>) {
    forall a, b :: a in s && b in s ==> Below(t, a, b) || Below(t, b, a)
  }

  /** Blocks from h upwards, stopping short of the given ancestor. */
  ghost function PathTo(t: Tree, h: Hash, top: Hash): set<Hash> {
    set a | a in t.nodes && Below(t, h, a) && Below(t, a, top) && a != top
  }

  lemma PathStep(t: Tree, h: Hash, top: Hash)
    requires WellFormed(t) && top in t.nodes && Below(t, h, top) && t.nodes[top].parent.Some?
    ensures var p := t.nodes[top].parent.value;
      p in t.nodes && t.nodes[p].height < t.nodes[top].height && Below(t, h, p) && PathTo(t, h, p) == PathTo(t, h, top) + {top}
  {
    var p := t.nodes[top].parent.value;
    assert IsParent(t, p, top);
    ChildBelow(t, p, top);
    BelowTransitive(t, h, top, p);
    forall a | a in PathTo(t, h, p) ensures a in PathTo(t, h, top) + {top} {
      AncestorsComparable(t, h, a, top);
      if Below(t, top, a) && a != top {
        // a lies at or above the parent of top, and below it
        BelowHeight(t, a, p);
        BelowHeight(t, p, a);
      }
    }
    forall a | a in PathTo(t, h, top) ensures a in PathTo(t, h, p) {
      BelowTransitive(t, a, top, p);
      BelowHeight(t, a, top);
    }
  }

  lemma PathEmpty(t: Tree, h: Hash)
    requires WellFormed(t)
    ensures PathTo(t, h, h) == {}
  {
    forall a | a in PathTo(t, h, h) ensures false {
      BelowHeight(t, h, a);
      BelowHeight(t, a, h);
    }
  }

  lemma {:induction false} ClosedUpwards(t: Tree, finalized: set<Hash>, d: Hash, a: Hash)
    requires WellFormed(t) && FinalizedClosed(t, finalized) && d in finalized && Below(t, d, a)
    ensures a in finalized
    decreases t.nodes[d].height
  {
    if d != a {
      assert IsParent(t, t.nodes[d].parent.value, d);
      ClosedUpwards(t, finalized, t.nodes[d].parent.value, a);
    }
  }

  lemma PathComplete(t: Tree, finalized: set<Hash>, h: Hash, top: Hash)
    requires WellFormed(t) && FinalizedClosed(t, finalized) && top in finalized && Below(t, h, top)
    ensures finalized + PathTo(t, h, top) == finalized + Ancestors(t, h)
    ensures FinalizedClosed(t, finalized + Ancestors(t, h))
  {
    forall a | a in Ancestors(t, h) ensures a in finalized + PathTo(t, h, top) {
      AncestorsComparable(t, h, a, top);
      if Below(t, top, a) {
        ClosedUpwards(t, finalized, top, a);
      }
    }
    forall p, d | d in Ancestors(t, h) && IsParent(t, p, d) ensures p in Ancestors(t, h) {
      ChildBelow(t, p, d);
      BelowTransitive(t, h, d, p);
    }
  }

  /** Marks the block and its ancestors up to the first one already marked. */
  method FinalizeBlock(t: Tree, finalized: set<Hash>, h: Hash) returns (ok: bool, r: set<Hash>)
    requires WellFormed(t) && FinalizedClosed(t, finalized)
    ensures ok == (h in t.nodes && h !in finalized)
    ensures r == if ok then finalized + Ancestors(t, h) else finalized
    ensures FinalizedClosed(t, r)
  {
    r := finalized;
    if h !in t.nodes || h in finalized {
      return false, r;
    }
    var node := h;
    PathEmpty(t, h);
    while node !in r
      invariant node in t.nodes && Below(t, h, node)
      invariant r == finalized + PathTo(t, h, node)
      decreases t.nodes[node].height
    {
      PathStep(t, h, node);
      r := r + {node};
      node := t.nodes[node].parent.value;
    }
    assert node in finalized;
    PathComplete(t, finalized, h, node);
    return true, r;
  }

  /** Walks down from the root through finalized children. */
  method LastFinalized(t: Tree, finalized: set<Hash>) returns (last: Hash)
    requires WellFormed(t) && FinalizedClosed(t, finalized)
    ensures IsLast(t, finalized, last)
  {
    last := t.root;
    var descend := true;
    while descend
      invariant last in t.nodes && last in finalized
      invariant !descend ==> forall c :: IsParent(t, last, c) ==> c !in finalized
      decreases |Subtree(t, last)|, descend
    {
      descend := false;
      var children := t.nodes[last].children;
      var i := 0;
      while i < |children| && children[i] !in finalized
        invariant i <= |children|
        invariant forall j :: 0 <= j < i ==> children[j] !in finalized
      {
        i := i + 1;
      }
      if i < |children| {
        assert children[i] in children;
        ChildSmaller(t, last, children[i]);
        last := children[i];
        descend := true;
      }
    }
  }

  ghost predicate IsLast(t: Tree, finalized: set<Hash>, last: Hash) {
    last in finalized && last in t.nodes && forall c :: IsParent(t, last, c) ==> c !in finalized
  }

  /** In a chain the last finalized block determines all of them. */
  lemma ChainIsAncestors(t: Tree, finalized: set<Hash>, last: Hash)
    requires WellFormed(t) && FinalizedClosed(t, finalized) && IsChain(t, finalized) && IsLast(t, finalized, last)
    ensures finalized == Ancestors(t, last)
  {
    forall d | d in finalized ensures d in Ancestors(t, last) {
      if !Below(t, last, d) {
        var c := ChildTowards(t, d, last);
        ClosedUpwards(t, finalized, d, c);
      }
    }
    forall a | a in Ancestors(t, last) ensures a in finalized {
      ClosedUpwards(t, finalized, last, a);
    }
  }

  lemma AncestorsAreChain(t: Tree, h: Hash)
    requires WellFormed(t)
    ensures IsChain(t, Ancestors(t, h))
  {
    forall a, b | a in Ancestors(t, h) && b in Ancestors(t, h) ensures Below(t, a, b) || Below(t, b, a) {
      AncestorsComparable(t, h, a, b);
    }
  }

  /** The comparison used for "at least as new": same parent, same block, or a descendant. */
  predicate ChildOrBrother(t: Tree, a: Hash, b: Hash)
    requires a in t.nodes && b in t.nodes
  {
    t.nodes[a].parent == t.nodes[b].parent || a == b || Below(t, a, b)
  }

  /** What one finalization attempt with enough votes does to the finalized set. */
  ghost function AfterAttempt(t: Tree, finalized: set<Hash>, last: Hash, candidate: Hash): set<Hash>
    requires last in t.nodes && candidate in t.nodes
  {
    if ChildOrBrother(t, candidate, last) && candidate !in finalized then finalized + Ancestors(t, candidate) else finalized
  }

  /**
   Finalized blocks stay a chain exactly when the candidate is not a brother of the
   last finalized block: the comparison lets a brother through, and finalizing it
   leaves two conflicting finalized blocks.
   */
  lemma AttemptKeepsChain(t: Tree, finalized: set<Hash>, last: Hash, candidate: Hash)
    requires WellFormed(t) && FinalizedClosed(t, finalized) && IsChain(t, finalized) && IsLast(t, finalized, last)
    requires candidate in t.nodes
    ensures IsChain(t, AfterAttempt(t, finalized, last, candidate))
       <==> candidate == last || t.nodes[candidate].parent != t.nodes[last].parent
  {
    ChainIsAncestors(t, finalized, last);
    var r := AfterAttempt(t, finalized, last, candidate);
    if candidate != last && t.nodes[candidate].parent == t.nodes[last].parent {
      assert t.nodes[candidate].parent.Some?;
      SiblingsDisjoint(t, t.nodes[last].parent.value, candidate, last);
      assert candidate in r && last in r;
    } else if ChildOrBrother(t, candidate, last) && candidate !in finalized {
      forall a | a in r ensures a in Ancestors(t, candidate) {
        if a in finalized {
          BelowTransitive(t, candidate, last, a);
        }
      }
      AncestorsAreChain(t, candidate);
    }
  }

  /** Two brothers, one finalized: an attempt with the other leaves both finalized. */
  lemma BrotherFinalized()
    ensures var t := Fork();
      && WellFormed(t) && FinalizedClosed(t, {0, 1}) && IsChain(t, {0, 1}) && IsLast(t, {0, 1}, 1)
      && AfterAttempt(t, {0, 1}, 1, 2) == {0, 1, 2} && Conflicting(t, 1, 2)
  {
    var t := Fork();
    ForkShape();
    assert Below(t, 2, 2) && Below(t, 2, 0) && !Below(t, 2, 1);
    assert Ancestors(t, 2) == {0, 2};
    assert Below(t, 1, 0) && Below(t, 0, 0);
  }
}
