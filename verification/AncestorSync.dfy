/**
 Copying a block together with its missing ancestors from the node's block tree into
 a round's vote graph.
 */
module AncestorSync {
  import opened Options
  import opened Votes
  import opened Trees
  import opened BlockTrees

  const MAX_MISSING: nat := 1000

  /** The parent hash in a block's header; for the root it names a block outside the tree. */
  function HeaderParent(main: Tree, rootParent: Hash, h: Hash): Hash
    requires h in main.nodes
  {
    if main.nodes[h].parent.Some? then main.nodes[h].parent.value else rootParent
  }

  ghost predicate Linked(main: Tree, rootParent: Hash) {
    WellFormed(main) && rootParent !in main.nodes
  }

  ghost function Rank(main: Tree, h: Hash): nat {
    if h in main.nodes then main.nodes[h].height + 1 else 0
  }

  lemma RankDecreases(main: Tree, rootParent: Hash, h: Hash)
    requires Linked(main, rootParent) && h in main.nodes
    ensures Rank(main, HeaderParent(main, rootParent, h)) < Rank(main, h)
  {
    if main.nodes[h].parent.Some? {
      assert IsParent(main, main.nodes[h].parent.value, h);
    }
  }

  /**
   Reference definition: the blocks missing from the target on the way up from h,
   newest first; none when the way up leaves the main tree before meeting the target.
   */
  ghost function Missing(main: Tree, rootParent: Hash, target: set<Hash>, h: Hash): Option<seq<Hash>>
    requires Linked(main, rootParent)
    decreases Rank(main, h)
  {
    if h in target then Some([])
    else if h !in main.nodes then None
    else
      RankDecreases(main, rootParent, h);
      match Missing(main, rootParent, target, HeaderParent(main, rootParent, h))
      case None => None
      case Some(rest) => Some([h] + rest)
  }

  /** Adds a chain of blocks oldest first; the chain lists them newest first. */
  ghost function AddChain(target: Tree, main: Tree, rootParent: Hash, chain: seq<Hash>): Tree
    requires forall h :: h in chain ==> h in main.nodes
    decreases |chain|
  {
    if chain == [] then target
    else
      var below := AddChain(target, main, rootParent, chain[1..]);
      var p := HeaderParent(main, rootParent, chain[0]);
      if p in below.nodes then Insert(below, chain[0], p, main.nodes[chain[0]].slot) else below
  }

  /** A missing chain: linked by header parents and starting where the target ends. */
  ghost predicate IsMissingChain(main: Tree, rootParent: Hash, target: set<Hash>, h: Hash, chain: seq<Hash>)
    decreases |chain|
  {
    if chain == [] then h in target
    else
      && chain[0] == h && h !in target && h in main.nodes
      && IsMissingChain(main, rootParent, target, HeaderParent(main, rootParent, h), chain[1..])
  }

  lemma {:induction false} MissingIsChain(main: Tree, rootParent: Hash, target: set<Hash>, h: Hash)
    requires Linked(main, rootParent) && Missing(main, rootParent, target, h).Some?
    ensures IsMissingChain(main, rootParent, target, h, Missing(main, rootParent, target, h).value)
    decreases Rank(main, h)
  {
    if h !in target {
      RankDecreases(main, rootParent, h);
      var rest := Missing(main, rootParent, target, HeaderParent(main, rootParent, h)).value;
      MissingIsChain(main, rootParent, target, HeaderParent(main, rootParent, h));
      assert ([h] + rest)[1..] == rest;
    }
  }

  /** Members of a missing chain are below h in rank, so no block occurs twice. */
  lemma {:induction false} ChainMembers(main: Tree, rootParent: Hash, target: set<Hash>, h: Hash, chain: seq<Hash>)
    requires Linked(main, rootParent) && IsMissingChain(main, rootParent, target, h, chain)
    ensures forall i :: 0 <= i < |chain| ==>
      chain[i] in main.nodes && chain[i] !in target && Rank(main, chain[i]) <= Rank(main, h)
    decreases |chain|
  {
    if chain != [] {
      RankDecreases(main, rootParent, h);
      ChainMembers(main, rootParent, target, HeaderParent(main, rootParent, h), chain[1..]);
      forall i | 0 <= i < |chain|
        ensures chain[i] in main.nodes && chain[i] !in target && Rank(main, chain[i]) <= Rank(main, h)
      {
        assert i > 0 ==> chain[i] == chain[1..][i - 1];
      }
    }
  }

  ghost function Members(chain: seq<Hash>): set<Hash> {
    set h | h in chain
  }

  /**
   Inserting a missing chain succeeds at every step: the tree stays well formed, gains
   exactly the chain, and contains the block the chain starts from.
   */
  lemma {:induction false} AddChainGrows(main: Tree, rootParent: Hash, target: Tree, h: Hash, chain: seq<Hash>)
    requires Linked(main, rootParent) && WellFormed(target)
    requires IsMissingChain(main, rootParent, target.nodes.Keys, h, chain)
    ensures forall i :: 0 <= i < |chain| ==> chain[i] in main.nodes
    ensures var t := AddChain(target, main, rootParent, chain);
      WellFormed(t) && t.nodes.Keys == target.nodes.Keys + Members(chain) && h in t.nodes
    decreases |chain|
  {
    ChainMembers(main, rootParent, target.nodes.Keys, h, chain);
    if chain != [] {
      var p, rest := HeaderParent(main, rootParent, h), chain[1..];
      AddChainGrows(main, rootParent, target, p, rest);
      var below := AddChain(target, main, rootParent, rest);
      RankDecreases(main, rootParent, h);
      ChainMembers(main, rootParent, target.nodes.Keys, p, rest);
      forall i | 0 <= i < |rest| ensures rest[i] != h {
      }
      assert h !in below.nodes;
      InsertWellFormed(below, h, p, main.nodes[h].slot);
      assert chain == [h] + rest;
      assert Members(chain) == {h} + Members(rest);
    } else {
      assert Members(chain) == {};
    }
  }

  /** Every block of the chain stands in the graph with its own slot, under its header's parent. */
  ghost predicate Copied(main: Tree, rootParent: Hash, chain: seq<Hash>, t: Tree) {
    forall h :: h in chain ==>
      h in main.nodes && h in t.nodes && t.nodes[h].slot == main.nodes[h].slot
      && t.nodes[h].parent == Some(HeaderParent(main, rootParent, h))
  }

  lemma InsertKeepsCopied(main: Tree, rootParent: Hash, chain: seq<Hash>, t: Tree, block: Hash, parent: Hash, slot: nat)
    requires Copied(main, rootParent, chain, t) && block !in t.nodes && parent in t.nodes
    ensures Copied(main, rootParent, chain, Insert(t, block, parent, slot))
  {
  }

  lemma {:induction false} AddChainCopies(main: Tree, rootParent: Hash, target: Tree, h: Hash, chain: seq<Hash>)
    requires Linked(main, rootParent) && WellFormed(target)
    requires IsMissingChain(main, rootParent, target.nodes.Keys, h, chain)
    requires forall g :: g in chain ==> g in main.nodes
    ensures Copied(main, rootParent, chain, AddChain(target, main, rootParent, chain))
    decreases |chain|
  {
    if chain != [] {
      var p, rest := HeaderParent(main, rootParent, h), chain[1..];
      AddChainCopies(main, rootParent, target, p, rest);
      AddChainGrows(main, rootParent, target, p, rest);
      HeadIsNew(main, rootParent, target, h, chain);
      var below := AddChain(target, main, rootParent, rest);
      InsertKeepsCopied(main, rootParent, rest, below, h, p, main.nodes[h].slot);
      assert chain == [h] + rest;
    }
  }

  lemma {:induction false} ChainSuffix(
    main: Tree, rootParent: Hash, target: set<Hash>, h: Hash, chain: seq<Hash>, k: nat)
    requires IsMissingChain(main, rootParent, target, h, chain) && k < |chain| && chain[k] in main.nodes
    ensures IsMissingChain(main, rootParent, target, chain[k], chain[k..])
    ensures IsMissingChain(main, rootParent, target, HeaderParent(main, rootParent, chain[k]), chain[k + 1..])
    decreases |chain|
  {
    if k == 0 {
      assert chain[0..] == chain;
    } else {
      ChainSuffix(main, rootParent, target, HeaderParent(main, rootParent, h), chain[1..], k - 1);
      assert chain[1..][k - 1..] == chain[k..];
      assert chain[1..][k..] == chain[k + 1..];
    }
  }

  /** What the walk up from the parent decides before anything is inserted. */
  ghost predicate CanSync(main: Tree, rootParent: Hash, target: set<Hash>, block: Hash, parent: Hash)
    requires Linked(main, rootParent)
  {
    && block !in target
    && Missing(main, rootParent, target, parent).Some?
    && |Missing(main, rootParent, target, parent).value| <= MAX_MISSING
  }

  /** The graph after the copy. */
  ghost function Synced(main: Tree, rootParent: Hash, target: Tree, block: Hash, parent: Hash, slot: nat): Tree
    requires Linked(main, rootParent)
  {
    if WellFormed(target) && CanSync(main, rootParent, target.nodes.Keys, block, parent) then
      var missing := Missing(main, rootParent, target.nodes.Keys, parent).value;
      MissingIsChain(main, rootParent, target.nodes.Keys, parent);
      AddChainGrows(main, rootParent, target, parent, missing);
      Insert(AddChain(target, main, rootParent, missing), block, parent, slot)
    else target
  }

  /** The block so many header parents up; none once the way has left the main tree. */
  function Up(main: Tree, rootParent: Hash, h: Hash, k: nat): Option<Hash>
    decreases k
  {
    if k == 0 then Some(h)
    else if h in main.nodes then Up(main, rootParent, HeaderParent(main, rootParent, h), k - 1)
    else None
  }

  /** The graph is met within so many steps up. */
  ghost predicate MeetsWithin(main: Tree, rootParent: Hash, target: set<Hash>, h: Hash, limit: nat) {
    exists k: nat :: k <= limit && Up(main, rootParent, h, k).Some? && Up(main, rootParent, h, k).value in target
  }

  lemma {:induction false} MissingEnds(main: Tree, rootParent: Hash, target: set<Hash>, h: Hash)
    requires Linked(main, rootParent) && Missing(main, rootParent, target, h).Some?
    ensures var end := Up(main, rootParent, h, |Missing(main, rootParent, target, h).value|); end.Some? && end.value in target
    decreases Rank(main, h)
  {
    if h !in target {
      RankDecreases(main, rootParent, h);
      MissingEnds(main, rootParent, target, HeaderParent(main, rootParent, h));
    }
  }

  lemma {:induction false} MetIsMissing(main: Tree, rootParent: Hash, target: set<Hash>, h: Hash, k: nat)
    requires Linked(main, rootParent)
    requires Up(main, rootParent, h, k).Some? && Up(main, rootParent, h, k).value in target
    ensures Missing(main, rootParent, target, h).Some? && |Missing(main, rootParent, target, h).value| <= k
    decreases k
  {
    if h !in target {
      RankDecreases(main, rootParent, h);
      MetIsMissing(main, rootParent, target, HeaderParent(main, rootParent, h), k - 1);
    }
  }

  /** A copy puts the block into the graph exactly if a block at most 1000 steps above its parent is there. */
  lemma SyncedExactly(main: Tree, rootParent: Hash, target: Tree, block: Hash, parent: Hash, slot: nat)
    requires Linked(main, rootParent) && WellFormed(target) && block !in target.nodes
    ensures block in Synced(main, rootParent, target, block, parent, slot).nodes
      <==> MeetsWithin(main, rootParent, target.nodes.Keys, parent, 1000)
  {
    var keys := target.nodes.Keys;
    if MeetsWithin(main, rootParent, keys, parent, 1000) {
      var k: nat :| k <= 1000 && Up(main, rootParent, parent, k).Some? && Up(main, rootParent, parent, k).value in keys;
      MetIsMissing(main, rootParent, keys, parent, k);
    }
    if CanSync(main, rootParent, keys, block, parent) {
      MissingEnds(main, rootParent, keys, parent);
      assert MeetsWithin(main, rootParent, keys, parent, 1000);
    }
  }

  /** The walk up: collects the missing ancestors, or gives up. */
  method CollectMissing(main: Tree, rootParent: Hash, target: set<Hash>, parent: Hash) returns (r: Option<seq<Hash>>)
    requires Linked(main, rootParent)
    ensures r == (var m := Missing(main, rootParent, target, parent);
                  if m.Some? && |m.value| <= MAX_MISSING then m else None)
  {
    var missing: seq<Hash> := [];
    var current := parent;
    ghost var whole := Missing(main, rootParent, target, parent);
    assert whole.Some? ==> [] + whole.value == whole.value;
    while current !in target
      invariant |missing| <= MAX_MISSING
      invariant Missing(main, rootParent, target, parent) ==
        match Missing(main, rootParent, target, current)
        case None => None
        case Some(rest) => Some(missing + rest)
      decreases Rank(main, current)
    {
      if current !in main.nodes {
        return None;
      }
      RankDecreases(main, rootParent, current);
      ghost var above := Missing(main, rootParent, target, HeaderParent(main, rootParent, current));
      assert above.Some? ==> missing + ([current] + above.value) == missing + [current] + above.value;
      missing := missing + [current];
      current := HeaderParent(main, rootParent, current);
      if |missing| > MAX_MISSING {
        return None;
      }
    }
    assert missing + [] == missing;
    return Some(missing);
  }

  /** Inserts the collected ancestors oldest first; no insertion fails. */
  method InsertMissing(main: Tree, rootParent: Hash, missing: seq<Hash>, parent: Hash, target: BlockTree)
    requires Linked(main, rootParent) && WellFormed(target.tree)
    requires IsMissingChain(main, rootParent, target.tree.nodes.Keys, parent, missing)
    requires forall h :: h in missing ==> h in main.nodes
    modifies target`tree
    ensures target.tree == AddChain(old(target.tree), main, rootParent, missing)
    ensures WellFormed(target.tree)
  {
    ghost var before := target.tree;
    ghost var keys := before.nodes.Keys;
    var i := |missing|;
    assert missing[i..] == [];
    while i > 0
      invariant 0 <= i <= |missing|
      invariant WellFormed(target.tree)
      invariant target.tree == AddChain(before, main, rootParent, missing[i..])
    {
      i := i - 1;
      var h := missing[i];
      assert h in missing;
      var p := HeaderParent(main, rootParent, h);
      ChainSuffix(main, rootParent, keys, parent, missing, i);
      AddChainGrows(main, rootParent, before, p, missing[i + 1..]);
      assert missing[i..][1..] == missing[i + 1..];
      AddChainGrows(main, rootParent, before, h, missing[i..]);
      HeadIsNew(main, rootParent, before, h, missing[i..]);
      var ok := target.AddBlock(h, p, main.nodes[h].slot);
      assert ok;
    }
    assert missing[0..] == missing;
  }

  lemma HeadIsNew(main: Tree, rootParent: Hash, target: Tree, h: Hash, chain: seq<Hash>)
    requires Linked(main, rootParent) && WellFormed(target) && chain != []
    requires IsMissingChain(main, rootParent, target.nodes.Keys, h, chain)
    requires forall g :: g in chain[1..] ==> g in main.nodes
    ensures h !in AddChain(target, main, rootParent, chain[1..]).nodes
  {
    var p := HeaderParent(main, rootParent, h);
    AddChainGrows(main, rootParent, target, p, chain[1..]);
    ChainMembers(main, rootParent, target.nodes.Keys, p, chain[1..]);
    RankDecreases(main, rootParent, h);
  }

  /**
   All or nothing: either the graph is untouched, because the block is already there or
   its ancestry does not meet the graph within the limit, or it gains exactly the
   block and its whole missing chain. It stays well formed either way.
   */
  method SyncBlockWithAncestors(main: Tree, rootParent: Hash, block: Hash, parent: Hash, slot: nat, target: BlockTree)
    requires Linked(main, rootParent) && WellFormed(target.tree)
    requires block in main.nodes ==> HeaderParent(main, rootParent, block) == parent
    modifies target`tree
    ensures WellFormed(target.tree)
    ensures if CanSync(main, rootParent, old(target.tree).nodes.Keys, block, parent)
      then
        && target.tree.nodes.Keys ==
           old(target.tree).nodes.Keys + Members(Missing(main, rootParent, old(target.tree).nodes.Keys, parent).value) + {block}
        && target.tree.nodes[block].slot == slot && IsParent(target.tree, parent, block)
        && Copied(main, rootParent, Missing(main, rootParent, old(target.tree).nodes.Keys, parent).value, target.tree)
      else target.tree == old(target.tree)
    ensures target.tree == Synced(main, rootParent, old(target.tree), block, parent, slot)
  {
    ghost var keys := target.tree.nodes.Keys;
    if block in target.tree.nodes {
      return;
    }
    var missing := CollectMissing(main, rootParent, target.tree.nodes.Keys, parent);
    if missing.None? {
      return;
    }
    MissingIsChain(main, rootParent, keys, parent);
    AddChainGrows(main, rootParent, target.tree, parent, missing.value);
    BlockNotMissing(main, rootParent, keys, block, parent, missing.value);
    AddChainCopies(main, rootParent, target.tree, parent, missing.value);
    InsertMissing(main, rootParent, missing.value, parent, target);
    ghost var before := target.tree;
    var ok := target.AddBlock(block, parent, slot);
    assert ok;
    InsertWellFormed(before, block, parent, slot);
    InsertKeepsCopied(main, rootParent, missing.value, before, block, parent, slot);
  }

  lemma BlockNotMissing(main: Tree, rootParent: Hash, target: set<Hash>, block: Hash, parent: Hash, chain: seq<Hash>)
    requires Linked(main, rootParent) && IsMissingChain(main, rootParent, target, parent, chain)
    requires block in main.nodes ==> HeaderParent(main, rootParent, block) == parent
    ensures block !in chain
  {
    ChainMembers(main, rootParent, target, parent, chain);
    if block in main.nodes {
      RankDecreases(main, rootParent, block);
    }
  }

  lemma InsertPart(main: Tree, t: Tree, block: Hash, parent: Hash, slot: nat)
    requires WellFormed(main) && WellFormed(t) && PartOf(t, main) && parent in t.nodes && block !in t.nodes
    requires block in main.nodes && main.nodes[block].parent == Some(parent) && main.nodes[block].slot == slot
    ensures PartOf(Insert(t, block, parent, slot), main)
  {
    assert IsParent(main, parent, block);
  }

  lemma {:induction false} AddChainPart(main: Tree, rootParent: Hash, target: Tree, h: Hash, chain: seq<Hash>)
    requires Linked(main, rootParent) && WellFormed(target) && PartOf(target, main)
    requires IsMissingChain(main, rootParent, target.nodes.Keys, h, chain)
    requires forall g :: g in chain ==> g in main.nodes
    ensures PartOf(AddChain(target, main, rootParent, chain), main)
    decreases |chain|
  {
    if chain != [] {
      var p, rest := HeaderParent(main, rootParent, h), chain[1..];
      AddChainPart(main, rootParent, target, p, rest);
      AddChainGrows(main, rootParent, target, p, rest);
      HeadIsNew(main, rootParent, target, h, chain);
      var below := AddChain(target, main, rootParent, rest);
      assert p in below.nodes;
      InsertPart(main, below, h, p, main.nodes[h].slot);
    }
  }

  /** Copying a block of the main tree keeps the graph a part of it. */
  lemma SyncedPart(main: Tree, rootParent: Hash, target: Tree, block: Hash, parent: Hash, slot: nat)
    requires Linked(main, rootParent) && WellFormed(target) && PartOf(target, main)
    requires block in main.nodes && main.nodes[block].parent == Some(parent) && main.nodes[block].slot == slot
    ensures WellFormed(Synced(main, rootParent, target, block, parent, slot))
    ensures PartOf(Synced(main, rootParent, target, block, parent, slot), main)
  {
    var keys := target.nodes.Keys;
    if CanSync(main, rootParent, keys, block, parent) {
      var missing := Missing(main, rootParent, keys, parent).value;
      MissingIsChain(main, rootParent, keys, parent);
      AddChainGrows(main, rootParent, target, parent, missing);
      BlockNotMissing(main, rootParent, keys, block, parent, missing);
      AddChainPart(main, rootParent, target, parent, missing);
      var grown := AddChain(target, main, rootParent, missing);
      InsertWellFormed(grown, block, parent, slot);
      InsertPart(main, grown, block, parent, slot);
    }
  }
}
