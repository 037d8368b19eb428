/**
 The shape of a block tree: who is whose parent, and which blocks lie at or below a
 given block. Weights and flags live elsewhere; nothing here changes when they do.
 */
module Trees {
  import opened Options
  import opened Votes

  datatype Node = Node(parent: Option<Hash>, children: seq<Hash>, height: nat, slot: nat)

  datatype Tree = Tree(root: Hash, nodes: map<Hash, Node>)

  predicate IsParent(t: Tree, p: Hash, c: Hash) {
    c in t.nodes && t.nodes[c].parent == Some(p)
  }

  predicate NoDuplicates(s: seq<Hash>) {
    forall i, j :: 0 <= i < j < |s| ==> s[i] != s[j]
  }

  /**
   A finite tree: only the root has no parent, parent and child links agree, and
   heights grow by one from parent to child.
   */
  ghost predicate WellFormed(t: Tree) {
    && t.root in t.nodes && t.nodes[t.root].parent == None
    && (forall h :: h in t.nodes && h != t.root ==> t.nodes[h].parent.Some?)
    && (forall p, c :: IsParent(t, p, c) ==>
      p in t.nodes && c in t.nodes[p].children && t.nodes[c].height == t.nodes[p].height + 1)
    && (forall p, c :: p in t.nodes && c in t.nodes[p].children ==> IsParent(t, p, c))
    && (forall p :: p in t.nodes ==> NoDuplicates(t.nodes[p].children))
  }

  /** d is a itself or one of its descendants; found by walking up from d. */
  predicate Below(t: Tree, d: Hash, a: Hash)
    decreases if d in t.nodes then t.nodes[d].height else 0
  {
    && d in t.nodes
    && (d == a
      || (var p := t.nodes[d].parent;
          && p.Some? && p.value in t.nodes
          && t.nodes[p.value].height < t.nodes[d].height
          && Below(t, p.value, a)))
  }

  ghost function Subtree(t: Tree, a: Hash): set<Hash> {
    set d | d in t.nodes && Below(t, d, a)
  }

  /** Neither block is an ancestor of the other. */
  predicate Conflicting(t: Tree, a: Hash, b: Hash) {
    !Below(t, a, b) && !Below(t, b, a)
  }

  lemma {:induction false} BelowHeight(t: Tree, d: Hash, a: Hash)
    requires WellFormed(t) && Below(t, d, a)
    ensures a in t.nodes && t.nodes[a].height <= t.nodes[d].height
    ensures t.nodes[a].height == t.nodes[d].height ==> a == d
    decreases t.nodes[d].height
  {
    if d != a {
      BelowHeight(t, t.nodes[d].parent.value, a);
    }
  }

  lemma {:induction false} BelowTransitive(t: Tree, e: Hash, d: Hash, a: Hash)
    requires Below(t, e, d) && Below(t, d, a)
    ensures Below(t, e, a)
    decreases t.nodes[e].height
  {
    if e != d {
      BelowTransitive(t, t.nodes[e].parent.value, d, a);
    }
  }

  lemma ChildBelow(t: Tree, p: Hash, c: Hash)
    requires WellFormed(t) && IsParent(t, p, c)
    ensures Below(t, c, p) && c != p
  {
    assert Below(t, p, p);
  }

  /** The ancestors of one block form a chain. */
  lemma {:induction false} AncestorsComparable(t: Tree, d: Hash, a: Hash, b: Hash)
    requires WellFormed(t) && Below(t, d, a) && Below(t, d, b)
    ensures Below(t, a, b) || Below(t, b, a)
    decreases t.nodes[d].height
  {
    if d != a && d != b {
      AncestorsComparable(t, t.nodes[d].parent.value, a, b);
    }
  }

  /** Conflicting blocks have no descendant in common. */
  lemma ConflictingDisjoint(t: Tree, a: Hash, b: Hash)
    requires WellFormed(t) && Conflicting(t, a, b)
    ensures Subtree(t, a) !! Subtree(t, b)
  {
    forall d | d in Subtree(t, a) && d in Subtree(t, b) ensures false {
      AncestorsComparable(t, d, a, b);
    }
  }

  lemma SubtreeNested(t: Tree, d: Hash, a: Hash)
    requires Below(t, d, a)
    ensures Subtree(t, d) <= Subtree(t, a)
  {
    forall e | e in Subtree(t, d) ensures e in Subtree(t, a) {
      BelowTransitive(t, e, d, a);
    }
  }

  lemma {:induction false} RootAboveAll(t: Tree, d: Hash)
    requires WellFormed(t) && d in t.nodes
    ensures Below(t, d, t.root)
    decreases t.nodes[d].height
  {
    if d != t.root {
      var p := t.nodes[d].parent.value;
      assert IsParent(t, p, d);
      RootAboveAll(t, p);
    }
  }

  /** A proper descendant lies below one of the children. */
  lemma {:induction false} ChildTowards(t: Tree, d: Hash, a: Hash) returns (c: Hash)
    requires WellFormed(t) && Below(t, d, a) && d != a
    ensures IsParent(t, a, c) && Below(t, d, c)
    decreases t.nodes[d].height
  {
    var p := t.nodes[d].parent.value;
    if p == a {
      c := d;
    } else {
      c := ChildTowards(t, p, a);
    }
  }

  /** The subtrees of the first n children, taken together. */
  ghost function ChildForest(t: Tree, a: Hash, n: nat): set<Hash>
    requires a in t.nodes && n <= |t.nodes[a].children|
  {
    if n == 0 then {} else ChildForest(t, a, n - 1) + Subtree(t, t.nodes[a].children[n - 1])
  }

  lemma {:induction false} ForestMember(t: Tree, a: Hash, n: nat, d: Hash)
    requires a in t.nodes && n <= |t.nodes[a].children|
    ensures d in ChildForest(t, a, n) <==> exists i :: 0 <= i < n && d in Subtree(t, t.nodes[a].children[i])
  {
    if n > 0 {
      ForestMember(t, a, n - 1, d);
    }
  }

  lemma SiblingsDisjoint(t: Tree, a: Hash, b: Hash, c: Hash)
    requires WellFormed(t) && IsParent(t, a, b) && IsParent(t, a, c) && b != c
    ensures Conflicting(t, b, c) && Subtree(t, b) !! Subtree(t, c)
  {
    if Below(t, b, c) {
      BelowHeight(t, b, c);
    }
    if Below(t, c, b) {
      BelowHeight(t, c, b);
    }
    ConflictingDisjoint(t, b, c);
  }

  lemma ForestStep(t: Tree, a: Hash, n: nat)
    requires WellFormed(t) && a in t.nodes && n < |t.nodes[a].children|
    ensures var c := t.nodes[a].children[n];
      IsParent(t, a, c) && ChildForest(t, a, n) !! Subtree(t, c) && a !in Subtree(t, c)
  {
    var c := t.nodes[a].children[n];
    assert c in t.nodes[a].children;
    if a in Subtree(t, c) {
      BelowHeight(t, a, c);
    }
    forall d | d in ChildForest(t, a, n) && d in Subtree(t, c) ensures false {
      ForestMember(t, a, n, d);
      var i :| 0 <= i < n && d in Subtree(t, t.nodes[a].children[i]);
      assert t.nodes[a].children[i] in t.nodes[a].children;
      SiblingsDisjoint(t, a, t.nodes[a].children[i], c);
    }
  }

  lemma SubtreeSplit(t: Tree, a: Hash)
    requires WellFormed(t) && a in t.nodes
    ensures Subtree(t, a) == {a} + ChildForest(t, a, |t.nodes[a].children|)
    ensures a !in ChildForest(t, a, |t.nodes[a].children|)
  {
    var cs := t.nodes[a].children;
    forall d ensures d in Subtree(t, a) <==> d == a || d in ChildForest(t, a, |cs|) {
      ForestMember(t, a, |cs|, d);
      if d in Subtree(t, a) && d != a {
        var c := ChildTowards(t, d, a);
        var i :| 0 <= i < |cs| && cs[i] == c;
        assert d in Subtree(t, cs[i]);
      }
      if d in ChildForest(t, a, |cs|) {
        var i :| 0 <= i < |cs| && d in Subtree(t, cs[i]);
        assert cs[i] in cs;
        ChildBelow(t, a, cs[i]);
        BelowTransitive(t, d, cs[i], a);
      }
    }
    ForestMember(t, a, |cs|, a);
    if i :| 0 <= i < |cs| && a in Subtree(t, cs[i]) {
      ForestStep(t, a, i);
    }
  }

  // ---------- growing trees ----------

  /** Every block of s is in t with the same parent, height and slot. */
  ghost predicate PartOf(s: Tree, t: Tree) {
    forall d :: d in s.nodes ==>
      && d in t.nodes && s.nodes[d].parent == t.nodes[d].parent
      && s.nodes[d].height == t.nodes[d].height && s.nodes[d].slot == t.nodes[d].slot
  }

  /** Ancestry between blocks of the smaller tree is the same in both. */
  lemma {:induction false} PartBelow(s: Tree, t: Tree, d: Hash, a: Hash)
    requires PartOf(s, t) && WellFormed(s) && d in s.nodes
    ensures Below(s, d, a) <==> Below(t, d, a)
    decreases s.nodes[d].height
  {
    if d != a && s.nodes[d].parent.Some? {
      var p := s.nodes[d].parent.value;
      assert IsParent(s, p, d);
      assert p in t.nodes;
      PartBelow(s, t, p, a);
    }
  }

  lemma PartSubtree(s: Tree, t: Tree, a: Hash)
    requires PartOf(s, t) && WellFormed(s)
    ensures Subtree(s, a) <= Subtree(t, a)
  {
    forall d | d in Subtree(s, a) ensures d in Subtree(t, a) {
      PartBelow(s, t, d, a);
    }
  }

  /** A root with two children. */
  function Fork(): Tree {
    Tree(0, map[0 := Node(None, [1, 2], 0, 0), 1 := Node(Some(0), [], 1, 1), 2 := Node(Some(0), [], 1, 1)])
  }

  lemma ForkShape()
    ensures WellFormed(Fork()) && Conflicting(Fork(), 1, 2)
    ensures Subtree(Fork(), 1) == {1} && Subtree(Fork(), 2) == {2}
  {
    var t := Fork();
    assert t.nodes[0].children[0] == 1 && t.nodes[0].children[1] == 2;
    assert Below(t, 0, 1) == false && Below(t, 0, 2) == false;
    assert Below(t, 1, 1) && !Below(t, 2, 1) && Below(t, 2, 2) && !Below(t, 1, 2);
  }
}
