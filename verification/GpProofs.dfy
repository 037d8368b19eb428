/**
 Merkle paths of the trie: the walkers that collect siblings, the conversions between
 the two proof formats, and what an accepted proof shows.
 */
module GpProofs {
  import opened Options
  import opened GpTree
  import opened GpRoots

  /** A level of a path proof: the node walked to, its sibling, and which child it is. */
  datatype ProofNode = ProofNode(node: Digest, sibling: Digest, isRightChild: bool)

  /** A level of an exported Merkle proof. */
  datatype PathNode = PathNode(hash: Digest, left: bool)

  // ---------- walking ----------

  function Reached(n: Node, key: KeyPath, depth: nat): Node {
    match n
    case Branch(l, r) => Reached(if Bit(key, depth) then r else l, key, depth + 1)
    case _ => n
  }

  function Step(hash: Hasher, n: Node, right: bool): ProofNode
    requires n.Branch?
  {
    if right then ProofNode(HashOf(hash, n.right), HashOf(hash, n.left), true)
    else ProofNode(HashOf(hash, n.left), HashOf(hash, n.right), false)
  }

  function Path(hash: Hasher, n: Node, key: KeyPath, depth: nat): seq<ProofNode> {
    match n
    case Branch(l, r) =>
      var right := Bit(key, depth);
      [Step(hash, n, right)] + Path(hash, if right then r else l, key, depth + 1)
    case _ => []
  }

  /** Both session walkers run this loop. */
  method GenerateProofForKey(hash: Hasher, tree: Node, key: KeyPath) returns (path: seq<ProofNode>)
    ensures path == Path(hash, tree, key, 0)
  {
    path := [];
    var current, depth := tree, 0;
    while current.Branch?
      invariant path + Path(hash, current, key, depth) == Path(hash, tree, key, 0)
      decreases current
    {
      var bit := Bit(key, depth);
      path := path + [Step(hash, current, bit)];
      current := if bit then current.right else current.left;
      depth := depth + 1;
    }
  }

  function ConvertNode(p: ProofNode): PathNode {
    PathNode(p.sibling, !p.isRightChild)
  }

  function Convert(nodes: seq<ProofNode>): seq<PathNode> {
    if nodes == [] then [] else [ConvertNode(nodes[0])] + Convert(nodes[1..])
  }

  function ConvertBackNode(p: PathNode): ProofNode {
    ProofNode(p.hash, p.hash, !p.left)
  }

  function ConvertBack(nodes: seq<PathNode>): seq<ProofNode> {
    if nodes == [] then [] else [ConvertBackNode(nodes[0])] + ConvertBack(nodes[1..])
  }

  /** The database walker collects the same path, already in the exported format. */
  method GenerateBMTProofPath(hash: Hasher, tree: Node, key: KeyPath) returns (path: seq<PathNode>)
    ensures path == Convert(Path(hash, tree, key, 0))
  {
    path := [];
    var current, depth := tree, 0;
    while current.Branch?
      invariant path + Convert(Path(hash, current, key, depth)) == Convert(Path(hash, tree, key, 0))
      decreases current
    {
      var bit := Bit(key, depth);
      var sibling := HashOf(hash, if bit then current.left else current.right);
      WalkStep(hash, current, key, depth);
      ghost var whole := path + Convert(Path(hash, current, key, depth));
      current := if bit then current.right else current.left;
      Regroup(path, PathNode(sibling, !bit), Convert(Path(hash, current, key, depth + 1)));
      path := path + [PathNode(sibling, !bit)];
      depth := depth + 1;
      assert path + Convert(Path(hash, current, key, depth)) == whole;
    }
  }

  lemma Regroup<T>(a: seq<T>, x: T, b: seq<T>)
    ensures a + ([x] + b) == a + [x] + b
  {
  }

  lemma WalkStep(hash: Hasher, n: Node, key: KeyPath, depth: nat)
    requires n.Branch?
    ensures var bit := Bit(key, depth);
      Convert(Path(hash, n, key, depth)) ==
      [PathNode(HashOf(hash, if bit then n.left else n.right), !bit)]
      + Convert(Path(hash, if bit then n.right else n.left, key, depth + 1))
  {
    var child := if Bit(key, depth) then n.right else n.left;
    assert Path(hash, n, key, depth)[1..] == Path(hash, child, key, depth + 1);
  }

  method ConvertProofNodes(nodes: seq<ProofNode>) returns (r: seq<PathNode>)
    ensures r == Convert(nodes)
  {
    r := [];
    for i := 0 to |nodes|
      invariant r + Convert(nodes[i..]) == Convert(nodes)
    {
      assert nodes[i..][1..] == nodes[i + 1..];
      r := r + [ConvertNode(nodes[i])];
    }
  }

  method ConvertToProofNodes(nodes: seq<PathNode>) returns (r: seq<ProofNode>)
    ensures r == ConvertBack(nodes)
  {
    r := [];
    for i := 0 to |nodes|
      invariant r + ConvertBack(nodes[i..]) == ConvertBack(nodes)
    {
      assert nodes[i..][1..] == nodes[i + 1..];
      r := r + [ConvertBackNode(nodes[i])];
    }
  }

  // ---------- folding ----------

  function Parent(p: ProofNode, current: Digest): Bytes {
    if p.isRightChild then EncodeBranch(p.sibling, current) else EncodeBranch(current, p.sibling)
  }

  /** Hashes up from the bottom of the path. */
  function Fold(hash: Hasher, start: Digest, path: seq<ProofNode>): Digest {
    if path == [] then start else hash(Parent(path[0], Fold(hash, start, path[1..])))
  }

  /** The bottom of a proof: the leaf for a value, the terminator for none. */
  function Bottom(hash: Hasher, key: KeyPath, value: Option<Bytes>): Digest {
    if value.Some? then HashOf(hash, Leaf(KV(key, value.value))) else Terminator()
  }

  predicate Verifies(hash: Hasher, key: KeyPath, value: Option<Bytes>, path: seq<ProofNode>, root: Digest) {
    Fold(hash, Bottom(hash, key, value), path) == root
  }

  method Verify(hash: Hasher, key: KeyPath, value: Option<Bytes>, path: seq<ProofNode>, root: Digest) returns (ok: bool)
    ensures ok == Verifies(hash, key, value, path, root)
  {
    var start := Bottom(hash, key, value);
    var current := start;
    var i := |path|;
    assert path[i..] == [];
    while i > 0
      invariant 0 <= i <= |path|
      invariant current == Fold(hash, start, path[i..])
    {
      i := i - 1;
      assert path[i..][1..] == path[i + 1..];
      current := hash(Parent(path[i], current));
    }
    assert path[0..] == path;
    return current == root;
  }

  /** Folding the collected siblings from the reached node gives the root. */
  lemma {:induction false} FoldReached(hash: Hasher, n: Node, key: KeyPath, depth: nat)
    ensures Fold(hash, HashOf(hash, Reached(n, key, depth)), Path(hash, n, key, depth)) == HashOf(hash, n)
    decreases n
  {
    if n.Branch? {
      var child := if Bit(key, depth) then n.right else n.left;
      FoldReached(hash, child, key, depth + 1);
      assert Path(hash, n, key, depth)[1..] == Path(hash, child, key, depth + 1);
    }
  }

  /** The round trip through the exported format keeps sibling and direction at every level. */
  lemma {:induction false} ConversionKeepsFold(hash: Hasher, start: Digest, path: seq<ProofNode>)
    ensures |ConvertBack(Convert(path))| == |path|
    ensures forall i :: 0 <= i < |path| ==>
      && ConvertBack(Convert(path))[i].sibling == path[i].sibling
      && ConvertBack(Convert(path))[i].isRightChild == path[i].isRightChild
    ensures Fold(hash, start, ConvertBack(Convert(path))) == Fold(hash, start, path)
  {
    if path != [] {
      ConversionKeepsFold(hash, start, path[1..]);
      assert Convert(path)[1..] == Convert(path[1..]);
      var back := ConvertBack(Convert(path));
      assert back[1..] == ConvertBack(Convert(path[1..]));
      forall i | 0 < i < |path| ensures back[i] == back[1..][i - 1] && path[i] == path[1..][i - 1] {
      }
    }
  }

  ghost function FoldPreimages(hash: Hasher, start: Digest, path: seq<ProofNode>): set<Bytes> {
    if path == [] then {}
    else {Parent(path[0], Fold(hash, start, path[1..]))} + FoldPreimages(hash, start, path[1..])
  }

  /** A right digest is encoded whole, a left one without its top bit. */
  predicate SameSide(right: bool, x: Digest, y: Digest) {
    if right then x == y else Masked(x) == Masked(y)
  }

  lemma ParentBinds(p: ProofNode, x: Digest, q: ProofNode, y: Digest)
    requires p.isRightChild == q.isRightChild && Parent(p, x) == Parent(q, y)
    ensures SameSide(p.isRightChild, x, y) && SameSide(!p.isRightChild, p.sibling, q.sibling)
  {
    if p.isRightChild {
      SamePrefix(Masked(p.sibling), x, Masked(q.sibling), y);
    } else {
      SamePrefix(Masked(x), p.sibling, Masked(y), q.sibling);
    }
  }

  /**
   The same directions and the same root force the same bottom and the same siblings:
   exactly on the right side, up to the top bit on the left side.
   */
  lemma {:induction false} FoldBinds(hash: Hasher, x: Digest, p: seq<ProofNode>, y: Digest, q: seq<ProofNode>)
    requires |p| == |q| && forall i :: 0 <= i < |p| ==> p[i].isRightChild == q[i].isRightChild
    requires CollisionFree(hash, FoldPreimages(hash, x, p) + FoldPreimages(hash, y, q))
    requires Masked(Fold(hash, x, p)) == Masked(Fold(hash, y, q))
    ensures Masked(x) == Masked(y) && (p != [] ==> SameSide(p[|p| - 1].isRightChild, x, y))
    ensures forall i :: 0 <= i < |p| ==> SameSide(!p[i].isRightChild, p[i].sibling, q[i].sibling)
    decreases |p|
  {
    if p != [] {
      var x', y' := Fold(hash, x, p[1..]), Fold(hash, y, q[1..]);
      assert Parent(p[0], x') == Parent(q[0], y');
      ParentBinds(p[0], x', q[0], y');
      FoldBinds(hash, x, p[1..], y, q[1..]);
      forall i | 0 <= i < |p| ensures SameSide(!p[i].isRightChild, p[i].sibling, q[i].sibling) {
        if i > 0 {
          assert p[i] == p[1..][i - 1] && q[i] == q[1..][i - 1];
        }
      }
      assert |p| > 1 ==> p[|p| - 1] == p[1..][|p| - 2];
    }
  }

  // ---------- what proofs show ----------

  /** Walking by a key's bits ends at its own leaf if the key is present, else elsewhere. */
  lemma {:induction false} ReachedFinds(kvs: seq<KV>, depth: nat, key: KeyPath)
    requires Buildable(kvs, depth)
    ensures var n := Reached(Build(kvs, depth), key, depth);
      && (forall v :: KV(key, v) in kvs ==> n == Leaf(KV(key, v)))
      && (n.Leaf? ==> n.kv in kvs)
      && !n.Branch?
    decreases 256 - depth
  {
    if |kvs| >= 2 {
      DepthBound(kvs, depth);
      SideBuildable(kvs, depth, false);
      SideBuildable(kvs, depth, true);
      SideMembers(kvs, depth, Bit(key, depth));
      ReachedFinds(Side(kvs, depth, Bit(key, depth)), depth + 1, key);
    }
  }

  /**
   A value fits the node its key leads to: no value and an empty subtrie, or the value of
   the leaf there, whose key has the same first 31 bytes.
   */
  predicate Fits(n: Node, key: KeyPath, value: Option<Bytes>) {
    var end := Reached(n, key, 0);
    if value.None? then end.Empty?
    else end.Leaf? && end.kv.value == value.value && end.kv.key[..31] == key[..31]
  }

  /** The node whose digest a proof starts from. */
  function Start(key: KeyPath, value: Option<Bytes>): Node {
    if value.Some? then Leaf(KV(key, value.value)) else Empty
  }

  /** Everything hashed at the end of the key's path and when its proof is checked. */
  ghost function ProofPreimages(hash: Hasher, n: Node, key: KeyPath, value: Option<Bytes>): set<Bytes> {
    var path := Path(hash, n, key, 0);
    Preimages(hash, Reached(n, key, 0)) + Preimages(hash, Start(key, value))
    + FoldPreimages(hash, HashOf(hash, Reached(n, key, 0)), path)
    + FoldPreimages(hash, Bottom(hash, key, value), path)
  }

  lemma {:induction false} ReachedIsEnd(n: Node, key: KeyPath, depth: nat)
    ensures !Reached(n, key, depth).Branch?
    decreases n
  {
    match n
    case Branch(l, r) => ReachedIsEnd(if Bit(key, depth) then r else l, key, depth + 1);
    case _ =>
  }

  lemma FittingProofVerifies(hash: Hasher, n: Node, key: KeyPath, value: Option<Bytes>)
    requires Fits(n, key, value)
    ensures Verifies(hash, key, value, Path(hash, n, key, 0), HashOf(hash, n))
  {
    FoldReached(hash, n, key, 0);
    assert HashOf(hash, Start(key, value)) == HashOf(hash, Reached(n, key, 0));
  }

  lemma BottomsAgree(hash: Hasher, start: Node, end: Node, path: seq<ProofNode>, all: set<Bytes>)
    requires Preimages(hash, start) + Preimages(hash, end) <= all && CollisionFree(hash, all)
    requires FoldPreimages(hash, HashOf(hash, start), path) + FoldPreimages(hash, HashOf(hash, end), path) <= all
    requires Fold(hash, HashOf(hash, start), path) == Fold(hash, HashOf(hash, end), path)
    ensures Truncate(start) == Truncate(end)
  {
    FewerPreimages(hash, FoldPreimages(hash, HashOf(hash, start), path) + FoldPreimages(hash, HashOf(hash, end), path), all);
    FoldBinds(hash, HashOf(hash, start), path, HashOf(hash, end), path);
    FewerPreimages(hash, Preimages(hash, start) + Preimages(hash, end), all);
    HashBinds(hash, start, end);
  }

  /**
   Which generated proofs verify, for every trie, key and attached value: exactly those
   whose value fits the node at the end of the path.
   */
  lemma GeneratedProofVerifies(hash: Hasher, n: Node, key: KeyPath, value: Option<Bytes>)
    requires CollisionFree(hash, ProofPreimages(hash, n, key, value))
    ensures Verifies(hash, key, value, Path(hash, n, key, 0), HashOf(hash, n)) <==> Fits(n, key, value)
  {
    if Fits(n, key, value) {
      FittingProofVerifies(hash, n, key, value);
    } else if Verifies(hash, key, value, Path(hash, n, key, 0), HashOf(hash, n)) {
      FoldReached(hash, n, key, 0);
      ReachedIsEnd(n, key, 0);
      BottomsAgree(hash, Start(key, value), Reached(n, key, 0), Path(hash, n, key, 0), ProofPreimages(hash, n, key, value));
      TruncatedFits(n, key, value);
    }
  }

  lemma TruncatedFits(n: Node, key: KeyPath, value: Option<Bytes>)
    requires Truncate(Start(key, value)) == Truncate(Reached(n, key, 0)) && !Reached(n, key, 0).Branch?
    ensures Fits(n, key, value)
  {
    var end := Reached(n, key, 0);
    if value.Some? {
      SamePrefix(end.kv.key[..31], [0], key[..31], [0]);
    }
  }

  /** A proof with the value the trie has for the key is accepted whenever the key is present. */
  lemma PresentKeyVerifies(hash: Hasher, kvs: seq<KV>, kv: KV)
    requires DistinctKeys(kvs) && Buildable(kvs, 0) && kv in kvs
    ensures Verifies(hash, kv.key, Some(kv.value), Path(hash, Build(kvs, 0), kv.key, 0), RootOf(hash, kvs))
  {
    ReachedFinds(kvs, 0, kv.key);
    FoldReached(hash, Build(kvs, 0), kv.key, 0);
    assert kv == KV(kv.key, kv.value);
  }

  /** A one-leaf trie: the proof that another key is absent ends at that leaf and is refused. */
  lemma AbsentKeyRefused(hash: Hasher, kv: KV, other: KeyPath)
    requires other != kv.key && CollisionFree(hash, Preimages(hash, Leaf(kv)))
    ensures !Verifies(hash, other, None, Path(hash, Leaf(kv), other, 0), HashOf(hash, Leaf(kv)))
  {
    MaskedTerminator();
    assert EncodeLeaf(hash, kv) in Preimages(hash, Leaf(kv));
  }

  /**
   Inclusion proofs are sound whatever path they come with: an accepted one means the
   trie has a leaf with that value and the same first 31 key bytes.
   */
  lemma {:induction false} InclusionSound(hash: Hasher, n: Node, leaf: KV, path: seq<ProofNode>)
    requires CollisionFree(hash,
      Preimages(hash, n) + Preimages(hash, Leaf(leaf)) + FoldPreimages(hash, HashOf(hash, Leaf(leaf)), path))
    requires Masked(Fold(hash, HashOf(hash, Leaf(leaf)), path)) == Masked(HashOf(hash, n))
    ensures exists kv :: kv in Leaves(n) && kv.key[..31] == leaf.key[..31] && kv.value == leaf.value
    decreases |path|
  {
    var start := HashOf(hash, Leaf(leaf));
    MaskedTerminator();
    if path == [] {
      HashBinds(hash, Leaf(leaf), n);
      match n
      case Leaf(kv) =>
        assert kv.key[..31] + [0] == leaf.key[..31] + [0];
        SamePrefix(kv.key[..31], [0], leaf.key[..31], [0]);
        assert kv in Leaves(n);
    } else {
      var below := Fold(hash, start, path[1..]);
      match n
      case Empty =>
      case Leaf(kv) =>
        ParentIsNotLeaf(hash, path[0], below, kv);
      case Branch(l, r) =>
        BranchOfParent(hash, path[0], below, l, r);
        InclusionSound(hash, if path[0].isRightChild then r else l, leaf, path[1..]);
    }
  }

  lemma ParentIsNotLeaf(hash: Hasher, p: ProofNode, below: Digest, kv: KV)
    ensures Parent(p, below) != EncodeLeaf(hash, kv)
  {
    if p.isRightChild {
      LeafIsNotBranch(hash, kv, p.sibling, below);
    } else {
      LeafIsNotBranch(hash, kv, below, p.sibling);
    }
  }

  lemma BranchOfParent(hash: Hasher, p: ProofNode, below: Digest, l: Node, r: Node)
    requires Parent(p, below) == EncodeBranch(HashOf(hash, l), HashOf(hash, r))
    ensures Masked(below) == Masked(HashOf(hash, if p.isRightChild then r else l))
  {
    if p.isRightChild {
      SamePrefix(Masked(p.sibling), below, Masked(HashOf(hash, l)), HashOf(hash, r));
    } else {
      SamePrefix(Masked(below), p.sibling, Masked(HashOf(hash, l)), HashOf(hash, r));
    }
  }

  // ---------- what an exclusion proof shows ----------

  /** Somewhere the trie has an empty subtrie. */
  predicate HasEmpty(n: Node) {
    match n
    case Empty => true
    case Leaf(_) => false
    case Branch(l, r) => HasEmpty(l) || HasEmpty(r)
  }

  /** The path to an empty subtrie. */
  function EmptyPath(hash: Hasher, n: Node): seq<ProofNode>
    requires HasEmpty(n)
  {
    match n
    case Empty => []
    case Branch(l, r) =>
      if HasEmpty(r) then [Step(hash, n, true)] + EmptyPath(hash, r) else [Step(hash, n, false)] + EmptyPath(hash, l)
  }

  lemma {:induction false} EmptyPathFolds(hash: Hasher, n: Node)
    requires HasEmpty(n)
    ensures Fold(hash, Terminator(), EmptyPath(hash, n)) == HashOf(hash, n)
    ensures FoldPreimages(hash, Terminator(), EmptyPath(hash, n)) <= Preimages(hash, n)
    decreases n
  {
    if n.Branch? {
      var child := if HasEmpty(n.right) then n.right else n.left;
      EmptyPathFolds(hash, child);
      assert EmptyPath(hash, n)[1..] == EmptyPath(hash, child);
    }
  }

  lemma {:induction false} ExclusionNeedsEmpty(hash: Hasher, n: Node, path: seq<ProofNode>)
    requires CollisionFree(hash, Preimages(hash, n) + FoldPreimages(hash, Terminator(), path))
    requires Masked(Fold(hash, Terminator(), path)) == Masked(HashOf(hash, n))
    ensures HasEmpty(n)
    decreases |path|
  {
    MaskedTerminator();
    match n
    case Empty =>
    case Leaf(kv) =>
      assert EncodeLeaf(hash, kv) in Preimages(hash, n);
      if path != [] {
        ParentIsNotLeaf(hash, path[0], Fold(hash, Terminator(), path[1..]), kv);
      }
    case Branch(l, r) =>
      assert EncodeBranch(HashOf(hash, l), HashOf(hash, r)) in Preimages(hash, n);
      if path != [] {
        BranchOfParent(hash, path[0], Fold(hash, Terminator(), path[1..]), l, r);
        ExclusionNeedsEmpty(hash, if path[0].isRightChild then r else l, path[1..]);
      }
  }

  /** The path is accepted as a proof that the key is absent, and hashing it makes no collision. */
  ghost predicate ProvesAbsent(hash: Hasher, n: Node, key: KeyPath, path: seq<ProofNode>) {
    && CollisionFree(hash, Preimages(hash, n) + FoldPreimages(hash, Terminator(), path))
    && Verifies(hash, key, None, path, HashOf(hash, n))
  }

  /**
   An exclusion proof does not look at the key: one is accepted, for a present key as for
   an absent one, exactly if the trie has an empty subtrie.
   */
  lemma ExclusionIgnoresKey(hash: Hasher, n: Node, key: KeyPath)
    requires CollisionFree(hash, Preimages(hash, n))
    ensures (exists path :: ProvesAbsent(hash, n, key, path)) <==> HasEmpty(n)
  {
    if HasEmpty(n) {
      EmptyPathFolds(hash, n);
      var path := EmptyPath(hash, n);
      assert Preimages(hash, n) + FoldPreimages(hash, Terminator(), path) == Preimages(hash, n);
      assert ProvesAbsent(hash, n, key, path);
    } else if path :| ProvesAbsent(hash, n, key, path) {
      ExclusionNeedsEmpty(hash, n, path);
    }
  }

  /** Two keys that start with a one: the first is present and an exclusion proof for it is accepted. */
  lemma PresentKeyExcluded(hash: Hasher, a: KV, b: KV)
    requires a.key != b.key && Bit(a.key, 0) && Bit(b.key, 0)
    ensures a in [a, b] && exists path :: Verifies(hash, a.key, None, path, RootOf(hash, [a, b]))
  {
    var kvs := [a, b];
    WholeList(kvs);
    assert kvs[..1] == [a] && [a][..0] == [];
    assert Side(kvs, 0, false) == Side([a], 0, false) == Side([], 0, false);
    EmptyPathFolds(hash, Build(kvs, 0));
    assert Verifies(hash, a.key, None, EmptyPath(hash, Build(kvs, 0)), RootOf(hash, kvs));
  }
}
