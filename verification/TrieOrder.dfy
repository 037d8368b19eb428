/**
 The order of the trie: bits are read most significant first, so the trie holds its keys in
 byte order from left to right.
 */
module TrieOrder {
  import opened Options
  import opened GpTree
  import opened KeyOrder

  // ---------- bits and bytes ----------

  lemma {:induction false} ShrMonotone(a: nat, b: nat, n: nat)
    requires a <= b
    ensures Shr(a, n) <= Shr(b, n)
  {
    if n > 0 {
      ShrMonotone(a, b, n - 1);
    }
  }

  /** Bytes with the same first bits are the same once the later ones are shifted out. */
  lemma {:induction false} SameHighBits(a: Byte, b: Byte, r: nat)
    requires r <= 8 && forall i: nat :: i < r ==> ByteBit(a, i) == ByteBit(b, i)
    ensures Shr(a, 8 - r) == Shr(b, 8 - r)
    decreases r
  {
    if r == 0 {
      ShiftedOut(a);
      ShiftedOut(b);
    } else {
      SameHighBits(a, b, r - 1);
      assert ByteBit(a, r - 1) == ByteBit(b, r - 1);
    }
  }

  /** The first bit in which two bytes differ decides which is less. */
  lemma FirstBitDecides(a: Byte, b: Byte, r: nat)
    requires r < 8 && !ByteBit(a, r) && ByteBit(b, r)
    requires forall i: nat :: i < r ==> ByteBit(a, i) == ByteBit(b, i)
    ensures a < b
  {
    SameHighBits(a, b, r);
    if b <= a {
      ShrMonotone(b, a, 7 - r);
    }
  }

  // ---------- bits and keys ----------

  lemma BitAt(key: KeyPath, j: nat, r: nat)
    requires j < 32 && r < 8
    ensures Bit(key, 8 * j + r) == ByteBit(key[j], r)
  {
    assert (8 * j + r) / 8 == j && (8 * j + r) % 8 == r;
  }

  lemma SameByte(a: KeyPath, b: KeyPath, depth: nat, j: nat)
    requires AgreeTo(a, b, depth) && 8 * j + 8 <= depth <= 256
    ensures a[j] == b[j]
  {
    forall r: nat | r < 8 ensures ByteBit(a[j], r) == ByteBit(b[j], r) {
      BitAt(a, j, r);
      BitAt(b, j, r);
      assert Bit(a, 8 * j + r) == Bit(b, 8 * j + r);
    }
    ByteFromBits(a[j], b[j], 0);
  }

  /** The first bit in which two keys differ decides their byte order. */
  lemma BitDecides(a: KeyPath, b: KeyPath, depth: nat)
    requires depth < 256 && AgreeTo(a, b, depth) && !Bit(a, depth) && Bit(b, depth)
    ensures Less(a, b)
  {
    var j, r := depth / 8, depth % 8;
    forall i | 0 <= i < j ensures a[..j][i] == b[..j][i] {
      SameByte(a, b, depth, i);
    }
    forall i: nat | i < r ensures ByteBit(a[j], i) == ByteBit(b[j], i) {
      BitAt(a, j, i);
      BitAt(b, j, i);
      assert Bit(a, 8 * j + i) == Bit(b, 8 * j + i);
    }
    FirstBitDecides(a[j], b[j], r);
    LessAt(a, b, j);
  }

  // ---------- the trie ----------

  /** Every key on the left of a branch is less than every key on its right. */
  lemma LeftBeforeRight(kvs: seq<KV>, depth: nat, x: KV, y: KV)
    requires Buildable(kvs, depth) && Build(kvs, depth).Branch?
    requires x in Leaves(Build(kvs, depth).left) && y in Leaves(Build(kvs, depth).right)
    ensures Less(x.key, y.key)
  {
    DepthBound(kvs, depth);
    SideBuildable(kvs, depth, false);
    SideBuildable(kvs, depth, true);
    LeavesOfBuild(Side(kvs, depth, false), depth + 1);
    LeavesOfBuild(Side(kvs, depth, true), depth + 1);
    SideMembers(kvs, depth, false);
    SideMembers(kvs, depth, true);
    BitDecides(x.key, y.key, depth);
  }

  /** The leaves from left to right. */
  function InOrder(n: Node): seq<KV> {
    match n
    case Empty => []
    case Leaf(kv) => [kv]
    case Branch(l, r) => InOrder(l) + InOrder(r)
  }

  lemma {:induction false} InOrderLeaves(n: Node)
    ensures Contents(InOrder(n)) == Leaves(n)
  {
    match n
    case Empty =>
    case Leaf(_) =>
    case Branch(l, r) =>
      InOrderLeaves(l);
      InOrderLeaves(r);
  }

  lemma SortedConcat(a: seq<KV>, b: seq<KV>)
    requires SortedByKey(a) && SortedByKey(b)
    requires forall x, y :: x in a && y in b ==> Less(x.key, y.key)
    ensures SortedByKey(a + b)
  {
  }

  /** Whatever the order of the input, the trie read from left to right is its sorted list. */
  lemma {:induction false} TrieIsSorted(kvs: seq<KV>, depth: nat)
    requires Buildable(kvs, depth)
    ensures SortedByKey(InOrder(Build(kvs, depth))) && Contents(InOrder(Build(kvs, depth))) == Contents(kvs)
    decreases 256 - depth
  {
    LeavesOfBuild(kvs, depth);
    InOrderLeaves(Build(kvs, depth));
    if |kvs| >= 2 {
      DepthBound(kvs, depth);
      SideBuildable(kvs, depth, false);
      SideBuildable(kvs, depth, true);
      TrieIsSorted(Side(kvs, depth, false), depth + 1);
      TrieIsSorted(Side(kvs, depth, true), depth + 1);
      var n := Build(kvs, depth);
      forall x, y | x in InOrder(n.left) && y in InOrder(n.right) ensures Less(x.key, y.key) {
        InOrderLeaves(n.left);
        InOrderLeaves(n.right);
        assert x in Contents(InOrder(n.left)) && y in Contents(InOrder(n.right));
        LeftBeforeRight(kvs, depth, x, y);
      }
      SortedConcat(InOrder(n.left), InOrder(n.right));
    }
  }

  /** The node that the first bits of a key lead to; none if the way ends before. */
  function Descend(n: Node, key: KeyPath, depth: nat, steps: nat): Option<Node>
    decreases steps
  {
    if steps == 0 then Some(n)
    else if n.Branch? then Descend(if Bit(key, depth) then n.right else n.left, key, depth + 1, steps - 1)
    else None
  }

  predicate AgreeBetween(a: KeyPath, b: KeyPath, from: nat, to: nat) {
    forall i: nat :: from <= i < to ==> Bit(a, i) == Bit(b, i)
  }

  /** The pairs whose keys have these bits of the key. */
  ghost function Sharing(kvs: seq<KV>, key: KeyPath, from: nat, to: nat): set<KV> {
    set kv | kv in kvs && AgreeBetween(kv.key, key, from, to)
  }

  lemma SharingSide(kvs: seq<KV>, key: KeyPath, depth: nat, to: nat)
    requires depth < to
    ensures Sharing(Side(kvs, depth, Bit(key, depth)), key, depth + 1, to) == Sharing(kvs, key, depth, to)
  {
    SideMembers(kvs, depth, Bit(key, depth));
    forall kv: KV ensures AgreeBetween(kv.key, key, depth, to)
      <==> Bit(kv.key, depth) == Bit(key, depth) && AgreeBetween(kv.key, key, depth + 1, to)
    {
    }
  }

  lemma SharingAll(kvs: seq<KV>, key: KeyPath, depth: nat)
    ensures Sharing(kvs, key, depth, depth) == Contents(kvs)
  {
  }

  /** A node on the way of a key holds exactly the pairs that share the bits so far. */
  lemma {:induction false} NodeHoldsPrefix(kvs: seq<KV>, depth: nat, key: KeyPath, steps: nat)
    requires Buildable(kvs, depth)
    ensures var n := Descend(Build(kvs, depth), key, depth, steps);
      n.Some? ==> Leaves(n.value) == Sharing(kvs, key, depth, depth + steps)
    decreases steps
  {
    hide Sharing, Bit, Side, Buildable;
    if steps == 0 {
      LeavesOfBuild(kvs, depth);
      SharingAll(kvs, key, depth);
    } else if |kvs| >= 2 {
      DepthBound(kvs, depth);
      SideBuildable(kvs, depth, Bit(key, depth));
      SharingSide(kvs, key, depth, depth + steps);
      NodeHoldsPrefix(Side(kvs, depth, Bit(key, depth)), depth + 1, key, steps - 1);
    }
  }

  lemma BuildBranches(kvs: seq<KV>, depth: nat)
    requires Buildable(kvs, depth) && |kvs| >= 2
    ensures forall right :: Buildable(Side(kvs, depth, right), depth + 1)
    ensures Build(kvs, depth) == Branch(Build(Side(kvs, depth, false), depth + 1), Build(Side(kvs, depth, true), depth + 1))
  {
    DepthBound(kvs, depth);
    SideBuildable(kvs, depth, false);
    SideBuildable(kvs, depth, true);
  }

  lemma DescendNone(n: Node, key: KeyPath, depth: nat)
    ensures Descend(n, key, depth, 0) == Some(n)
  {
  }

  lemma DescendStep(n: Node, key: KeyPath, depth: nat, steps: nat)
    requires n.Branch? && steps > 0
    ensures Descend(n, key, depth, steps)
      == Descend(if Bit(key, depth) then n.right else n.left, key, depth + 1, steps - 1)
  {
  }

  lemma TwoShare(kvs: seq<KV>, key: KeyPath, from: nat, to: nat, x: KV, y: KV)
    requires x in Sharing(kvs, key, from, to) && y in Sharing(kvs, key, from, to) && x != y
    ensures |kvs| >= 2
  {
    assert x in kvs && y in kvs;
  }

  /** The way goes on through branches as long as two pairs share its bits: no level is skipped. */
  lemma {:induction false} WayGoesOn(kvs: seq<KV>, depth: nat, key: KeyPath, steps: nat, x: KV, y: KV)
    requires Buildable(kvs, depth) && x != y
    requires x in Sharing(kvs, key, depth, depth + steps) && y in Sharing(kvs, key, depth, depth + steps)
    ensures var n := Descend(Build(kvs, depth), key, depth, steps); n.Some? && n.value.Branch?
    decreases steps
  {
    hide *;
    TwoShare(kvs, key, depth, depth + steps, x, y);
    BuildBranches(kvs, depth);
    if steps > 0 {
      var side := Side(kvs, depth, Bit(key, depth));
      SharingSide(kvs, key, depth, depth + steps);
      WayGoesOn(side, depth + 1, key, steps - 1, x, y);
      DescendStep(Build(kvs, depth), key, depth, steps);
    } else {
      DescendNone(Build(kvs, depth), key, depth);
    }
  }
}
