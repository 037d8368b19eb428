/**
 The binary Merkle trie over 32-byte keys: building it from key-value pairs, its root
 hash (Appendix D of the JAM Gray Paper), and how much of its contents the root fixes.
 The hash function is a parameter throughout.
 */
module GpTree {

  type Byte = b: int | 0 <= b < 256
  type Bytes = seq<Byte>
  type KeyPath = k: Bytes | |k| == 32 witness seq(32, _ => 0)
  type Digest = d: Bytes | |d| == 32 witness seq(32, _ => 0)
  type Hasher = Bytes -> Digest

  datatype KV = KV(key: KeyPath, value: Bytes)

  datatype Node = Empty | Leaf(kv: KV) | Branch(left: Node, right: Node)

  function Zeros(n: nat): (r: Bytes)
    ensures |r| == n && forall i :: 0 <= i < n ==> r[i] == 0
  {
    if n == 0 then [] else Zeros(n - 1) + [0]
  }

  /** The digest of an empty subtrie. */
  function Terminator(): Digest {
    Zeros(32)
  }

  // ---------- key bits ----------

  /** Right shift by n bits. */
  function Shr(b: nat, n: nat): nat {
    if n == 0 then b else Shr(b, n - 1) / 2
  }

  /** The r-th bit of a byte, most significant first: a mask test written as shift and parity. */
  function ByteBit(b: Byte, r: nat): bool
    requires r < 8
  {
    Shr(b, 7 - r) % 2 == 1
  }

  /** The i-th bit of a key; false past its end. */
  function Bit(key: Bytes, i: nat): bool {
    if i / 8 >= |key| then false else ByteBit(key[i / 8], i % 8)
  }

  lemma ShiftedOut(b: Byte)
    ensures Shr(b, 8) == 0
  {
    assert Shr(b, 1) < 128;
    assert Shr(b, 2) < 64;
    assert Shr(b, 3) < 32;
    assert Shr(b, 4) < 16;
    assert Shr(b, 5) < 8;
    assert Shr(b, 6) < 4;
    assert Shr(b, 7) < 2;
  }

  lemma {:induction false} ByteFromBits(a: Byte, b: Byte, n: nat)
    requires n <= 8 && forall r: nat :: r < 8 ==> ByteBit(a, r) == ByteBit(b, r)
    ensures Shr(a, n) == Shr(b, n)
    decreases 8 - n
  {
    if n == 8 {
      ShiftedOut(a);
      ShiftedOut(b);
    } else {
      ByteFromBits(a, b, n + 1);
      assert ByteBit(a, 7 - n) == ByteBit(b, 7 - n);
    }
  }

  predicate AgreeTo(a: KeyPath, b: KeyPath, depth: nat) {
    forall i: nat :: i < depth ==> Bit(a, i) == Bit(b, i)
  }

  lemma KeyFromBits(a: KeyPath, b: KeyPath)
    requires AgreeTo(a, b, 256)
    ensures a == b
  {
    forall j | 0 <= j < 32 ensures a[j] == b[j] {
      forall r: nat | r < 8 ensures ByteBit(a[j], r) == ByteBit(b[j], r) {
        var i := 8 * j + r;
        assert i / 8 == j && i % 8 == r;
        assert Bit(a, i) == Bit(b, i);
      }
      ByteFromBits(a[j], b[j], 0);
    }
  }

  // ---------- building the trie ----------

  predicate DistinctKeys(kvs: seq<KV>) {
    forall i, j :: 0 <= i < j < |kvs| ==> kvs[i].key != kvs[j].key
  }

  /** All pairs share the first depth bits of their keys. */
  predicate SharePrefix(kvs: seq<KV>, depth: nat) {
    forall x, y :: x in kvs && y in kvs ==> AgreeTo(x.key, y.key, depth)
  }

  /** The pairs whose key has the given bit at this depth, in order. */
  function Side(kvs: seq<KV>, depth: nat, right: bool): seq<KV> {
    if kvs == [] then []
    else
      var last := kvs[|kvs| - 1];
      Side(kvs[..|kvs| - 1], depth, right) + if Bit(last.key, depth) == right then [last] else []
  }

  lemma {:induction false} SideMembers(kvs: seq<KV>, depth: nat, right: bool)
    ensures forall kv :: kv in Side(kvs, depth, right) <==> kv in kvs && Bit(kv.key, depth) == right
    ensures DistinctKeys(kvs) ==> DistinctKeys(Side(kvs, depth, right))
  {
    if kvs != [] {
      var init, last := kvs[..|kvs| - 1], kvs[|kvs| - 1];
      SideMembers(init, depth, right);
      assert kvs == init + [last];
      if DistinctKeys(kvs) {
        LastIsNew(kvs);
      }
    }
  }

  lemma LastIsNew(kvs: seq<KV>)
    requires kvs != [] && DistinctKeys(kvs)
    ensures DistinctKeys(kvs[..|kvs| - 1])
    ensures forall kv :: kv in kvs[..|kvs| - 1] ==> kv.key != kvs[|kvs| - 1].key
  {
  }

  /** What the source needs of its input to terminate: no key occurs twice. */
  predicate Buildable(kvs: seq<KV>, depth: nat) {
    DistinctKeys(kvs) && SharePrefix(kvs, depth)
  }

  lemma SideBuildable(kvs: seq<KV>, depth: nat, right: bool)
    requires Buildable(kvs, depth)
    ensures Buildable(Side(kvs, depth, right), depth + 1)
  {
    var r := Side(kvs, depth, right);
    SideMembers(kvs, depth, right);
    forall x, y | x in r && y in r ensures AgreeTo(x.key, y.key, depth + 1) {
      assert AgreeTo(x.key, y.key, depth);
    }
  }

  lemma DepthBound(kvs: seq<KV>, depth: nat)
    requires Buildable(kvs, depth) && |kvs| >= 2
    ensures depth < 256
  {
    assert kvs[0] in kvs && kvs[1] in kvs;
    if depth >= 256 {
      assert AgreeTo(kvs[0].key, kvs[1].key, depth);
      KeyFromBits(kvs[0].key, kvs[1].key);
    }
  }

  function Build(kvs: seq<KV>, depth: nat): Node
    requires Buildable(kvs, depth)
    decreases 256 - depth
  {
    if |kvs| == 0 then Empty
    else if |kvs| == 1 then Leaf(kvs[0])
    else
      DepthBound(kvs, depth);
      SideBuildable(kvs, depth, false);
      SideBuildable(kvs, depth, true);
      Branch(Build(Side(kvs, depth, false), depth + 1), Build(Side(kvs, depth, true), depth + 1))
  }

  method BuildGpTree(kvs: seq<KV>, depth: nat) returns (n: Node)
    requires Buildable(kvs, depth)
    ensures n == Build(kvs, depth)
    decreases 256 - depth
  {
    if |kvs| == 0 {
      return Empty;
    }
    if |kvs| == 1 {
      return Leaf(kvs[0]);
    }
    var left, right := SplitByBit(kvs, depth);
    DepthBound(kvs, depth);
    SideBuildable(kvs, depth, false);
    SideBuildable(kvs, depth, true);
    var l := BuildGpTree(left, depth + 1);
    var r := BuildGpTree(right, depth + 1);
    return Branch(l, r);
  }

  method SplitByBit(kvs: seq<KV>, depth: nat) returns (left: seq<KV>, right: seq<KV>)
    ensures left == Side(kvs, depth, false) && right == Side(kvs, depth, true)
  {
    left, right := [], [];
    for i := 0 to |kvs|
      invariant left == Side(kvs[..i], depth, false) && right == Side(kvs[..i], depth, true)
    {
      assert kvs[..i + 1][..i] == kvs[..i];
      if Bit(kvs[i].key, depth) {
        right := right + [kvs[i]];
      } else {
        left := left + [kvs[i]];
      }
    }
    assert kvs[..|kvs|] == kvs;
  }

  ghost function Leaves(n: Node): set<KV> {
    match n
    case Empty => {}
    case Leaf(kv) => {kv}
    case Branch(l, r) => Leaves(l) + Leaves(r)
  }

  ghost function Contents(kvs: seq<KV>): set<KV> {
    set kv | kv in kvs
  }

  /** The trie holds exactly the pairs it was built from. */
  lemma {:induction false} LeavesOfBuild(kvs: seq<KV>, depth: nat)
    requires Buildable(kvs, depth)
    ensures Leaves(Build(kvs, depth)) == Contents(kvs)
    decreases 256 - depth
  {
    if |kvs| == 1 {
      assert kvs == [kvs[0]];
    } else if |kvs| >= 2 {
      DepthBound(kvs, depth);
      SideBuildable(kvs, depth, false);
      SideBuildable(kvs, depth, true);
      SideMembers(kvs, depth, false);
      SideMembers(kvs, depth, true);
      LeavesOfBuild(Side(kvs, depth, false), depth + 1);
      LeavesOfBuild(Side(kvs, depth, true), depth + 1);
    }
  }

  lemma SameSize(a: seq<KV>, b: seq<KV>)
    requires DistinctKeys(a) && DistinctKeys(b) && Contents(a) == Contents(b)
    ensures (|a| == 0) == (|b| == 0) && (|a| == 1) == (|b| == 1)
    ensures |a| == 1 ==> a == b
  {
    forall x ensures x in a <==> x in b {
      assert x in Contents(a) <==> x in Contents(b);
    }
    if |a| >= 1 {
      assert a[0] in b;
    }
    if |b| >= 1 {
      assert b[0] in a;
    }
    if |a| == 1 && |b| >= 2 {
      OnlyOne(a, b[0], b[1]);
    }
    if |b| == 1 && |a| >= 2 {
      OnlyOne(b, a[0], a[1]);
    }
  }

  lemma OnlyOne(a: seq<KV>, x: KV, y: KV)
    requires |a| == 1 && x in a && y in a
    ensures x == y
  {
  }

  lemma SameSide(a: seq<KV>, b: seq<KV>, depth: nat, right: bool)
    requires Contents(a) == Contents(b)
    ensures Contents(Side(a, depth, right)) == Contents(Side(b, depth, right))
  {
    SideMembers(a, depth, right);
    SideMembers(b, depth, right);
    forall x ensures x in Side(a, depth, right) <==> x in Side(b, depth, right) {
      assert x in Contents(a) <==> x in Contents(b);
    }
  }

  /** The trie depends only on the set of pairs, not on the order they come in. */
  lemma {:induction false} BuildCanonical(a: seq<KV>, b: seq<KV>, depth: nat)
    requires Buildable(a, depth) && Buildable(b, depth) && Contents(a) == Contents(b)
    ensures Build(a, depth) == Build(b, depth)
    decreases 256 - depth
  {
    SameSize(a, b);
    if |a| >= 2 {
      DepthBound(a, depth);
      SameSide(a, b, depth, false);
      SameSide(a, b, depth, true);
      SideBuildable(a, depth, false);
      SideBuildable(a, depth, true);
      SideBuildable(b, depth, false);
      SideBuildable(b, depth, true);
      BuildCanonical(Side(a, depth, false), Side(b, depth, false), depth + 1);
      BuildCanonical(Side(a, depth, true), Side(b, depth, true), depth + 1);
    }
  }
}
