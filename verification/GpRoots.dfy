/**
 Root hashes of the trie: the byte encodings of leaves and branches and what a root
 commits to. Absence of collisions is assumed only for the encodings at hand, and
 after clearing the top bit of a digest, as the branch encoding does.
 */
module GpRoots {
  import opened GpTree

  /** Clears the most significant bit. */
  function Masked(d: Digest): Digest {
    [d[0] % 128] + d[1..]
  }

  function ZeroPad(v: Bytes): Bytes
    requires |v| <= 32
  {
    v + Zeros(32 - |v|)
  }

  /** Leaf: a tag, the first 31 key bytes, and the value itself or its hash. */
  function EncodeLeaf(hash: Hasher, kv: KV): Bytes {
    if |kv.value| <= 32 then [128 + |kv.value|] + kv.key[..31] + ZeroPad(kv.value)
    else [192] + kv.key[..31] + hash(kv.value)
  }

  /** Branch: the left digest with its top bit cleared, then the right digest. */
  function EncodeBranch(left: Digest, right: Digest): Bytes {
    Masked(left) + right
  }

  function HashOf(hash: Hasher, n: Node): Digest {
    match n
    case Empty => Terminator()
    case Leaf(kv) => hash(EncodeLeaf(hash, kv))
    case Branch(l, r) => hash(EncodeBranch(HashOf(hash, l), HashOf(hash, r)))
  }

  /** Everything that is hashed to obtain the digest of a node. */
  ghost function Preimages(hash: Hasher, n: Node): set<Bytes> {
    match n
    case Empty => {}
    case Leaf(kv) => {EncodeLeaf(hash, kv)} + if |kv.value| > 32 then {kv.value} else {}
    case Branch(l, r) => {EncodeBranch(HashOf(hash, l), HashOf(hash, r))} + Preimages(hash, l) + Preimages(hash, r)
  }

  ghost predicate CollisionFree(hash: Hasher, s: set<Bytes>) {
    && (forall x, y :: x in s && y in s && Masked(hash(x)) == Masked(hash(y)) ==> x == y)
    && (forall x :: x in s ==> Masked(hash(x)) != Terminator())
  }

  /** The leaf encoding ignores the last key byte; this is the trie it cannot tell apart. */
  function Truncate(n: Node): Node {
    match n
    case Empty => Empty
    case Leaf(kv) => Leaf(KV(kv.key[..31] + [0], kv.value))
    case Branch(l, r) => Branch(Truncate(l), Truncate(r))
  }

  lemma {:induction false} HashIgnoresLastByte(hash: Hasher, n: Node)
    ensures HashOf(hash, Truncate(n)) == HashOf(hash, n)
  {
    match n
    case Empty =>
    case Leaf(kv) =>
      assert (kv.key[..31] + [0])[..31] == kv.key[..31];
    case Branch(l, r) =>
      HashIgnoresLastByte(hash, l);
      HashIgnoresLastByte(hash, r);
  }

  lemma SamePrefix(a: Bytes, b: Bytes, c: Bytes, d: Bytes)
    requires |a| == |c| && a + b == c + d
    ensures a == c && b == d
  {
    assert a == (a + b)[..|a|] && c == (c + d)[..|c|];
    assert b == (a + b)[|a|..] && d == (c + d)[|c|..];
  }

  lemma SamePadding(v: Bytes, w: Bytes)
    requires |v| == |w| <= 32 && ZeroPad(v) == ZeroPad(w)
    ensures v == w
  {
    assert v == ZeroPad(v)[..|v|] && w == ZeroPad(w)[..|w|];
  }

  lemma LeafEncodingBinds(hash: Hasher, x: KV, y: KV)
    requires CollisionFree(hash, Preimages(hash, Leaf(x)) + Preimages(hash, Leaf(y)))
    requires EncodeLeaf(hash, x) == EncodeLeaf(hash, y)
    ensures x.key[..31] == y.key[..31] && x.value == y.value
  {
    var ex, ey := EncodeLeaf(hash, x), EncodeLeaf(hash, y);
    assert ex[0] == ey[0];
    assert ex[1..32] == x.key[..31] && ey[1..32] == y.key[..31];
    if |x.value| <= 32 {
      assert |y.value| == |x.value|;
      assert ex[32..] == ZeroPad(x.value) && ey[32..] == ZeroPad(y.value);
      SamePadding(x.value, y.value);
    } else {
      assert ex[32..] == hash(x.value) && ey[32..] == hash(y.value);
      assert x.value in Preimages(hash, Leaf(x)) && y.value in Preimages(hash, Leaf(y));
    }
  }

  lemma LeafIsNotBranch(hash: Hasher, kv: KV, l: Digest, r: Digest)
    ensures EncodeLeaf(hash, kv) != EncodeBranch(l, r)
  {
    assert EncodeLeaf(hash, kv)[0] >= 128;
    assert EncodeBranch(l, r)[0] == l[0] % 128;
  }

  lemma FewerPreimages(hash: Hasher, s: set<Bytes>, t: set<Bytes>)
    requires CollisionFree(hash, t) && s <= t
    ensures CollisionFree(hash, s)
  {
  }

  lemma BranchEncodingBinds(hash: Hasher, l: Digest, r: Digest, l': Digest, r': Digest, s: set<Bytes>)
    requires CollisionFree(hash, s) && EncodeBranch(l, r) in s && EncodeBranch(l', r') in s
    requires Masked(hash(EncodeBranch(l, r))) == Masked(hash(EncodeBranch(l', r')))
    ensures Masked(l) == Masked(l') && r == r'
  {
    SamePrefix(Masked(l), r, Masked(l'), r');
  }

  lemma MaskedTerminator()
    ensures Masked(Terminator()) == Terminator()
  {
  }

  /** Equal digests, even up to the top bit, mean equal tries up to the last key byte. */
  lemma {:induction false} HashBinds(hash: Hasher, m: Node, n: Node)
    requires CollisionFree(hash, Preimages(hash, m) + Preimages(hash, n))
    requires Masked(HashOf(hash, m)) == Masked(HashOf(hash, n))
    ensures Truncate(m) == Truncate(n)
    decreases m, n
  {
    MaskedTerminator();
    match (m, n)
    case (Empty, Empty) =>
    case (Leaf(x), Leaf(y)) =>
      LeafEncodingBinds(hash, x, y);
    case (Leaf(x), Branch(l, r)) =>
      LeafIsNotBranch(hash, x, HashOf(hash, l), HashOf(hash, r));
    case (Branch(l, r), Leaf(x)) =>
      LeafIsNotBranch(hash, x, HashOf(hash, l), HashOf(hash, r));
    case (Branch(l, r), Branch(l', r')) =>
      var all := Preimages(hash, m) + Preimages(hash, n);
      BranchEncodingBinds(hash, HashOf(hash, l), HashOf(hash, r), HashOf(hash, l'), HashOf(hash, r'), all);
      FewerPreimages(hash, Preimages(hash, l) + Preimages(hash, l'), all);
      FewerPreimages(hash, Preimages(hash, r) + Preimages(hash, r'), all);
      HashBinds(hash, l, l');
      HashBinds(hash, r, r');
    case (Empty, Leaf(_)) =>
    case (Empty, Branch(_, _)) =>
    case (Leaf(_), Empty) =>
    case (Branch(_, _), Empty) =>
  }

  /** The root of a list of pairs; the wrappers return the zero hash for an empty list. */
  function RootOf(hash: Hasher, kvs: seq<KV>): Digest
    requires DistinctKeys(kvs)
  {
    WholeList(kvs);
    HashOf(hash, Build(kvs, 0))
  }

  lemma WholeList(kvs: seq<KV>)
    requires DistinctKeys(kvs)
    ensures Buildable(kvs, 0)
  {
  }

  ghost predicate NoCollisionBetween(hash: Hasher, a: seq<KV>, b: seq<KV>)
    requires DistinctKeys(a) && DistinctKeys(b)
  {
    WholeList(a);
    WholeList(b);
    CollisionFree(hash, Preimages(hash, Build(a, 0)) + Preimages(hash, Build(b, 0)))
  }

  /** The root is a function of the set of pairs. */
  lemma RootCanonical(hash: Hasher, a: seq<KV>, b: seq<KV>)
    requires DistinctKeys(a) && DistinctKeys(b) && Contents(a) == Contents(b)
    ensures RootOf(hash, a) == RootOf(hash, b)
  {
    WholeList(a);
    WholeList(b);
    BuildCanonical(a, b, 0);
  }

  /** Exactly when two roots agree: when the tries agree up to the last byte of their keys. */
  lemma RootsAgree(hash: Hasher, a: seq<KV>, b: seq<KV>)
    requires DistinctKeys(a) && DistinctKeys(b) && NoCollisionBetween(hash, a, b)
    ensures Buildable(a, 0) && Buildable(b, 0)
    ensures RootOf(hash, a) == RootOf(hash, b) <==> Truncate(Build(a, 0)) == Truncate(Build(b, 0))
  {
    WholeList(a);
    WholeList(b);
    HashIgnoresLastByte(hash, Build(a, 0));
    HashIgnoresLastByte(hash, Build(b, 0));
    if RootOf(hash, a) == RootOf(hash, b) {
      HashBinds(hash, Build(a, 0), Build(b, 0));
    }
  }

  // ---------- which keys the root tells apart ----------

  /** No two of the keys differ in their last byte alone. */
  ghost predicate ToldKeys(ks: iset<KeyPath>) {
    forall k, l :: k in ks && l in ks && k[..31] == l[..31] ==> k == l
  }

  ghost predicate KeysIn(s: set<KV>, ks: iset<KeyPath>) {
    forall kv :: kv in s ==> kv.key in ks
  }

  function Cut(kv: KV): KV {
    KV(kv.key[..31] + [0], kv.value)
  }

  ghost function CutAll(s: set<KV>): set<KV> {
    set kv | kv in s :: Cut(kv)
  }

  lemma CutUnion(s: set<KV>, t: set<KV>)
    ensures CutAll(s + t) == CutAll(s) + CutAll(t)
  {
    forall x ensures x in CutAll(s + t) <==> x in CutAll(s) + CutAll(t) {
      if x in CutAll(s + t) {
        var kv :| kv in s + t && Cut(kv) == x;
      }
    }
  }

  lemma {:induction false} LeavesOfTruncate(n: Node)
    ensures Leaves(Truncate(n)) == CutAll(Leaves(n))
  {
    match n
    case Empty =>
    case Leaf(kv) =>
    case Branch(l, r) =>
      LeavesOfTruncate(l);
      LeavesOfTruncate(r);
      CutUnion(Leaves(l), Leaves(r));
  }

  /** Told keys can be recovered from their cut pairs. */
  lemma CutTold(s: set<KV>, t: set<KV>, ks: iset<KeyPath>)
    requires ToldKeys(ks) && KeysIn(s, ks) && KeysIn(t, ks)
    requires CutAll(s) == CutAll(t)
    ensures s <= t
  {
    forall x | x in s ensures x in t {
      assert Cut(x) in CutAll(s);
      var y :| y in t && Cut(y) == Cut(x);
      SamePrefix(x.key[..31], [0], y.key[..31], [0]);
    }
  }

  /** For told keys the root determines the contents: no collision, no ambiguity. */
  lemma RootBindsTold(hash: Hasher, a: seq<KV>, b: seq<KV>, ks: iset<KeyPath>)
    requires DistinctKeys(a) && DistinctKeys(b) && NoCollisionBetween(hash, a, b)
    requires ToldKeys(ks) && KeysIn(Contents(a), ks) && KeysIn(Contents(b), ks)
    ensures RootOf(hash, a) == RootOf(hash, b) <==> Contents(a) == Contents(b)
  {
    RootsAgree(hash, a, b);
    if RootOf(hash, a) == RootOf(hash, b) {
      LeavesOfTruncate(Build(a, 0));
      LeavesOfTruncate(Build(b, 0));
      LeavesOfBuild(a, 0);
      LeavesOfBuild(b, 0);
      CutTold(Contents(a), Contents(b), ks);
      CutTold(Contents(b), Contents(a), ks);
    }
    if Contents(a) == Contents(b) {
      BuildCanonical(a, b, 0);
    }
  }

  /** Keys of 31 bytes, padded with a zero byte. */
  ghost function PaddedKeys(): iset<KeyPath> {
    iset k: KeyPath | k[31] == 0
  }

  lemma PaddedAreTold()
    ensures ToldKeys(PaddedKeys())
  {
    forall k, l | k in PaddedKeys() && l in PaddedKeys() && k[..31] == l[..31] ensures k == l {
      assert k == k[..31] + [k[31]] && l == l[..31] + [l[31]];
    }
  }

  // ---------- how many pairs ----------

  function Size(n: Node): nat {
    match n
    case Empty => 0
    case Leaf(_) => 1
    case Branch(l, r) => Size(l) + Size(r)
  }

  lemma {:induction false} TruncateKeepsSize(n: Node)
    ensures Size(Truncate(n)) == Size(n)
  {
    match n
    case Empty =>
    case Leaf(_) =>
    case Branch(l, r) =>
      TruncateKeepsSize(l);
      TruncateKeepsSize(r);
  }

  lemma {:induction false} SidesAddUp(kvs: seq<KV>, depth: nat)
    ensures |Side(kvs, depth, false)| + |Side(kvs, depth, true)| == |kvs|
  {
    if kvs != [] {
      SidesAddUp(kvs[..|kvs| - 1], depth);
    }
  }

  lemma {:induction false} SizeOfBuild(kvs: seq<KV>, depth: nat)
    requires Buildable(kvs, depth)
    ensures Size(Build(kvs, depth)) == |kvs|
    decreases 256 - depth
  {
    if |kvs| >= 2 {
      DepthBound(kvs, depth);
      SideBuildable(kvs, depth, false);
      SideBuildable(kvs, depth, true);
      SidesAddUp(kvs, depth);
      SizeOfBuild(Side(kvs, depth, false), depth + 1);
      SizeOfBuild(Side(kvs, depth, true), depth + 1);
    }
  }

  /** Whatever the keys, lists with one root have the same number of pairs. */
  lemma RootBindsSize(hash: Hasher, a: seq<KV>, b: seq<KV>)
    requires DistinctKeys(a) && DistinctKeys(b) && NoCollisionBetween(hash, a, b) && RootOf(hash, a) == RootOf(hash, b)
    ensures |a| == |b|
  {
    RootsAgree(hash, a, b);
    TruncateKeepsSize(Build(a, 0));
    TruncateKeepsSize(Build(b, 0));
    SizeOfBuild(a, 0);
    SizeOfBuild(b, 0);
  }

  /** Other keys it does not tell apart: these two one-entry lists share their root under every hash. */
  lemma RootForgetsLastByte(hash: Hasher, key: KeyPath, value: Bytes, last: Byte)
    ensures var other: KeyPath := key[..31] + [last];
      RootOf(hash, [KV(key, value)]) == RootOf(hash, [KV(other, value)])
      && (last != key[31] ==> Contents([KV(key, value)]) != Contents([KV(other, value)]))
  {
    var other: KeyPath := key[..31] + [last];
    assert other[..31] == key[..31];
    if last != key[31] {
      assert KV(other, value) in Contents([KV(other, value)]);
      assert other[31] == last;
    }
  }

  /** A constant hash: it cannot collide where only one encoding is hashed. */
  function ConstantHash(): Hasher {
    (x: Bytes) => [1] + Zeros(31)
  }

  lemma OneEncoding(k: KeyPath, l: KeyPath)
    requires k[..31] == l[..31]
    ensures var hash := ConstantHash();
      CollisionFree(hash, Preimages(hash, Leaf(KV(k, []))) + Preimages(hash, Leaf(KV(l, []))))
  {
    var hash := ConstantHash();
    var all := Preimages(hash, Leaf(KV(k, []))) + Preimages(hash, Leaf(KV(l, [])));
    assert EncodeLeaf(hash, KV(k, [])) == EncodeLeaf(hash, KV(l, []));
    assert all == {EncodeLeaf(hash, KV(k, []))};
    forall x | x in all ensures Masked(hash(x)) != Terminator() {
      assert Masked(hash(x))[0] == 1;
    }
  }

  /** Unless encodings collide, these two lists have one root only if they hold the same pairs. */
  ghost predicate RootBinds(hash: Hasher, a: seq<KV>, b: seq<KV>) {
    DistinctKeys(a) && DistinctKeys(b) && NoCollisionBetween(hash, a, b)
    ==> (RootOf(hash, a) == RootOf(hash, b) <==> Contents(a) == Contents(b))
  }

  ghost predicate BindingKeys(ks: iset<KeyPath>) {
    forall hash: Hasher, a: seq<KV>, b: seq<KV> :: KeysIn(Contents(a), ks) && KeysIn(Contents(b), ks) ==> RootBinds(hash, a, b)
  }

  lemma UntoldNotBound(k: KeyPath, l: KeyPath)
    requires k != l && k[..31] == l[..31]
    ensures !RootBinds(ConstantHash(), [KV(k, [])], [KV(l, [])])
  {
    OneEncoding(k, l);
    var a, b: seq<KV> := [KV(k, [])], [KV(l, [])];
    assert KV(k, []) in Contents(a) && KV(k, []) !in Contents(b);
  }

  /** The root commits to the contents over exactly the sets of told keys. */
  lemma BoundExactlyIfTold(ks: iset<KeyPath>)
    ensures BindingKeys(ks) <==> ToldKeys(ks)
  {
    if ToldKeys(ks) {
      forall hash: Hasher, a: seq<KV>, b: seq<KV> | KeysIn(Contents(a), ks) && KeysIn(Contents(b), ks)
        ensures RootBinds(hash, a, b)
      {
        if DistinctKeys(a) && DistinctKeys(b) && NoCollisionBetween(hash, a, b) {
          RootBindsTold(hash, a, b, ks);
        }
      }
    } else {
      var k, l :| k in ks && l in ks && k[..31] == l[..31] && k != l;
      UntoldNotBound(k, l);
      assert KeysIn(Contents([KV(k, [])]), ks) && KeysIn(Contents([KV(l, [])]), ks);
    }
  }

  // ---------- reading encodings ----------

  /** What 64 bytes say of a node, by Appendix D of the JAM Gray Paper. */
  datatype NodeData =
    | BranchData(left: Bytes, right: Bytes)
    | EmbeddedLeaf(keyStart: Bytes, value: Bytes)
    | HashedLeaf(keyStart: Bytes, valueHash: Bytes)

  /** The top bit tells leaves from branches, the next one hashed from embedded values of the given length. */
  function ReadNode(x: Bytes): NodeData
    requires |x| == 64
  {
    if x[0] < 128 then BranchData(x[..32], x[32..])
    else if x[0] <= 160 then EmbeddedLeaf(x[1..32], x[32..32 + (x[0] - 128)])
    else HashedLeaf(x[1..32], x[32..])
  }

  /** A leaf encoding holds 31 key bytes and, up to 32 bytes, the value itself, else its hash. */
  lemma LeafReads(hash: Hasher, kv: KV)
    ensures |EncodeLeaf(hash, kv)| == 64
    ensures ReadNode(EncodeLeaf(hash, kv)) ==
      if |kv.value| <= 32 then EmbeddedLeaf(kv.key[..31], kv.value) else HashedLeaf(kv.key[..31], hash(kv.value))
    ensures EncodeLeaf(hash, kv)[0] == if |kv.value| <= 32 then 0x80 + |kv.value| else 0xC0
  {
    var x, tag := EncodeLeaf(hash, kv), EncodeLeaf(hash, kv)[0];
    var tail := if |kv.value| <= 32 then ZeroPad(kv.value) else hash(kv.value);
    assert x == [tag] + kv.key[..31] + tail;
    assert x[1..32] == kv.key[..31] && x[32..] == tail;
    if |kv.value| <= 32 {
      assert tail[..|kv.value|] == kv.value && x[32..32 + |kv.value|] == tail[..|kv.value|];
    }
  }

  /** The digest of a branch is that of its left digest without the top bit, then its right digest. */
  lemma BranchReads(hash: Hasher, l: Node, r: Node)
    ensures exists x: Bytes ::
      && |x| == 64 && HashOf(hash, Branch(l, r)) == hash(x)
      && ReadNode(x) == BranchData([HashOf(hash, l)[0] % 128] + HashOf(hash, l)[1..], HashOf(hash, r))
  {
    var x := EncodeBranch(HashOf(hash, l), HashOf(hash, r));
    assert x[..32] == Masked(HashOf(hash, l)) && x[32..] == HashOf(hash, r);
    assert x[0] == Masked(HashOf(hash, l))[0];
    assert ReadNode(x) == BranchData(Masked(HashOf(hash, l)), HashOf(hash, r));
  }

  /** Nothing has the digest of 32 zero bytes. */
  lemma EmptyRoot(hash: Hasher)
    ensures |RootOf(hash, [])| == 32 && forall i :: 0 <= i < 32 ==> RootOf(hash, [])[i] == 0
  {
  }
}
