/**
 Witnesses of write sessions: in witness mode a session logs its operations, and a
 witness holds one Merkle proof per logged operation, built on the trie of the session's
 own changes and carrying the operation's value.
 */
module Witnesses {
  import opened Options
  import opened GpTree
  import opened GpRoots
  import opened GpProofs
  import opened KeyOrder
  import opened Stores
  import opened Nomts

  datatype OpKind = OpRead | OpWrite | OpDelete

  /** Only writes carry a value. */
  datatype Operation = Operation(kind: OpKind, key: KeyPath, value: Option<Bytes>)

  datatype MerkleProof = MerkleProof(key: KeyPath, value: Option<Bytes>, path: seq<PathNode>)

  datatype Witness = Witness(prevRoot: Digest, root: Digest, keys: seq<KeyPath>, proofs: seq<MerkleProof>)

  function ReadOf(key: KeyPath): Operation {
    Operation(OpRead, key, None)
  }

  // ---------- what a witness holds ----------

  /** The trie of the inline inserts among the changes. */
  ghost function TrieOf(cs: Changeset): Node {
    var kvs := ListOf(Preview(map[], cs));
    WholeList(kvs);
    Build(kvs, 0)
  }

  function KeysOf(ops: seq<Operation>): seq<KeyPath> {
    seq(|ops|, i requires 0 <= i < |ops| => ops[i].key)
  }

  function ProofOf(hash: Hasher, trie: Node, op: Operation): MerkleProof {
    MerkleProof(op.key, op.value, Convert(Path(hash, trie, op.key, 0)))
  }

  function ProofsOf(hash: Hasher, trie: Node, ops: seq<Operation>): seq<MerkleProof> {
    seq(|ops|, i requires 0 <= i < |ops| => ProofOf(hash, trie, ops[i]))
  }

  predicate ProofAccepted(hash: Hasher, p: MerkleProof, root: Digest) {
    Verifies(hash, p.key, p.value, ConvertBack(p.path), root)
  }

  predicate Accepted(hash: Hasher, proofs: seq<MerkleProof>, root: Digest) {
    forall i :: 0 <= i < |proofs| ==> ProofAccepted(hash, proofs[i], root)
  }

  method BuildTrie(cs: Changeset) returns (trie: Node)
    ensures trie == TrieOf(cs)
  {
    var combined := CollectForPreview(map[], cs);
    var kvs := SortedPairs(combined);
    WholeList(kvs);
    WholeList(ListOf(combined));
    BuildCanonical(kvs, ListOf(combined), 0);
    trie := BuildGpTree(kvs, 0);
  }

  /** One proof per operation, in order. */
  method ProveAll(hash: Hasher, trie: Node, ops: seq<Operation>) returns (keys: seq<KeyPath>, proofs: seq<MerkleProof>)
    ensures keys == KeysOf(ops) && proofs == ProofsOf(hash, trie, ops)
  {
    keys, proofs := [], [];
    for i := 0 to |ops|
      invariant |keys| == |proofs| == i
      invariant forall j :: 0 <= j < i ==> keys[j] == ops[j].key && proofs[j] == ProofOf(hash, trie, ops[j])
    {
      var path := GenerateProofForKey(hash, trie, ops[i].key);
      var exported := ConvertProofNodes(path);
      keys := keys + [ops[i].key];
      proofs := proofs + [MerkleProof(ops[i].key, ops[i].value, exported)];
    }
  }

  ghost function WitnessOf(hash: Hasher, prevRoot: Digest, root: Digest, cs: Changeset, ops: seq<Operation>): Witness {
    Witness(prevRoot, root, KeysOf(ops), ProofsOf(hash, TrieOf(cs), ops))
  }

  /**
   One proof per operation, on the trie of the changes. The root is the one the prepared
   session holds: that of its own changes, after its commit the committed one.
   */
  method MakeWitness(hash: Hasher, prevRoot: Digest, newRoot: Digest, cs: Changeset, ops: seq<Operation>)
    returns (w: Witness)
    ensures w == WitnessOf(hash, prevRoot, newRoot, cs, ops)
  {
    var trie := BuildTrie(cs);
    var keys, proofs := ProveAll(hash, trie, ops);
    w := Witness(prevRoot, newRoot, keys, proofs);
  }

  /** Checks every proof of a witness against the expected root. */
  method VerifyWitness(hash: Hasher, w: Option<Witness>, expected: Digest) returns (ok: bool)
    ensures ok == (w.Some? && Accepted(hash, w.value.proofs, expected))
  {
    if w.None? {
      return false;
    }
    var proofs := w.value.proofs;
    for i := 0 to |proofs|
      invariant forall j :: 0 <= j < i ==> ProofAccepted(hash, proofs[j], expected)
    {
      var path := ConvertToProofNodes(proofs[i].path);
      var one := Verify(hash, proofs[i].key, proofs[i].value, path, expected);
      if !one {
        return false;
      }
    }
    return true;
  }

  // ---------- which witnesses are accepted ----------

  /** No collision among what the checks of these operations hash. */
  ghost predicate NoCollisions(hash: Hasher, trie: Node, ops: seq<Operation>) {
    forall i, j :: 0 <= i < |ops| && 0 <= j < |ops| ==>
      CollisionFree(hash,
        ProofPreimages(hash, trie, ops[i].key, ops[i].value) + ProofPreimages(hash, trie, ops[j].key, ops[j].value))
  }

  lemma OperationAccepted(hash: Hasher, trie: Node, op: Operation)
    requires CollisionFree(hash, ProofPreimages(hash, trie, op.key, op.value))
    ensures ProofAccepted(hash, ProofOf(hash, trie, op), HashOf(hash, trie)) <==> Fits(trie, op.key, op.value)
  {
    ConversionKeepsFold(hash, Bottom(hash, op.key, op.value), Path(hash, trie, op.key, 0));
    GeneratedProofVerifies(hash, trie, op.key, op.value);
  }

  /** For every trie and every log: a witness is accepted exactly if each value fits its path. */
  lemma WitnessAccepted(hash: Hasher, trie: Node, ops: seq<Operation>)
    requires NoCollisions(hash, trie, ops)
    ensures Accepted(hash, ProofsOf(hash, trie, ops), HashOf(hash, trie))
       <==> forall i :: 0 <= i < |ops| ==> Fits(trie, ops[i].key, ops[i].value)
  {
    hide CollisionFree, ProofPreimages, ProofAccepted, Fits;
    var proofs := ProofsOf(hash, trie, ops);
    forall i | 0 <= i < |ops|
      ensures ProofAccepted(hash, proofs[i], HashOf(hash, trie)) <==> Fits(trie, ops[i].key, ops[i].value)
    {
      var own := ProofPreimages(hash, trie, ops[i].key, ops[i].value);
      assert own + own == own;
      OperationAccepted(hash, trie, ops[i]);
    }
    if Accepted(hash, proofs, HashOf(hash, trie)) {
      forall i | 0 <= i < |ops| ensures Fits(trie, ops[i].key, ops[i].value) {
        assert ProofAccepted(hash, proofs[i], HashOf(hash, trie));
      }
    }
  }

  /**
   What every log of a witness-mode session satisfies: a write is logged with a read of its
   key, other operations have no value, and every inline insert was written.
   */
  ghost predicate SessionLog(ops: seq<Operation>, cs: Changeset) {
    && (forall op :: op in ops && op.kind == OpWrite ==> op.value.Some? && ReadOf(op.key) in ops)
    && (forall op :: op in ops && op.kind != OpWrite ==> op.value.None?)
    && (forall k :: k in cs && cs[k].Insert? ==> Writes(ops, k))
  }

  predicate Writes(ops: seq<Operation>, k: KeyPath) {
    exists op :: op in ops && op.kind == OpWrite && op.key == k
  }

  predicate HasWrite(ops: seq<Operation>) {
    exists op :: op in ops && op.kind == OpWrite
  }

  lemma NoWritesNoTrie(ops: seq<Operation>, cs: Changeset)
    requires SessionLog(ops, cs) && !HasWrite(ops)
    ensures TrieOf(cs) == Empty
  {
    assert Preview(map[], cs) == map[];
    assert Entries(map[]) == {};
    EmptyContents(ListOf(map[]));
  }

  /** No root accepts both a value and no value at the end of one path. */
  lemma ReadOrWriteRefused(hash: Hasher, trie: Node, key: KeyPath, value: Bytes, root: Digest)
    requires CollisionFree(hash, ProofPreimages(hash, trie, key, Some(value)) + ProofPreimages(hash, trie, key, None))
    ensures var path := Path(hash, trie, key, 0);
      !(Verifies(hash, key, Some(value), path, root) && Verifies(hash, key, None, path, root))
  {
    var path := Path(hash, trie, key, 0);
    if Verifies(hash, key, Some(value), path, root) && Verifies(hash, key, None, path, root) {
      BottomsAgree(hash, Leaf(KV(key, value)), Empty, path,
        ProofPreimages(hash, trie, key, Some(value)) + ProofPreimages(hash, trie, key, None));
    }
  }

  lemma OperationVerifies(hash: Hasher, trie: Node, op: Operation, root: Digest)
    ensures ProofAccepted(hash, ProofOf(hash, trie, op), root) <==>
      Verifies(hash, op.key, op.value, Path(hash, trie, op.key, 0), root)
  {
    ConversionKeepsFold(hash, Bottom(hash, op.key, op.value), Path(hash, trie, op.key, 0));
  }

  lemma WritesRefused(hash: Hasher, trie: Node, ops: seq<Operation>, cs: Changeset, root: Digest)
    requires SessionLog(ops, cs) && NoCollisions(hash, trie, ops) && HasWrite(ops)
    ensures !Accepted(hash, ProofsOf(hash, trie, ops), root)
  {
    hide CollisionFree, ProofPreimages, ProofAccepted, Verifies;
    var op :| op in ops && op.kind == OpWrite;
    var i :| 0 <= i < |ops| && ops[i] == op;
    var j :| 0 <= j < |ops| && ops[j] == ReadOf(op.key);
    ReadOrWriteRefused(hash, trie, op.key, op.value.value, root);
    OperationVerifies(hash, trie, ops[i], root);
    OperationVerifies(hash, trie, ops[j], root);
    var proofs := ProofsOf(hash, trie, ops);
    assert !(ProofAccepted(hash, proofs[i], root) && ProofAccepted(hash, proofs[j], root));
  }

  lemma ReadsAccepted(hash: Hasher, ops: seq<Operation>, cs: Changeset, root: Digest)
    requires SessionLog(ops, cs) && !HasWrite(ops)
    ensures Accepted(hash, ProofsOf(hash, Empty, ops), root) <==> ops == [] || root == Terminator()
  {
    var proofs := ProofsOf(hash, Empty, ops);
    forall i | 0 <= i < |ops| ensures ProofAccepted(hash, proofs[i], root) <==> root == Terminator() {
      assert ops[i] in ops;
      OperationVerifies(hash, Empty, ops[i], root);
    }
    if ops != [] {
      assert ProofAccepted(hash, proofs[0], root) <==> root == Terminator();
    }
  }

  /**
   A session's witness that carries any root, its own or the committed one, is accepted
   exactly if the session wrote nothing and, having read anything, the root is that of
   nothing: the read logged with a write asks for an empty subtrie on the very path where
   the write asks for a leaf.
   */
  lemma SessionWitnessAccepted(hash: Hasher, prevRoot: Digest, root: Digest, cs: Changeset, ops: seq<Operation>)
    requires SessionLog(ops, cs) && NoCollisions(hash, TrieOf(cs), ops)
    ensures var w := WitnessOf(hash, prevRoot, root, cs, ops);
      && (Accepted(hash, w.proofs, w.root) <==> !HasWrite(ops) && (ops == [] || root == Terminator()))
      && (root == HashOf(hash, TrieOf(cs)) ==> (Accepted(hash, w.proofs, w.root) <==> !HasWrite(ops)))
  {
    if HasWrite(ops) {
      WritesRefused(hash, TrieOf(cs), ops, cs, root);
    } else {
      NoWritesNoTrie(ops, cs);
      ReadsAccepted(hash, ops, cs, root);
    }
  }

  /** A single insert: its own proof is good, but the read logged before it is refused. */
  lemma OneInsertRefused(hash: Hasher, k: KeyPath, v: Bytes)
    requires |v| <= MAX_INLINE && CollisionFree(hash, Preimages(hash, Leaf(KV(k, v))))
    ensures var trie, read, write := TrieOf(map[k := NewInsertChange(v)]), ReadOf(k), Operation(OpWrite, k, Some(v));
      && ProofAccepted(hash, ProofOf(hash, trie, write), HashOf(hash, trie))
      && !ProofAccepted(hash, ProofOf(hash, trie, read), HashOf(hash, trie))
  {
    var cs: Changeset := map[k := NewInsertChange(v)];
    OneInsertTrie(k, v);
    MaskedTerminator();
    assert EncodeLeaf(hash, KV(k, v)) in Preimages(hash, Leaf(KV(k, v)));
    assert Path(hash, TrieOf(cs), k, 0) == [] && Convert([]) == [] && ConvertBack([]) == [];
  }

  lemma OneInsertTrie(k: KeyPath, v: Bytes)
    requires |v| <= MAX_INLINE
    ensures TrieOf(map[k := NewInsertChange(v)]) == Leaf(KV(k, v))
  {
    var cs: Changeset := map[k := NewInsertChange(v)];
    var m: KVMap := map[k := v];
    assert Preview(map[], cs) == m;
    var one := [KV(k, v)];
    assert Lists([], m - {k});
    ListCons(m, k, []);
    assert one == [KV(k, m[k])] + [];
    WholeList(one);
    WholeList(ListOf(m));
    BuildCanonical(one, ListOf(m), 0);
  }

  // ---------- the session ----------

  class WriteSession {
    const witnessMode: bool
    const prevRoot: Digest
    var overlay: Changeset
    var operations: seq<Operation>
    var closed: bool

    ghost predicate Valid()
      reads this
    {
      witnessMode ==> SessionLog(operations, overlay)
    }

    constructor (prevRoot: Digest, witnessMode: bool)
      ensures this.prevRoot == prevRoot && this.witnessMode == witnessMode
      ensures Valid() && overlay == map[] && operations == [] && !closed
    {
      this.prevRoot, this.witnessMode := prevRoot, witnessMode;
      overlay, operations, closed := map[], [], false;
    }

    /** `below` is what the overlays and the store under the session answer. */
    method Get(key: KeyPath, below: Option<Bytes>) returns (value: Option<Bytes>)
      requires Valid()
      modifies this`operations
      ensures Valid()
      ensures operations == old(operations) + if witnessMode && !closed then [Operation(OpRead, key, None)] else []
      ensures value == if closed then None
        else if key in overlay && !overlay[key].Delete? then Some(overlay[key].value) else below
    {
      if closed {
        return None;
      }
      if witnessMode {
        operations := operations + [ReadOf(key)];
      }
      return if key in overlay && !overlay[key].Delete? then Some(overlay[key].value) else below;
    }

    /** Reads the old value, which logs a read in witness mode, then logs and stages the write. */
    method Insert(key: KeyPath, value: Bytes, below: Option<Bytes>) returns (ok: bool)
      requires Valid()
      modifies this`operations, this`overlay
      ensures Valid() && ok == !closed
      ensures operations == old(operations) +
        if !ok then [] else (if witnessMode then [ReadOf(key)] else []) + [Operation(OpWrite, key, Some(value))]
      ensures overlay == if ok then old(overlay)[key := NewInsertChange(value)] else old(overlay)
    {
      if closed {
        return false;
      }
      var before := Get(key, below);
      var write := Operation(OpWrite, key, Some(value));
      assert operations + [write] == old(operations) + ((if witnessMode then [ReadOf(key)] else []) + [write]);
      WriteLogged(operations, overlay, write, NewInsertChange(value));
      operations := operations + [write];
      overlay := overlay[key := NewInsertChange(value)];
      return true;
    }

    method Delete(key: KeyPath, below: Option<Bytes>) returns (ok: bool)
      requires Valid()
      modifies this`operations, this`overlay
      ensures Valid() && ok == !closed
      ensures operations == old(operations) +
        if !ok then [] else (if witnessMode then [ReadOf(key)] else []) + [Operation(OpDelete, key, None)]
      ensures overlay == if ok then old(overlay)[key := Change.Delete] else old(overlay)
    {
      if closed {
        return false;
      }
      var before := Get(key, below);
      var delete := Operation(OpDelete, key, None);
      assert operations + [delete] == old(operations) + ((if witnessMode then [ReadOf(key)] else []) + [delete]);
      WriteLogged(operations, overlay, delete, Change.Delete);
      operations := operations + [delete];
      overlay := overlay[key := Change.Delete];
      return true;
    }

    /** Freezes the session and hands out its changes and its log. */
    method Prepare() returns (prepared: Option<(Changeset, seq<Operation>)>)
      requires Valid()
      modifies this`closed
      ensures Valid() && closed
      ensures prepared == if old(closed) then None else Some((overlay, operations))
    {
      if closed {
        return None;
      }
      closed := true;
      return Some((overlay, operations));
    }

    /**
     A proof per logged operation. The walker reads each key through the session, so in
     an open session every proof logs one more read.
     */
    method GenerateWitness(hash: Hasher) returns (w: Option<Witness>)
      requires Valid()
      modifies this`operations
      ensures Valid()
      ensures w == if !witnessMode then None
        else Some(WitnessOf(hash, prevRoot, HashOf(hash, TrieOf(overlay)), overlay, old(operations)))
      ensures operations == old(operations) + if witnessMode && !closed then ReadsOf(old(operations)) else []
    {
      if !witnessMode {
        return None;
      }
      var trie := BuildTrie(overlay);
      var keys, proofs := ProveAll(hash, trie, operations);
      if !closed {
        ReadsLogged(operations, overlay);
        operations := operations + ReadsOf(operations);
      }
      return Some(Witness(prevRoot, HashOf(hash, trie), keys, proofs));
    }
  }

  function ReadsOf(ops: seq<Operation>): seq<Operation> {
    seq(|ops|, i requires 0 <= i < |ops| => ReadOf(ops[i].key))
  }

  lemma ReadsLogged(ops: seq<Operation>, cs: Changeset)
    requires SessionLog(ops, cs)
    ensures SessionLog(ops + ReadsOf(ops), cs)
  {
    forall k | k in cs && cs[k].Insert? ensures Writes(ops + ReadsOf(ops), k) {
      var op :| op in ops && op.kind == OpWrite && op.key == k;
      assert op in ops + ReadsOf(ops);
    }
  }

  lemma WriteLogged(ops: seq<Operation>, cs: Changeset, op: Operation, c: Change)
    requires op.kind == OpWrite ==> op.value.Some?
    requires op.kind != OpWrite ==> op.value.None? && !c.Insert?
    ensures SessionLog(ops, cs) && ReadOf(op.key) in ops ==> SessionLog(ops + [op], cs[op.key := c])
  {
    if SessionLog(ops, cs) && ReadOf(op.key) in ops {
      var next := cs[op.key := c];
      forall k | k in next && next[k].Insert? ensures Writes(ops + [op], k) {
        if k == op.key {
          assert op in ops + [op];
        } else {
          var w :| w in ops && w.kind == OpWrite && w.key == k;
          assert w in ops + [op];
        }
      }
    }
  }
}
