/**
 The key-value store under the Merkle database: committed contents on disk, staged
 changes in memory, and a cached root hash guarded by a dirty flag.
 */
module Stores {
  import opened Options
  import opened Sums
  import opened GpTree
  import opened GpRoots
  import opened KeyOrder

  const MAX_INLINE: nat := 1024

  type KVMap = map<KeyPath, Bytes>

  /** A staged change; values over the inline limit get their own kind. */
  datatype Change = Delete | Insert(value: Bytes) | InsertOverflow(value: Bytes)

  type Changeset = map<KeyPath, Change>

  function NewInsertChange(value: Bytes): Change {
    if |value| <= MAX_INLINE then Insert(value) else InsertOverflow(value)
  }

  /** The contents after a changeset: both kinds of insert store their value. */
  function Apply(m: KVMap, cs: Changeset): KVMap {
    map k | k in m.Keys + cs.Keys && (k in cs ==> !cs[k].Delete?) :: if k in cs then cs[k].value else m[k]
  }

  lemma ApplyTwice(m: KVMap, cs: Changeset, ds: Changeset)
    ensures Apply(Apply(m, cs), ds) == Apply(m, cs + ds)
  {
  }

  lemma ApplyAgain(m: KVMap, cs: Changeset)
    ensures Apply(Apply(m, cs), cs) == Apply(m, cs)
  {
  }

  lemma ApplyNothing(m: KVMap)
    ensures Apply(m, map[]) == m
  {
  }

  /** What readers see: disk, under a sync in progress, under staged changes. */
  function View(disk: KVMap, secondary: Option<Changeset>, primary: Changeset): KVMap {
    Apply(if secondary.Some? then Apply(disk, secondary.value) else disk, primary)
  }

  lemma StageView(disk: KVMap, secondary: Option<Changeset>, primary: Changeset, cs: Changeset)
    ensures View(disk, secondary, primary + cs) == Apply(View(disk, secondary, primary), cs)
  {
    ApplyTwice(if secondary.Some? then Apply(disk, secondary.value) else disk, primary, cs);
  }

  /** Every stage of a sync shows readers the same contents. */
  lemma SyncView(disk: KVMap, cs: Changeset)
    ensures View(disk, Some(cs), map[]) == View(disk, None, cs)
    ensures View(Apply(disk, cs), Some(cs), map[]) == View(disk, None, cs)
    ensures View(Apply(disk, cs), None, map[]) == View(disk, None, cs) == Apply(disk, cs)
  {
    ApplyNothing(Apply(disk, cs));
    ApplyAgain(disk, cs);
  }

  lemma NoChanges(disk: KVMap, cs: Changeset)
    requires |cs| == 0
    ensures cs == map[] && Apply(disk, cs) == disk && View(disk, None, map[]) == View(disk, None, cs) == disk
  {
    assert cs == map[];
    ApplyNothing(disk);
  }

  // ---------- roots of contents ----------

  ghost function Entries(m: KVMap): set<KV> {
    set k | k in m :: KV(k, m[k])
  }

  /** A list of the contents, in any order. */
  ghost predicate Lists(kvs: seq<KV>, m: KVMap) {
    DistinctKeys(kvs) && Contents(kvs) == Entries(m)
  }

  ghost function ListOf(m: KVMap): seq<KV>
    ensures Lists(ListOf(m), m)
    decreases |m|
  {
    if m == map[] then
      assert Entries(m) == {};
      []
    else
      var k :| k in m;
      var rest := m - {k};
      var tail := ListOf(rest);
      ListCons(m, k, tail);
      [KV(k, m[k])] + tail
  }

  lemma ListCons(m: KVMap, k: KeyPath, tail: seq<KV>)
    requires k in m && Lists(tail, m - {k})
    ensures Lists([KV(k, m[k])] + tail, m)
  {
    var kvs := [KV(k, m[k])] + tail;
    forall i | 0 <= i < |tail| ensures tail[i].key != k {
      assert tail[i] in Contents(tail);
    }
    forall x ensures x in Contents(kvs) <==> x in Entries(m) {
      assert x in Contents(tail) <==> x in Entries(m - {k});
      if x in Entries(m) && x.key != k {
        assert x.key in m - {k};
      }
    }
  }

  ghost predicate IsRootOf(hash: Hasher, m: KVMap, root: Digest) {
    forall kvs :: Lists(kvs, m) ==> RootOf(hash, kvs) == root
  }

  lemma ListsShareRoot(hash: Hasher, m: KVMap)
    ensures IsRootOf(hash, m, RootOf(hash, ListOf(m)))
  {
    forall kvs | Lists(kvs, m) ensures RootOf(hash, kvs) == RootOf(hash, ListOf(m)) {
      RootCanonical(hash, kvs, ListOf(m));
    }
  }

  /** The root of the contents: the one every list of them has. */
  ghost function RootOfMap(hash: Hasher, m: KVMap): Digest {
    ListsShareRoot(hash, m);
    var root: Digest :| IsRootOf(hash, m, root);
    root
  }

  lemma RootOfAnyList(hash: Hasher, kvs: seq<KV>, m: KVMap)
    requires Lists(kvs, m)
    ensures RootOf(hash, kvs) == RootOfMap(hash, m)
  {
    ListsShareRoot(hash, m);
  }

  ghost predicate KeysWithin(m: KVMap, ks: iset<KeyPath>) {
    forall k :: k in m ==> k in ks
  }

  ghost predicate NoCollision(hash: Hasher, m: KVMap, n: KVMap) {
    NoCollisionBetween(hash, ListOf(m), ListOf(n))
  }

  lemma EntriesInjective(m: KVMap, n: KVMap)
    requires Entries(m) == Entries(n)
    ensures m == n
  {
    forall k ensures k in m <==> k in n {
      if k in m {
        assert KV(k, m[k]) in Entries(n);
      }
      if k in n {
        assert KV(k, n[k]) in Entries(m);
      }
    }
    forall k | k in m ensures m[k] == n[k] {
      assert KV(k, m[k]) in Entries(n);
    }
  }

  /** With told keys and no collision, roots agree exactly when the contents do. */
  lemma RootDeterminesContents(hash: Hasher, m: KVMap, n: KVMap, ks: iset<KeyPath>)
    requires ToldKeys(ks) && KeysWithin(m, ks) && KeysWithin(n, ks) && NoCollision(hash, m, n)
    ensures RootOfMap(hash, m) == RootOfMap(hash, n) <==> m == n
  {
    RootOfAnyList(hash, ListOf(m), m);
    RootOfAnyList(hash, ListOf(n), n);
    if RootOfMap(hash, m) == RootOfMap(hash, n) {
      RootBindsTold(hash, ListOf(m), ListOf(n), ks);
      EntriesInjective(m, n);
    }
  }

  lemma {:induction false} SizeOfList(kvs: seq<KV>, m: KVMap)
    requires Lists(kvs, m)
    ensures |kvs| == |m|
    decreases |kvs|
  {
    if kvs == [] {
      assert Entries(m) == {};
      assert forall k :: k in m ==> KV(k, m[k]) in Entries(m);
      assert m == map[];
    } else {
      var kv, rest := kvs[0], kvs[1..];
      assert kv in Contents(kvs) && kv in Entries(m);
      ListTail(kvs, m);
      SizeOfList(rest, m - {kv.key});
      assert (m - {kv.key}).Keys == m.Keys - {kv.key};
      assert |m| == |m.Keys| && |m - {kv.key}| == |(m - {kv.key}).Keys|;
    }
  }

  lemma ListTail(kvs: seq<KV>, m: KVMap)
    requires Lists(kvs, m) && kvs != []
    ensures Lists(kvs[1..], m - {kvs[0].key})
  {
    var kv, rest := kvs[0], kvs[1..];
    forall x ensures x in rest <==> x in kvs && x.key != kv.key {
      if x in kvs {
        var i :| 0 <= i < |kvs| && kvs[i] == x;
        assert i > 0 ==> rest[i - 1] == x;
      }
    }
    forall x ensures x in Contents(rest) <==> x in Entries(m - {kv.key}) {
      assert x in Contents(kvs) <==> x in Entries(m);
      assert x in Entries(m) <==> x.key in m && m[x.key] == x.value;
      assert x in Entries(m - {kv.key}) <==> x.key in m - {kv.key} && m[x.key] == x.value;
    }
  }

  /** Whatever the keys, contents with one root have the same number of pairs. */
  lemma RootDeterminesSize(hash: Hasher, m: KVMap, n: KVMap)
    requires NoCollision(hash, m, n) && RootOfMap(hash, m) == RootOfMap(hash, n)
    ensures |m| == |n|
  {
    RootOfAnyList(hash, ListOf(m), m);
    RootOfAnyList(hash, ListOf(n), n);
    RootBindsSize(hash, ListOf(m), ListOf(n));
    SizeOfList(ListOf(m), m);
    SizeOfList(ListOf(n), n);
  }

  // ---------- the store ----------

  ghost predicate CacheTrue(hash: Hasher, dirty: bool, cached: Digest, contents: KVMap) {
    !dirty ==> cached == RootOfMap(hash, contents)
  }

  datatype SyncOutcome = SyncOk | UpdateFails | MetadataFails | StoreFails

  class Beatree {
    const hash: Hasher
    var disk: KVMap
    var primary: Changeset
    var secondary: Option<Changeset>
    var cachedRoot: Digest
    var rootDirty: bool

    constructor (hash: Hasher, disk: KVMap)
      ensures this.hash == hash && Logical() == disk && Coherent() && secondary.None?
    {
      this.hash, this.disk := hash, disk;
      primary, secondary := map[], None;
      cachedRoot, rootDirty := Terminator(), true;
      new;
      ApplyNothing(disk);
    }

    function Logical(): KVMap
      reads this
    {
      View(disk, secondary, primary)
    }

    /** A clean cache holds the root of the contents. */
    ghost predicate Coherent()
      reads this
    {
      CacheTrue(hash, rootDirty, cachedRoot, Logical())
    }

    method ApplyChangeset(cs: Changeset)
      requires Coherent()
      modifies this`primary, this`rootDirty
      ensures Logical() == Apply(old(Logical()), cs) && Coherent()
    {
      hide Apply, View, RootOfMap;
      StageView(disk, secondary, primary, cs);
      primary := primary + cs;
      if |cs| > 0 {
        rootDirty := true;
      } else {
        NoChanges(old(Logical()), cs);
      }
    }

    /** Moves staged changes to disk. Contents stay the same whether or not it succeeds. */
    method Sync(outcome: SyncOutcome) returns (ok: bool)
      requires Coherent() && secondary.None?
      modifies this`disk, this`primary, this`secondary, this`rootDirty
      ensures Logical() == old(Logical()) && Coherent()
      ensures ok == (|old(primary)| == 0 || outcome == SyncOk)
      ensures ok ==> secondary.None? && |primary| == 0 && disk == Logical()
    {
      hide Apply, View, RootOfMap;
      var cs, merged := primary, Apply(disk, primary);
      SyncView(disk, cs);
      assert Logical() == merged;
      primary, secondary := map[], Some(cs);
      assert Logical() == merged;
      if |cs| == 0 {
        NoChanges(disk, cs);
        secondary := None;
        return true;
      }
      if outcome == UpdateFails {
        return false;
      }
      disk, rootDirty := merged, true;
      assert Logical() == merged;
      if outcome != MetadataFails {
        secondary := None;
      }
      return outcome == SyncOk;
    }

    /** The root of the current contents, from the cache or recomputed. */
    method Root() returns (root: Digest)
      requires Coherent()
      modifies this`cachedRoot, this`rootDirty
      ensures root == RootOfMap(hash, Logical()) && Coherent() && !rootDirty
    {
      if !rootDirty {
        return cachedRoot;
      }
      cachedRoot := RootOfContents(hash, Logical());
      rootDirty := false;
      return cachedRoot;
    }
  }

  /** Enumerates the contents and sorts them by key. */
  method SortedPairs(m: KVMap) returns (kvs: seq<KV>)
    ensures SortedByKey(kvs) && Lists(kvs, m)
  {
    var pairs: seq<KV> := [];
    var rest := m.Keys;
    ghost var done: KVMap := map[];
    assert Entries(done) == {};
    while rest != {}
      invariant rest <= m.Keys && done == m - rest
      invariant Lists(pairs, done)
      decreases |rest|
    {
      ghost var x := Member(rest);
      var k :| k in rest;
      ghost var next := m - (rest - {k});
      assert next - {k} == done;
      ListSnoc(next, k, pairs);
      pairs := pairs + [KV(k, m[k])];
      rest := rest - {k};
      done := next;
    }
    assert done == m;
    var a := new KV[|pairs|](i requires 0 <= i < |pairs| => pairs[i]);
    assert a[..] == pairs;
    ExchangeSort(a);
    kvs := a[..];
    SortedIsDistinct(kvs);
  }

  lemma ListSnoc(m: KVMap, k: KeyPath, init: seq<KV>)
    requires k in m && Lists(init, m - {k})
    ensures Lists(init + [KV(k, m[k])], m)
  {
    var kvs := init + [KV(k, m[k])];
    forall i | 0 <= i < |init| ensures init[i].key != k {
      assert init[i] in Contents(init);
    }
    forall x ensures x in Contents(kvs) <==> x in Entries(m) {
      assert x in Contents(init) <==> x in Entries(m - {k});
      if x in Entries(m) && x.key != k {
        assert x.key in m - {k};
      }
    }
  }

  /** Root hash of contents: the terminator when empty, else the trie over the sorted pairs. */
  method RootOfContents(hash: Hasher, m: KVMap) returns (root: Digest)
    ensures root == RootOfMap(hash, m)
  {
    var kvs := SortedPairs(m);
    RootOfAnyList(hash, kvs, m);
    WholeList(kvs);
    var tree := BuildGpTree(kvs, 0);
    root := HashOf(hash, tree);
  }
}
