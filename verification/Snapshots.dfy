/**
 State snapshots fetched by key ranges: paginated range requests, collection of the ranges
 in any order, deduplication, and the state root of what was collected.
 */
module Snapshots {
  import opened Sums
  import opened GpTree
  import opened GpRoots
  import opened KeyOrder
  import opened Stores
  import opened StateKeys

  datatype StateKV = StateKV(key: StateKey, value: Bytes)

  type StateMap = map<StateKey, Bytes>

  /** The map a list stands for: the first pair of a key wins. */
  function MapOf(kvs: seq<StateKV>): StateMap {
    if kvs == [] then map[]
    else
      var m, kv := MapOf(kvs[..|kvs| - 1]), kvs[|kvs| - 1];
      if kv.key in m then m else m[kv.key := kv.value]
  }

  /** The list without later pairs of a key already seen. */
  function Unique(kvs: seq<StateKV>): seq<StateKV> {
    if kvs == [] then []
    else
      var init, kv := kvs[..|kvs| - 1], kvs[|kvs| - 1];
      if kv.key in MapOf(init) then Unique(init) else Unique(init) + [kv]
  }

  predicate DistinctStateKeys(kvs: seq<StateKV>) {
    forall i, j :: 0 <= i < j < |kvs| ==> kvs[i].key != kvs[j].key
  }

  /** Every pair of the list is in the map. */
  predicate From(kvs: seq<StateKV>, m: StateMap) {
    forall kv :: kv in kvs ==> kv.key in m && m[kv.key] == kv.value
  }

  predicate Mentions(kvs: seq<StateKV>, k: StateKey) {
    exists kv :: kv in kvs && kv.key == k
  }

  lemma {:induction false} MapOfFrom(kvs: seq<StateKV>, m: StateMap)
    requires From(kvs, m)
    ensures forall k :: k in MapOf(kvs) ==> k in m && MapOf(kvs)[k] == m[k]
    ensures forall kv :: kv in kvs ==> kv.key in MapOf(kvs)
    ensures forall k :: k in MapOf(kvs) ==> Mentions(kvs, k)
  {
    if kvs != [] {
      var init, last := kvs[..|kvs| - 1], kvs[|kvs| - 1];
      assert kvs == init + [last];
      MapOfFrom(init, m);
      assert last in kvs;
      forall k | k in MapOf(kvs) ensures Mentions(kvs, k) {
        if k in MapOf(init) {
          var kv :| kv in init && kv.key == k;
          assert kv in kvs;
        }
      }
    }
  }

  lemma MapOfWhole(kvs: seq<StateKV>, m: StateMap)
    requires From(kvs, m) && forall k :: k in m ==> Mentions(kvs, k)
    ensures MapOf(kvs) == m
  {
    MapOfFrom(kvs, m);
  }

  lemma {:induction false} UniqueList(kvs: seq<StateKV>)
    ensures DistinctStateKeys(Unique(kvs)) && From(Unique(kvs), MapOf(kvs))
    ensures forall k :: k in MapOf(kvs) ==> Mentions(Unique(kvs), k)
  {
    if kvs != [] {
      var init, last := kvs[..|kvs| - 1], kvs[|kvs| - 1];
      UniqueList(init);
      var u, v := Unique(init), Unique(kvs);
      if last.key !in MapOf(init) {
        assert forall i :: 0 <= i < |u| ==> u[i] in u;
        forall k | k in MapOf(kvs) ensures Mentions(v, k) {
          if k in MapOf(init) {
            var kv :| kv in u && kv.key == k;
            assert kv in v;
          } else {
            assert last in v;
          }
        }
      }
    }
  }

  method Deduplicate(kvs: seq<StateKV>) returns (unique: seq<StateKV>)
    ensures unique == Unique(kvs)
  {
    unique := [];
    var seen: set<StateKey> := {};
    for i := 0 to |kvs|
      invariant unique == Unique(kvs[..i]) && seen == MapOf(kvs[..i]).Keys
    {
      assert kvs[..i + 1][..i] == kvs[..i];
      if kvs[i].key !in seen {
        seen := seen + {kvs[i].key};
        unique := unique + [kvs[i]];
      }
    }
    assert kvs[..|kvs|] == kvs;
  }

  // ---------- the state root ----------

  /** Keys are padded to 32 bytes with a zero. */
  function Pad(k: StateKey): KeyPath {
    k + [0]
  }

  lemma PadInjective(a: StateKey, b: StateKey)
    requires Pad(a) == Pad(b)
    ensures a == b
  {
    assert a == Pad(a)[..31] && b == Pad(b)[..31];
  }

  function PadAll(kvs: seq<StateKV>): seq<KV> {
    seq(|kvs|, i requires 0 <= i < |kvs| => KV(Pad(kvs[i].key), kvs[i].value))
  }

  /** The padded keys come from keys of the map and carry their values. */
  ghost predicate IsPadded(p: KVMap, m: StateMap) {
    && (forall k :: k in m ==> Pad(k) in p && p[Pad(k)] == m[k])
    && (forall q :: q in p ==> q[..31] in m && q == Pad(q[..31]))
  }

  function PadMap(m: StateMap): (p: KVMap)
    ensures IsPadded(p, m)
  {
    var p: KVMap := map q | q in (set k | k in m :: Pad(k)) :: m[q[..31]];
    assert forall k :: k in m ==> Pad(k)[..31] == k;
    p
  }

  lemma PadMapInjective(m: StateMap, n: StateMap)
    requires PadMap(m) == PadMap(n)
    ensures m == n
  {
    forall k ensures k in m <==> k in n {
      assert Pad(k)[..31] == k;
      if k in m {
        assert Pad(k) in PadMap(n);
      }
      if k in n {
        assert Pad(k) in PadMap(m);
      }
    }
    forall k | k in m ensures m[k] == n[k] {
      assert PadMap(m)[Pad(k)] == PadMap(n)[Pad(k)];
    }
  }

  ghost function SnapshotRoot(hash: Hasher, m: StateMap): Digest {
    RootOfMap(hash, PadMap(m))
  }

  lemma PadAllLists(kvs: seq<StateKV>)
    ensures Lists(PadAll(Unique(kvs)), PadMap(MapOf(kvs)))
  {
    UniqueList(kvs);
    PadAllDistinct(Unique(kvs));
    PadAllContents(Unique(kvs), MapOf(kvs));
  }

  lemma PadAllDistinct(u: seq<StateKV>)
    requires DistinctStateKeys(u)
    ensures DistinctKeys(PadAll(u))
  {
    var p := PadAll(u);
    forall i, j | 0 <= i < j < |p| ensures p[i].key != p[j].key {
      if p[i].key == p[j].key {
        PadInjective(u[i].key, u[j].key);
      }
    }
  }

  lemma PadAllContents(u: seq<StateKV>, m: StateMap)
    requires From(u, m) && forall k :: k in m ==> Mentions(u, k)
    ensures Contents(PadAll(u)) == Entries(PadMap(m))
  {
    var p := PadAll(u);
    forall x | x in Contents(p) ensures x in Entries(PadMap(m)) {
      var i :| 0 <= i < |p| && p[i] == x;
      assert u[i] in u;
    }
    forall x | x in Entries(PadMap(m)) ensures x in Contents(p) {
      var kv :| kv in u && kv.key == x.key[..31];
      var i :| 0 <= i < |u| && u[i] == kv;
      assert p[i] == x;
    }
  }

  /** Deduplicates, sorts, pads and hashes: the root is that of the map the list stands for. */
  method ComputeStateRoot(hash: Hasher, kvs: seq<StateKV>) returns (root: Digest)
    ensures root == SnapshotRoot(hash, MapOf(kvs))
  {
    var unique := Deduplicate(kvs);
    var pairs := PadAll(unique);
    PadAllLists(kvs);
    var a := new KV[|pairs|](i requires 0 <= i < |pairs| => pairs[i]);
    assert a[..] == pairs;
    ExchangeSort(a);
    SortedIsDistinct(a[..]);
    WholeList(a[..]);
    RootOfAnyList(hash, a[..], PadMap(MapOf(kvs)));
    var tree := BuildGpTree(a[..], 0);
    root := HashOf(hash, tree);
  }

  /** Lists with the same pairs, in any order and with any repetition, stand for the same map. */
  lemma MapOfAnyOrder(a: seq<StateKV>, b: seq<StateKV>, m: StateMap)
    requires From(a, m) && From(b, m) && forall kv :: kv in a <==> kv in b
    ensures MapOf(a) == MapOf(b)
  {
    MapOfFrom(a, m);
    MapOfFrom(b, m);
  }

  /** Without a collision, snapshots have the same root exactly when they hold the same state. */
  lemma SnapshotRootBinds(hash: Hasher, a: seq<StateKV>, b: seq<StateKV>)
    requires NoCollision(hash, PadMap(MapOf(a)), PadMap(MapOf(b)))
    ensures SnapshotRoot(hash, MapOf(a)) == SnapshotRoot(hash, MapOf(b)) <==> MapOf(a) == MapOf(b)
  {
    PaddedAreTold();
    RootDeterminesContents(hash, PadMap(MapOf(a)), PadMap(MapOf(b)), PaddedKeys());
    if SnapshotRoot(hash, MapOf(a)) == SnapshotRoot(hash, MapOf(b)) {
      PadMapInjective(MapOf(a), MapOf(b));
    }
  }

  // ---------- pagination ----------

  /** The pairs of a state with keys between two keys, both included. */
  ghost predicate IsRange(kvs: seq<StateKV>, m: StateMap, start: StateKey, end: StateKey) {
    && From(kvs, m)
    && (forall kv :: kv in kvs ==> Within(kv.key, start, end))
    && (forall k :: k in m && Within(k, start, end) ==> Mentions(kvs, k))
  }

  /** An answer to a page request: pairs from the start on without gaps, and some if there are any. */
  ghost predicate HonestPage(page: seq<StateKV>, m: StateMap, start: StateKey, end: StateKey) {
    if page == [] then IsRange(page, m, start, end)
    else Within(page[|page| - 1].key, start, end) && IsRange(page, m, start, page[|page| - 1].key)
  }

  /** All pairs from the first key up to, but not with, the present start. */
  ghost predicate Collected(acc: seq<StateKV>, m: StateMap, first: StateKey, start: StateKey) {
    && From(acc, m)
    && (forall kv :: kv in acc ==> !Less(kv.key, first) && Less(kv.key, start))
    && (forall k :: k in m && !Less(k, first) && Less(k, start) ==> Mentions(acc, k))
  }

  lemma MentionsAppend(a: seq<StateKV>, b: seq<StateKV>, k: StateKey)
    ensures Mentions(a + b, k) <==> Mentions(a, k) || Mentions(b, k)
  {
    if Mentions(a, k) {
      var kv :| kv in a && kv.key == k;
      assert kv in a + b;
    }
    if Mentions(b, k) {
      var kv :| kv in b && kv.key == k;
      assert kv in a + b;
    }
  }

  lemma JoinPages(acc: seq<StateKV>, page: seq<StateKV>, m: StateMap, first: StateKey, start: StateKey, last: StateKey)
    requires Collected(acc, m, first, start) && IsRange(page, m, start, last)
    requires !Less(start, first) && !Less(last, start)
    ensures IsRange(acc + page, m, first, last)
  {
    forall kv | kv in acc + page ensures Within(kv.key, first, last) {
      Ordered(kv.key, first, start, last);
    }
    forall k | k in m && Within(k, first, last) ensures Mentions(acc + page, k) {
      MentionsAppend(acc, page, k);
    }
  }

  lemma Ordered(k: StateKey, first: StateKey, start: StateKey, last: StateKey)
    requires !Less(start, first) && !Less(last, start)
    ensures Within(k, start, last) ==> Within(k, first, last)
    ensures !Less(k, first) && Less(k, start) ==> Within(k, first, last)
  {
    LessIsValue(k, first);
    LessIsValue(k, start);
    LessIsValue(start, first);
    LessIsValue(last, start);
    LessIsValue(last, k);
  }

  /** The successor of the last key of a page is where the next page begins: nothing lies between. */
  lemma NextPage(acc: seq<StateKV>, m: StateMap, first: StateKey, last: StateKey, next: StateKey)
    requires IsRange(acc, m, first, last) && Value(next) == Value(last) + 1
    ensures Collected(acc, m, first, next)
  {
    forall k: StateKey ensures Less(k, next) <==> !Less(last, k) {
      LessIsValue(k, next);
      LessIsValue(last, k);
    }
  }

  ghost predicate HonestPeer(serve: StateKey -> seq<StateKV>, m: StateMap, end: StateKey) {
    forall s: StateKey :: !Less(end, s) ==> HonestPage(serve(s), m, s, end)
  }

  /** Where a request for a range stands before its next page. */
  ghost predicate Progress(acc: seq<StateKV>, m: StateMap, first: StateKey, start: StateKey, end: StateKey) {
    Collected(acc, m, first, start) && !Less(start, first) && !Less(end, start)
  }

  lemma BeginRange(m: StateMap, start: StateKey, end: StateKey)
    requires !Less(end, start)
    ensures Progress([], m, start, start, end)
  {
    LessTrichotomy(start, start);
  }

  lemma FinishRange(acc: seq<StateKV>, page: seq<StateKV>, m: StateMap, first: StateKey, start: StateKey, end: StateKey)
    requires Progress(acc, m, first, start, end) && HonestPage(page, m, start, end)
    requires page == [] || !Less(page[|page| - 1].key, end)
    ensures IsRange(acc + page, m, first, end)
  {
    if page != [] {
      LessTrichotomy(page[|page| - 1].key, end);
    }
    JoinPages(acc, page, m, first, start, end);
  }

  lemma ContinueRange(
    acc: seq<StateKV>, page: seq<StateKV>, m: StateMap, first: StateKey, start: StateKey, end: StateKey, next: StateKey)
    requires Progress(acc, m, first, start, end) && HonestPage(page, m, start, end)
    requires page != [] && Less(page[|page| - 1].key, end) && Value(next) == Value(page[|page| - 1].key) + 1
    ensures Progress(acc + page, m, first, next, end) && Less(start, next)
  {
    var last := page[|page| - 1].key;
    JoinPages(acc, page, m, first, start, last);
    NextPage(acc + page, m, first, last, next);
    NextStays(start, last, next, end, first);
  }

  /**
   Requests pages until one reaches the end of the range. It always stops; a peer that
   does not move forward is an error, and from an honest peer it gets exactly the range.
   */
  method FetchStatePaginated(serve: StateKey -> seq<StateKV>, start: StateKey, end: StateKey, ghost m: StateMap)
    returns (kvs: seq<StateKV>, ok: bool)
    requires !Less(end, start)
    ensures HonestPeer(serve, m, end) ==> ok && IsRange(kvs, m, start, end)
  {
    ghost var honest := HonestPeer(serve, m, end);
    var current := start;
    kvs := [];
    BeginRange(m, start, end);
    while true
      invariant honest ==> Progress(kvs, m, start, current, end)
      decreases MaxOf() - Value(current)
    {
      var page := serve(current);
      ghost var before := kvs;
      kvs := kvs + page;
      if page == [] || !Less(page[|page| - 1].key, end) {
        if honest {
          FinishRange(before, page, m, start, current, end);
        }
        return kvs, true;
      }
      // A key below the end of the range has a successor.
      KeyBelowMax(page[|page| - 1].key, end);
      var next, more := IncrementKey(page[|page| - 1].key);
      if honest {
        ContinueRange(before, page, m, start, current, end, next);
      }
      if !Less(current, next) {
        return kvs, false;
      }
      LessIsValue(current, next);
      BelowMax(next);
      current := next;
    }
  }

  ghost function MaxOf(): nat {
    Value(MakeKeyMax())
  }

  lemma BelowMax(k: StateKey)
    ensures Value(k) <= MaxOf()
  {
    MaxValue(MakeKeyMax(), k);
  }

  /** A key below another one is not the last key. */
  lemma KeyBelowMax(k: StateKey, end: StateKey)
    requires Less(k, end)
    ensures exists i :: 0 <= i < 31 && k[i] != 255
  {
    if forall i :: 0 <= i < 31 ==> k[i] == 255 {
      MaxValue(k, end);
      LessIsValue(k, end);
    }
  }

  lemma NextStays(current: StateKey, last: StateKey, next: StateKey, end: StateKey, start: StateKey)
    requires Less(last, end) && Value(next) == Value(last) + 1 && !Less(current, start)
    ensures !Less(end, next)
    ensures !Less(last, current) ==> Less(current, next)
    ensures Less(current, next) ==> !Less(next, start)
  {
    LessIsValue(last, end);
    LessIsValue(end, next);
    LessIsValue(last, current);
    LessIsValue(current, next);
    LessIsValue(current, start);
    LessIsValue(next, start);
  }

  // ---------- all ranges ----------

  /** The part of a state that lies in the given ranges. */
  function Restrict(m: StateMap, ranges: set<Byte>): StateMap {
    map k | k in m && exists i :: i in ranges && InRange(k, i) :: m[k]
  }

  ghost predicate HonestResults(results: map<Byte, seq<StateKV>>, m: StateMap) {
    forall i :: i in results ==> IsRange(results[i], m, MakeKey(i), RangeEnd(i))
  }

  /** The list holds exactly the pairs of the ranges gathered so far. */
  ghost predicate Gathered(kvs: seq<StateKV>, m: StateMap, ranges: set<Byte>) {
    && From(kvs, m)
    && (forall kv :: kv in kvs ==> exists i :: i in ranges && InRange(kv.key, i))
    && (forall k, i :: k in m && i in ranges && InRange(k, i) ==> Mentions(kvs, k))
  }

  lemma MapOfRanges(kvs: seq<StateKV>, m: StateMap, ranges: set<Byte>)
    requires Gathered(kvs, m, ranges)
    ensures MapOf(kvs) == Restrict(m, ranges)
  {
    var r := Restrict(m, ranges);
    forall kv | kv in kvs ensures kv.key in r && r[kv.key] == kv.value {
      assert exists i :: i in ranges && InRange(kv.key, i);
    }
    forall k | k in r ensures Mentions(kvs, k) {
      var i :| i in ranges && InRange(k, i);
    }
    MapOfWhole(kvs, r);
  }

  /** The list joins the results of these ranges: nothing else is in it, and nothing is missing. */
  ghost predicate Joined(kvs: seq<StateKV>, results: map<Byte, seq<StateKV>>, ranges: set<Byte>)
    requires ranges <= results.Keys
  {
    forall kv :: kv in kvs <==> exists i :: i in ranges && kv in results[i]
  }

  lemma JoinOneMore(kvs: seq<StateKV>, results: map<Byte, seq<StateKV>>, ranges: set<Byte>, i: Byte)
    requires ranges <= results.Keys && i in results && Joined(kvs, results, ranges)
    ensures Joined(kvs + results[i], results, ranges + {i})
  {
    forall kv ensures kv in kvs + results[i] <==> exists j :: j in ranges + {i} && kv in results[j] {
      if kv in kvs {
        var j :| j in ranges && kv in results[j];
        assert j in ranges + {i};
      }
      if kv in results[i] {
        assert i in ranges + {i};
      }
    }
  }

  /** Joined honest ranges hold exactly the pairs of the state that lie in them. */
  lemma JoinedIsGathered(kvs: seq<StateKV>, results: map<Byte, seq<StateKV>>, m: StateMap)
    requires Joined(kvs, results, results.Keys) && HonestResults(results, m)
    ensures Gathered(kvs, m, results.Keys)
  {
    forall kv | kv in kvs
      ensures kv.key in m && m[kv.key] == kv.value && exists i :: i in results.Keys && InRange(kv.key, i)
    {
      var i :| i in results.Keys && kv in results[i];
      assert IsRange(results[i], m, MakeKey(i), RangeEnd(i));
    }
    forall k, i | k in m && i in results.Keys && InRange(k, i) ensures Mentions(kvs, k) {
      assert IsRange(results[i], m, MakeKey(i), RangeEnd(i));
      var kv :| kv in results[i] && kv.key == k;
      assert kv in kvs;
    }
  }

  /**
   Joins the fetched ranges in whatever order they are taken up and keeps one pair per key,
   whatever the peers answered; from honest peers that is the state in the ranges.
   */
  method FetchStates(results: map<Byte, seq<StateKV>>, ghost m: StateMap) returns (snapshot: seq<StateKV>, ok: bool)
    ensures DistinctStateKeys(snapshot) && (ok <==> snapshot != [])
    ensures forall kv :: kv in snapshot ==> exists i :: i in results && kv in results[i]
    ensures forall i, kv :: i in results && kv in results[i] ==> Mentions(snapshot, kv.key)
    ensures HonestResults(results, m) ==> MapOf(snapshot) == Restrict(m, results.Keys)
  {
    var kvs: seq<StateKV> := [];
    var rest := results.Keys;
    ghost var done: set<Byte> := {};
    while rest != {}
      invariant rest <= results.Keys && done == results.Keys - rest
      invariant Joined(kvs, results, done)
      decreases |rest|
    {
      ghost var some := Member(rest);
      var i :| i in rest;
      JoinOneMore(kvs, results, done, i);
      kvs := kvs + results[i];
      rest := rest - {i};
      done := done + {i};
    }
    assert done == results.Keys;
    snapshot := Deduplicate(kvs);
    UniqueKeepsMap(kvs);
    UniqueOfList(kvs);
    if HonestResults(results, m) {
      JoinedIsGathered(kvs, results, m);
      MapOfRanges(kvs, m, results.Keys);
    }
    ok := snapshot != [];
  }

  /** Deduplication drops only pairs whose key stays. */
  lemma {:induction false} UniqueOfList(kvs: seq<StateKV>)
    ensures DistinctStateKeys(Unique(kvs))
    ensures forall kv :: kv in Unique(kvs) ==> kv in kvs
    ensures forall kv :: kv in kvs ==> Mentions(Unique(kvs), kv.key)
  {
    UniqueList(kvs);
    UniqueMembers(kvs);
    forall kv | kv in kvs ensures Mentions(Unique(kvs), kv.key) {
      assert kv.key in MapOf(kvs);
    }
  }

  lemma {:induction false} UniqueMembers(kvs: seq<StateKV>)
    ensures forall kv :: kv in Unique(kvs) ==> kv in kvs
    ensures forall kv :: kv in kvs ==> kv.key in MapOf(kvs)
  {
    if kvs != [] {
      var init, last := kvs[..|kvs| - 1], kvs[|kvs| - 1];
      UniqueMembers(init);
      assert kvs == init + [last];
    }
  }

  lemma UniqueKeepsMap(kvs: seq<StateKV>)
    ensures MapOf(Unique(kvs)) == MapOf(kvs)
    ensures Unique(kvs) == [] <==> MapOf(kvs) == map[]
  {
    UniqueList(kvs);
    MapOfWhole(Unique(kvs), MapOf(kvs));
    if Unique(kvs) != [] {
      assert Unique(kvs)[0] in Unique(kvs);
    }
  }

  /** A key of range i that is in no other range. */
  function InnerKey(i: Byte): StateKey {
    [i] + Zeros(29) + [1]
  }

  /** Without range i a state with such a key is cut down to nothing. */
  lemma MissingRangeLosesKey(ranges: set<Byte>, i: Byte)
    requires i !in ranges
    ensures Restrict(map[InnerKey(i) := []], ranges) == map[]
  {
    forall j | j in ranges ensures !InRange(InnerKey(i), j) {
      RangeKeys(InnerKey(i), j);
      if j < 255 {
        assert InnerKey(i)[30] == 1 && MakeKey(j + 1)[30] == 0;
      }
    }
  }

  /**
   A fetch gets every state whole exactly if all 256 ranges were answered. A failed range
   is only reported, so otherwise some state comes back silently as a part of itself.
   */
  lemma CompleteFetch(ranges: set<Byte>)
    ensures (forall m: StateMap :: Restrict(m, ranges) == m) <==> forall i: Byte :: i in ranges
  {
    if forall i: Byte :: i in ranges {
      forall m: StateMap ensures Restrict(m, ranges) == m {
        forall k | k in m ensures exists i :: i in ranges && InRange(k, i) {
          RangesCover(k, 0, 1);
          assert k[0] in ranges;
        }
      }
    } else {
      var i: Byte :| i !in ranges;
      MissingRangeLosesKey(ranges, i);
      var m: StateMap := map[InnerKey(i) := []];
      assert InnerKey(i) in m;
      assert Restrict(m, ranges) != m;
    }
  }
}
