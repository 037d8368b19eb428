/**
 The state index of the fuzz target: a cache from header to state root pruned by slot and
 backed by a persistent map, and a two-level index of exported segments that is garbage
 collected in the same pass.
 */
module StateCache {
  import opened Options
  import opened Sums

  type Hash = int
  type Segments = seq<seq<int>>

  const ZERO_HASH: Hash := 0
  const PRUNE_DEPTH: int := 64
  const PRUNE_INTERVAL: int := 32
  const SLOTS: int := 0x1_0000_0000

  /** A hash stored at a slot: a state root, or the key of exported segments. */
  datatype Entry = Entry(hash: Hash, slot: int)

  datatype State = State(
    ready: bool,
    cache: map<Hash, Entry>,
    persisted: map<Hash, Hash>,
    lookup: map<Hash, Entry>,
    data: map<Hash, Segments>,
    lastPruned: int)

  const EMPTY: State := State(false, map[], map[], map[], map[], 0)

  /** The requests that change the index; `ok` is the outcome of the work they ask for. */
  datatype Request =
    | Initialize(header: Hash, slot: int, root: Hash, ok: bool)
    | SetState(header: Hash, slot: int, root: Hash, ok: bool)
    | ImportBlock(header: Hash, slot: int, root: Hash, ok: bool)
    | StoreExports(package: Hash, exportsRoot: Hash, segments: Segments, slot: int)

  /** The tagged package hash is cropped to its last 32 bytes, which are the package hash. */
  function SegmentsHash(package: Hash): Hash {
    package
  }

  function Remember(s: State, header: Hash, slot: int, root: Hash): State {
    s.(ready := true, cache := s.cache[header := Entry(root, slot)], persisted := s.persisted[header := root])
  }

  function Recent(m: map<Hash, Entry>, cutoff: int): map<Hash, Entry> {
    map h | h in m && m[h].slot >= cutoff :: m[h]
  }

  function Referenced(lookup: map<Hash, Entry>): set<Hash> {
    set h | h in lookup :: lookup[h].hash
  }

  function Cutoff(slot: int): int {
    if slot > PRUNE_DEPTH then slot - PRUNE_DEPTH else 0
  }

  /** 32-bit sum: near the last slot it wraps and the pass is not skipped. */
  predicate TooSoon(s: State, slot: int) {
    slot < (s.lastPruned + PRUNE_INTERVAL) % SLOTS
  }

  function Pruned(s: State, slot: int): State {
    if TooSoon(s, slot) then s
    else
      var lookup := Recent(s.lookup, Cutoff(slot));
      s.(cache := Recent(s.cache, Cutoff(slot)), lookup := lookup,
         data := map h | h in s.data && h in Referenced(lookup) :: s.data[h], lastPruned := slot)
  }

  function Stored(s: State, package: Hash, exportsRoot: Hash, segments: Segments, slot: int): State {
    var entry := Entry(SegmentsHash(package), slot);
    var lookup := s.lookup[package := entry];
    s.(data := s.data[SegmentsHash(package) := segments],
       lookup := if exportsRoot == ZERO_HASH then lookup else lookup[exportsRoot := entry])
  }

  function Step(s: State, r: Request): State {
    match r
    case Initialize(header, slot, root, ok) =>
      var s := if slot < s.lastPruned then s.(lastPruned := 0) else s;
      if ok then Remember(s, header, slot, root) else s
    case SetState(header, slot, root, ok) =>
      var s := s.(cache := map[], lastPruned := 0);
      if ok then Remember(s, header, slot, root) else s
    case ImportBlock(header, slot, root, ok) =>
      if s.ready && ok then Pruned(Remember(s, header, slot, root), slot) else s
    case StoreExports(package, exportsRoot, segments, slot) => Stored(s, package, exportsRoot, segments, slot)
  }

  /** The root a state request resolves: cached if there, else persisted; never the zero hash. */
  function Resolve(s: State, header: Hash): Option<Hash> {
    if header in s.cache && s.cache[header].hash != ZERO_HASH then Some(s.cache[header].hash)
    else if header in s.persisted && s.persisted[header] != ZERO_HASH then Some(s.persisted[header])
    else None
  }

  function FindExports(s: State, request: Hash): Option<Segments> {
    if request in s.lookup && s.lookup[request].hash in s.data then Some(s.data[s.lookup[request].hash]) else None
  }

  // ---------- runs ----------

  function Run(requests: seq<Request>): State {
    if requests == [] then EMPTY else Step(Run(requests[..|requests| - 1]), requests[|requests| - 1])
  }

  /** Whether a request stores a root for its header, given the requests before it. */
  predicate Stores(before: seq<Request>, r: Request) {
    match r
    case Initialize(_, _, _, ok) => ok
    case SetState(_, _, _, ok) => ok
    case ImportBlock(_, _, _, ok) => ok && exists q :: q in before && (q.Initialize? || q.SetState?) && q.ok
    case StoreExports(_, _, _, _) => false
  }

  /** The last root stored for a header in the session, read off the requests alone. */
  function LastStored(requests: seq<Request>, header: Hash): Option<Hash> {
    if requests == [] then None
    else
      var before, r := requests[..|requests| - 1], requests[|requests| - 1];
      if Stores(before, r) && r.header == header then Some(r.root) else LastStored(before, header)
  }

  function LastExported(requests: seq<Request>, package: Hash): Option<Segments> {
    if requests == [] then None
    else
      var r := requests[|requests| - 1];
      if r.StoreExports? && r.package == package then Some(r.segments)
      else LastExported(requests[..|requests| - 1], package)
  }

  /** The cache never disagrees with the persistent map. */
  predicate CacheAgrees(s: State) {
    forall h :: h in s.cache ==> h in s.persisted && s.cache[h].hash == s.persisted[h]
  }

  lemma StepAgrees(s: State, r: Request)
    requires CacheAgrees(s)
    ensures CacheAgrees(Step(s, r))
  {
  }

  lemma StepPersists(s: State, r: Request, header: Hash)
    ensures var t := Step(s, r);
      var stores := !r.StoreExports? && r.ok && (r.ImportBlock? ==> s.ready) && r.header == header;
      (header in t.persisted <==> stores || header in s.persisted)
        && (header in t.persisted ==> t.persisted[header] == if stores then r.root else s.persisted[header])
  {
  }

  lemma {:induction false} ReadyRun(requests: seq<Request>)
    ensures Run(requests).ready <==> exists q :: q in requests && (q.Initialize? || q.SetState?) && q.ok
  {
    if requests != [] {
      var before, r := requests[..|requests| - 1], requests[|requests| - 1];
      ReadyRun(before);
      assert requests == before + [r];
      if (r.Initialize? || r.SetState?) && r.ok {
        assert r in requests;
      }
      forall q | q in before ensures q in requests {
      }
    }
  }

  lemma {:induction false} PersistedIsLast(requests: seq<Request>, header: Hash)
    ensures var s := Run(requests);
      CacheAgrees(s) && LastStored(requests, header) == if header in s.persisted then Some(s.persisted[header]) else None
  {
    if requests != [] {
      var before, r := requests[..|requests| - 1], requests[|requests| - 1];
      PersistedIsLast(before, header);
      ReadyRun(before);
      StepAgrees(Run(before), r);
      StepPersists(Run(before), r, header);
    }
  }

  /**
   Pruning is invisible: in every session the root resolved for a header is the last one
   stored for it, and none exactly when none was stored or the last one is the zero hash.
   */
  lemma ResolvesLastStored(requests: seq<Request>, header: Hash)
    ensures Resolve(Run(requests), header)
      == (if LastStored(requests, header) == Some(ZERO_HASH) then None else LastStored(requests, header))
  {
    PersistedIsLast(requests, header);
  }

  /** Every lookup entry has its data, and the data are the last ones stored for the package. */
  predicate ExportsSound(requests: seq<Request>, s: State) {
    && (forall h :: h in s.lookup ==> s.lookup[h].hash in s.data)
    && (forall p :: p in s.data ==> LastExported(requests, p) == Some(s.data[p]))
  }

  lemma PrunedExports(requests: seq<Request>, s: State, slot: int)
    requires ExportsSound(requests, s)
    ensures ExportsSound(requests, Pruned(s, slot))
  {
    var lookup := Recent(s.lookup, Cutoff(slot));
    forall h | h in lookup ensures lookup[h].hash in Referenced(lookup) {
    }
  }

  lemma {:induction false} ExportsHaveData(requests: seq<Request>)
    ensures ExportsSound(requests, Run(requests))
  {
    if requests != [] {
      var before, r := requests[..|requests| - 1], requests[|requests| - 1];
      var s := Run(before);
      ExportsHaveData(before);
      forall p | p in s.data && !(r.StoreExports? && r.package == p) ensures LastExported(requests, p) == Some(s.data[p]) {
      }
      if r.ImportBlock? && s.ready && r.ok {
        PrunedExports(requests, Remember(s, r.header, r.slot, r.root), r.slot);
      }
    }
  }

  /** A pass that is not skipped keeps exactly the recent entries and exactly the referenced data. */
  lemma PruneKeepsReferenced(requests: seq<Request>, slot: int)
    requires !TooSoon(Run(requests), slot)
    ensures var s, t := Run(requests), Pruned(Run(requests), slot);
      && t.data.Keys == Referenced(t.lookup)
      && (forall h :: h in t.lookup <==> h in s.lookup && s.lookup[h].slot >= Cutoff(slot))
      && (forall h :: h in t.lookup ==> FindExports(t, h) == FindExports(s, h) != None)
  {
    ExportsHaveData(requests);
    var s, t := Run(requests), Pruned(Run(requests), slot);
    forall p ensures p in t.data <==> p in Referenced(t.lookup) {
      if p in Referenced(t.lookup) {
        var h :| h in t.lookup && t.lookup[h].hash == p;
        assert s.lookup[h].hash in s.data;
      }
    }
  }

  /** The key leads to segments stored for the package at the slot. */
  predicate Leads(s: State, key: Hash, package: Hash, segments: Segments, slot: int) {
    && key in s.lookup && s.lookup[key] == Entry(SegmentsHash(package), slot)
    && SegmentsHash(package) in s.data && s.data[SegmentsHash(package)] == segments
  }

  /** A request that stores nothing for the key or the package, and imports no block over 64 slots later. */
  predicate Spares(r: Request, key: Hash, package: Hash, slot: int) {
    match r
    case ImportBlock(_, later, _, ok) => ok ==> later <= slot + 64
    case StoreExports(other, otherRoot, _, _) => other != package && other != key && otherRoot != key
    case _ => true
  }

  lemma StepLeads(s: State, r: Request, key: Hash, package: Hash, segments: Segments, slot: int)
    requires Leads(s, key, package, segments, slot) && Spares(r, key, package, slot) && slot >= 0
    ensures Leads(Step(s, r), key, package, segments, slot)
  {
    if r.ImportBlock? && s.ready && r.ok {
      assert key in Recent(s.lookup, Cutoff(r.slot));
    }
  }

  lemma {:induction false} SparedLeads(
    before: seq<Request>, later: seq<Request>, key: Hash, package: Hash, segments: Segments, slot: int)
    requires Leads(Run(before), key, package, segments, slot) && slot >= 0
    requires forall i :: 0 <= i < |later| ==> Spares(later[i], key, package, slot)
    ensures Leads(Run(before + later), key, package, segments, slot)
    decreases |later|
  {
    hide Leads, Spares, Step;
    if later == [] {
      assert before + later == before;
    } else {
      var n := |later| - 1;
      SparedLeads(before, later[..n], key, package, segments, slot);
      assert (before + later)[..|before| + n] == before + later[..n];
      StepLeads(Run(before + later[..n]), later[n], key, package, segments, slot);
    }
  }

  /**
   Stored segments are found, under the package and under its nonzero exports root, in every
   session until others are stored there or a block over 64 slots later is imported.
   */
  lemma StoredExportsFound(
    before: seq<Request>, package: Hash, exportsRoot: Hash, segments: Segments, slot: int, later: seq<Request>, key: Hash)
    requires slot >= 0 && (key == package || (key == exportsRoot && exportsRoot != ZERO_HASH))
    requires forall i :: 0 <= i < |later| ==> Spares(later[i], key, package, slot)
    ensures FindExports(Run(before + [StoreExports(package, exportsRoot, segments, slot)] + later), key) == Some(segments)
  {
    var stored := before + [StoreExports(package, exportsRoot, segments, slot)];
    assert stored[..|before|] == before;
    assert Leads(Run(stored), key, package, segments, slot);
    SparedLeads(stored, later, key, package, segments, slot);
  }

  /** A pass over 64 slots later drops them: afterwards the key finds nothing. */
  lemma OldExportsDropped(s: State, key: Hash, package: Hash, segments: Segments, slot: int, later: int)
    requires Leads(s, key, package, segments, slot) && 0 <= slot && slot + 64 < later && !TooSoon(s, later)
    ensures FindExports(Pruned(s, later), key) == None
  {
  }

  /** While the sum does not wrap, a pass runs exactly if the last one was at least 32 slots ago. */
  lemma PassInterval(s: State, slot: int)
    requires 0 <= s.lastPruned && s.lastPruned + 32 < 0x1_0000_0000
    ensures !TooSoon(s, slot) <==> slot - s.lastPruned >= 32
    ensures !TooSoon(s, slot) ==> Pruned(s, slot).lastPruned == slot
    ensures TooSoon(s, slot) ==> Pruned(s, slot) == s
  {
  }

  /** Initializing leaves no prune mark after its slot, and keeps one that is not. */
  lemma InitializeMark(s: State, header: Hash, slot: int, root: Hash, ok: bool)
    requires slot >= 0
    ensures var t := Step(s, Initialize(header, slot, root, ok));
      t.lastPruned <= slot && t.lastPruned == if s.lastPruned <= slot then s.lastPruned else 0
  {
  }

  /** Setting a state forgets every other cached one, and the next import from slot 32 on prunes. */
  lemma SetStateForgets(s: State, header: Hash, slot: int, root: Hash, ok: bool, later: int)
    ensures var t := Step(s, SetState(header, slot, root, ok));
      t.cache == (if ok then map[header := Entry(root, slot)] else map[]) && (!TooSoon(t, later) <==> later >= 32)
  {
  }

  // ---------- the target ----------

  class Target {
    var ready: bool
    var cache: map<Hash, Entry>
    var persisted: map<Hash, Hash>
    var lookup: map<Hash, Entry>
    var data: map<Hash, Segments>
    var lastPruned: int

    ghost function View(): State
      reads this
    {
      State(ready, cache, persisted, lookup, data, lastPruned)
    }

    constructor ()
      ensures View() == EMPTY
    {
      ready, cache, persisted, lookup, data, lastPruned := false, map[], map[], map[], map[], 0;
    }

    method Store(header: Hash, slot: int, root: Hash)
      modifies this`ready, this`cache, this`persisted
      ensures View() == Remember(old(View()), header, slot, root)
    {
      ready := true;
      cache := cache[header := Entry(root, slot)];
      persisted := persisted[header := root];
    }

    method OnInitialize(header: Hash, slot: int, root: Hash, ok: bool)
      modifies this
      ensures View() == Step(old(View()), Initialize(header, slot, root, ok))
    {
      if slot < lastPruned {
        lastPruned := 0;
      }
      if ok {
        Store(header, slot, root);
      }
    }

    method OnSetState(header: Hash, slot: int, root: Hash, ok: bool)
      modifies this
      ensures View() == Step(old(View()), SetState(header, slot, root, ok))
    {
      cache := map[];
      lastPruned := 0;
      if ok {
        Store(header, slot, root);
      }
    }

    method OnImportBlock(header: Hash, slot: int, root: Hash, ok: bool)
      modifies this
      ensures View() == Step(old(View()), ImportBlock(header, slot, root, ok))
    {
      if !ready || !ok {
        return;
      }
      Store(header, slot, root);
      PruneOldStates(slot);
    }

    method OnGetState(header: Hash) returns (root: Option<Hash>)
      ensures root == Resolve(View(), header)
    {
      if header in cache && cache[header].hash != ZERO_HASH {
        return Some(cache[header].hash);
      }
      if header !in persisted || persisted[header] == ZERO_HASH {
        return None;
      }
      return Some(persisted[header]);
    }

    method StoreExportedSegments(package: Hash, exportsRoot: Hash, segments: Segments, slot: int)
      modifies this`lookup, this`data
      ensures View() == Step(old(View()), StoreExports(package, exportsRoot, segments, slot))
    {
      var key := SegmentsHash(package);
      data := data[key := segments];
      lookup := lookup[package := Entry(key, slot)];
      if exportsRoot != ZERO_HASH {
        lookup := lookup[exportsRoot := Entry(key, slot)];
      }
    }

    method GetExportedSegments(request: Hash) returns (segments: Option<Segments>)
      ensures segments == FindExports(View(), request)
    {
      if request !in lookup || lookup[request].hash !in data {
        return None;
      }
      return Some(data[lookup[request].hash]);
    }

    method PruneOldStates(slot: int)
      modifies this`cache, this`lookup, this`data, this`lastPruned
      ensures View() == Pruned(old(View()), slot)
    {
      if slot < (lastPruned + PRUNE_INTERVAL) % SLOTS {
        return;
      }
      var cutoff := if slot > PRUNE_DEPTH then slot - PRUNE_DEPTH else 0;
      lastPruned := slot;
      cache := DropOld(cache, cutoff);
      lookup := DropOld(lookup, cutoff);
      data := DropUnreferenced(data, lookup);
    }
  }

  /** Deletes entries below the cutoff while walking the map. */
  method DropOld(m: map<Hash, Entry>, cutoff: int) returns (kept: map<Hash, Entry>)
    ensures kept == Recent(m, cutoff)
  {
    kept := m;
    var rest := m.Keys;
    while rest != {}
      invariant rest <= m.Keys
      invariant kept == map h | h in m && (h in rest || m[h].slot >= cutoff) :: m[h]
      decreases |rest|
    {
      ghost var some := Member(rest);
      var h :| h in rest;
      if m[h].slot < cutoff {
        kept := kept - {h};
      }
      rest := rest - {h};
    }
  }

  /** Marks the segments still looked up, then deletes the rest. */
  method DropUnreferenced(data: map<Hash, Segments>, lookup: map<Hash, Entry>) returns (kept: map<Hash, Segments>)
    ensures kept == map h | h in data && h in Referenced(lookup) :: data[h]
  {
    var marked: set<Hash> := {};
    var rest := lookup.Keys;
    while rest != {}
      invariant rest <= lookup.Keys
      invariant marked == set h | h in lookup && h !in rest :: lookup[h].hash
      decreases |rest|
    {
      ghost var some := Member(rest);
      var h :| h in rest;
      marked := marked + {lookup[h].hash};
      rest := rest - {h};
    }
    kept := data;
    rest := data.Keys;
    while rest != {}
      invariant rest <= data.Keys
      invariant kept == map h | h in data && (h in rest || h in marked) :: data[h]
      decreases |rest|
    {
      ghost var some := Member(rest);
      var h :| h in rest;
      if h !in marked {
        kept := kept - {h};
      }
      rest := rest - {h};
    }
  }
}
