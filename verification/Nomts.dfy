/**
 The Merkle database: a live overlay of uncommitted changes over the store, commits that
 record a reverse delta first, rollbacks, and a root preview of the uncommitted state.
 */
module Nomts {
  import opened Options
  import opened Sums
  import opened GpTree
  import opened Stores
  import L = Ledgers

  /** The database between operations; `open` tells whether the live overlay takes writes. */
  datatype Db = Db(ledger: L.Ledger, live: Changeset, open: bool, root: Digest)

  /** A successful commit of a changeset installs a new live overlay over the new contents. */
  ghost function Committed(hash: Hasher, db: Db, cs: Changeset): Db {
    var ledger := L.Commit(db.ledger, cs);
    Db(ledger, map[], true, RootOfMap(hash, ledger.contents))
  }

  ghost function DirectCommit(hash: Hasher, db: Db): Db {
    if db.open then Committed(hash, db, db.live) else db
  }

  /** Without a record to roll back to, the live overlay is dropped and not replaced. */
  ghost function RolledBack(hash: Hasher, db: Db): Db
    requires L.ValidLedger(db.ledger)
  {
    if db.ledger.head == 0 then
      db.(open := false)
    else
      var ledger := L.Rollback(db.ledger);
      Db(ledger, map[], true, RootOfMap(hash, ledger.contents))
  }

  ghost function PreparedCommit(hash: Hasher, db: Db, prevRoot: Digest, cs: Changeset): Db {
    if db.root == prevRoot then Committed(hash, db, cs) else db
  }

  /** A commit whose sync fails is rolled back at once; root and overlay stay. */
  function Failed(db: Db, cs: Changeset): Db
    requires L.ValidLedger(db.ledger)
  {
    db.(ledger := L.Rollback(L.Commit(db.ledger, cs)))
  }

  /** How recording a reverse delta ends: the delta is written, and then the new head. */
  datatype LogOutcome = LogOk | DeltaFails | HeadFails

  /**
   A commit that fails. Nothing happens without the delta; without the head the log has
   grown; if the sync fails, the delta is rolled back unless it cannot be read.
   */
  function FailedAt(db: Db, cs: Changeset, logged: LogOutcome, readable: bool): Db
    requires L.ValidLedger(db.ledger)
  {
    match logged
    case DeltaFails => db
    case HeadFails => db.(ledger := L.Commit(db.ledger, cs).(contents := db.ledger.contents))
    case LogOk => if readable then Failed(db, cs) else db.(ledger := L.Commit(db.ledger, cs))
  }

  /** It leaves the contents as they were exactly when the rollback does. */
  lemma FailedCommitKeepsContents(db: Db, cs: Changeset)
    requires L.ValidLedger(db.ledger)
    ensures Failed(db, cs).ledger.contents == db.ledger.contents <==> L.Recoverable(db.ledger.contents, cs)
  {
    L.CommitThenRollback(db.ledger, cs);
  }

  // ---------- the root preview ----------

  /** The preview keeps only inline inserts of the overlay: anything else removes the key. */
  function Preview(m: KVMap, cs: Changeset): KVMap {
    map k | k in m.Keys + cs.Keys && (k in cs ==> cs[k].Insert?) :: if k in cs then cs[k].value else m[k]
  }

  predicate HasOverflow(cs: Changeset) {
    exists k :: k in cs && cs[k].InsertOverflow?
  }

  /** The preview shows what a commit would store exactly when no staged value overflows. */
  lemma PreviewIsCommit(m: KVMap, cs: Changeset)
    ensures Preview(m, cs) == Apply(m, cs) <==> !HasOverflow(cs)
  {
    if HasOverflow(cs) {
      var k :| k in cs && cs[k].InsertOverflow?;
      assert k in Apply(m, cs) && k !in Preview(m, cs);
    }
  }

  /** An overflowing value makes the preview hold fewer keys than the commit. */
  lemma PreviewIsSmaller(m: KVMap, cs: Changeset)
    requires HasOverflow(cs)
    ensures |Preview(m, cs)| < |Apply(m, cs)|
  {
    var k :| k in cs && cs[k].InsertOverflow?;
    var shown, stored := Preview(m, cs).Keys, Apply(m, cs).Keys;
    assert shown <= stored - {k} && k in stored;
    Fewer(shown, stored - {k});
    assert |stored - {k}| == |stored| - 1;
  }

  lemma Fewer(s: set<KeyPath>, t: set<KeyPath>)
    requires s <= t
    ensures |s| <= |t|
  {
    assert t == s + (t - s);
  }

  /**
   For all contents and changes: the previewed root is the root after the commit unless a
   staged value overflows, and then, without a collision, it is a different root.
   */
  lemma PreviewRootIsCommitRoot(hash: Hasher, m: KVMap, cs: Changeset)
    ensures !HasOverflow(cs) ==> RootOfMap(hash, Preview(m, cs)) == RootOfMap(hash, Apply(m, cs))
    ensures NoCollision(hash, Preview(m, cs), Apply(m, cs)) ==>
      (RootOfMap(hash, Preview(m, cs)) == RootOfMap(hash, Apply(m, cs)) <==> !HasOverflow(cs))
  {
    PreviewIsCommit(m, cs);
    if HasOverflow(cs) {
      PreviewIsSmaller(m, cs);
      if NoCollision(hash, Preview(m, cs), Apply(m, cs)) && RootOfMap(hash, Preview(m, cs)) == RootOfMap(hash, Apply(m, cs)) {
        RootDeterminesSize(hash, Preview(m, cs), Apply(m, cs));
      }
    }
  }

  /** A staged value of 1025 bytes is stored by the commit and missing from the preview. */
  lemma LargeValueNotPreviewed(hash: Hasher, k: KeyPath)
    requires NoCollision(hash, map[], map[k := Zeros(1025)])
    ensures var cs: Changeset := map[k := NewInsertChange(Zeros(1025))];
      && Preview(map[], cs) == map[] && Apply(map[], cs) == map[k := Zeros(1025)]
      && RootOfMap(hash, Preview(map[], cs)) != RootOfMap(hash, Apply(map[], cs))
  {
    var cs: Changeset := map[k := NewInsertChange(Zeros(1025))];
    assert Preview(map[], cs) == map[] && Apply(map[], cs) == map[k := Zeros(1025)];
    assert k in cs && cs[k].InsertOverflow?;
    PreviewRootIsCommitRoot(hash, map[], cs);
  }

  lemma PreviewStep(m: KVMap, cs: Changeset, k: KeyPath, c: Change)
    ensures Preview(m, cs[k := c]) == if c.Insert? then Preview(m, cs)[k := c.value] else Preview(m, cs) - {k}
  {
  }

  /** Merges the committed pairs with the overlay, change by change. */
  method CollectForPreview(m: KVMap, cs: Changeset) returns (combined: KVMap)
    ensures combined == Preview(m, cs)
  {
    combined := m;
    var rest := cs.Keys;
    ghost var done: Changeset := map[];
    while rest != {}
      invariant rest <= cs.Keys && done == cs - rest
      invariant combined == Preview(m, done)
      decreases |rest|
    {
      ghost var x := Member(rest);
      var k :| k in rest;
      PreviewStep(m, done, k, cs[k]);
      if cs[k].Insert? {
        combined := combined[k := cs[k].value];
      } else {
        combined := combined - {k};
      }
      TakeKey(cs, rest, k);
      rest := rest - {k};
      done := done[k := cs[k]];
    }
    assert done == cs;
  }

  lemma TakeKey(cs: Changeset, rest: set<KeyPath>, k: KeyPath)
    requires k in rest && rest <= cs.Keys
    ensures (cs - rest)[k := cs[k]] == cs - (rest - {k})
  {
  }

  /** After a commit the staged values are read back, whatever their size; removals and other keys are as expected. */
  lemma CommitReads(l: L.Ledger, cs: Changeset, k: KeyPath, v: Bytes)
    ensures k in cs && cs[k] == NewInsertChange(v) ==> k in L.Commit(l, cs).contents && L.Commit(l, cs).contents[k] == v
    ensures k in cs && cs[k] == Delete ==> k !in L.Commit(l, cs).contents
    ensures k !in cs ==>
      && (k in L.Commit(l, cs).contents <==> k in l.contents)
      && (k in l.contents ==> L.Commit(l, cs).contents[k] == l.contents[k])
  {
  }

  /** A staged value is previewed exactly if it has at most 1024 bytes. */
  lemma PreviewedExactly(m: KVMap, cs: Changeset, k: KeyPath, v: Bytes)
    requires k in cs && cs[k] == NewInsertChange(v)
    ensures k in Preview(m, cs) <==> |v| <= 1024
    ensures |v| <= 1024 ==> Preview(m, cs)[k] == v
  {
  }

  // ---------- the database ----------

  class Nomt {
    const tree: Beatree
    var root: Digest
    var live: Changeset
    var open: bool
    var log: seq<L.Delta>
    var head: nat

    ghost function State(): Db
      reads this, tree
    {
      Db(L.Ledger(tree.Logical(), log, head), live, open, root)
    }

    /** The cached root is the root of the committed contents. */
    ghost predicate Valid()
      reads this, tree
    {
      tree.Coherent() && head <= |log| && root == RootOfMap(tree.hash, tree.Logical())
    }

    /** No earlier sync was left half done; the store cannot sync otherwise. */
    predicate Ready()
      reads this, tree
    {
      tree.secondary.None?
    }

    constructor (tree: Beatree)
      requires tree.Coherent() && tree.secondary.None?
      modifies tree
      ensures this.tree == tree && Valid() && Ready()
      ensures State() == Db(L.Ledger(old(tree.Logical()), [], 0), map[], true, RootOfMap(tree.hash, old(tree.Logical())))
    {
      this.tree := tree;
      var committed := tree.Root();
      root := committed;
      live, open, log, head := map[], true, [], 0;
    }

    method Insert(key: KeyPath, value: Bytes) returns (ok: bool)
      requires Valid()
      modifies this`live
      ensures Valid() && ok == open
      ensures live == if ok then old(live)[key := NewInsertChange(value)] else old(live)
    {
      ok := open;
      if ok {
        live := live[key := NewInsertChange(value)];
      }
    }

    method Delete(key: KeyPath) returns (ok: bool)
      requires Valid()
      modifies this`live
      ensures Valid() && ok == open
      ensures live == if ok then old(live)[key := Change.Delete] else old(live)
    {
      ok := open;
      if ok {
        live := live[key := Change.Delete];
      }
    }

    /** Stages and syncs changes; after a sync that works, refreshes the root and opens a new live overlay. */
    method Install(cs: Changeset, outcome: SyncOutcome) returns (ok: bool)
      requires tree.Coherent() && Ready()
      modifies this`root, this`live, this`open, tree
      ensures tree.Coherent() && tree.Logical() == Apply(old(tree.Logical()), cs) && (outcome == SyncOk ==> ok)
      ensures ok ==> Ready() && root == RootOfMap(tree.hash, tree.Logical()) && live == map[] && open
      ensures !ok ==> root == old(root) && live == old(live) && open == old(open)
    {
      tree.ApplyChangeset(cs);
      ok := Refresh(outcome);
    }

    /** Records the reverse delta, then installs the changes; if that fails, rolls the delta back. */
    method Store(cs: Changeset, logged: LogOutcome, outcome: SyncOutcome, readable: bool) returns (ok: bool)
      requires Valid() && Ready()
      modifies this, tree
      ensures ok ==> logged == LogOk && Valid() && Ready() && State() == Committed(tree.hash, old(State()), cs)
      ensures logged == LogOk && outcome == SyncOk ==> ok
      ensures !ok ==> State() == FailedAt(old(State()), cs, logged, readable)
      ensures !ok && (logged == LogOk ==> readable && L.Recoverable(old(tree.Logical()), cs)) ==> Valid()
    {
      hide RootOfMap, Apply;
      if logged == DeltaFails {
        return false;
      }
      log := log + [L.BuildDelta(tree.Logical(), cs)];
      head := |log|;
      if logged == HeadFails {
        return false;
      }
      ok := Install(cs, outcome);
      if !ok && readable {
        FailedCommitKeepsContents(old(State()), cs);
        UndoHead();
      }
    }

    /** Applies the head delta to the tree and steps back over it. */
    method UndoHead()
      requires tree.Coherent() && 0 < head <= |log|
      modifies this`head, tree
      ensures tree.Coherent() && head == old(head) - 1 && tree.secondary == old(tree.secondary)
      ensures tree.Logical() == Apply(old(tree.Logical()), L.Undo(log[head]))
    {
      tree.ApplyChangeset(L.Undo(log[head - 1]));
      head := head - 1;
    }

    /** Freezes the live overlay and commits it. */
    method Commit(logged: LogOutcome, outcome: SyncOutcome, readable: bool) returns (ok: bool)
      requires Valid() && Ready()
      modifies this, tree
      ensures logged == LogOk && outcome == SyncOk ==> ok == old(open)
      ensures ok ==> Valid() && Ready() && State() == DirectCommit(tree.hash, old(State()))
      ensures !ok ==>
        State() == if old(open) then FailedAt(old(State()), old(live), logged, readable).(open := false) else old(State())
      ensures !ok && (logged == LogOk ==> readable && L.Recoverable(old(tree.Logical()), old(live))) ==> Valid()
    {
      ok := open;
      if ok {
        open := false;
        ok := Store(live, logged, outcome, readable);
      }
    }

    /** Commit of a prepared session, refused when the root has moved. */
    method CommitPrepared(prevRoot: Digest, cs: Changeset, logged: LogOutcome, outcome: SyncOutcome, readable: bool)
      returns (ok: bool)
      requires Valid() && Ready()
      modifies this, tree
      ensures logged == LogOk && outcome == SyncOk ==> ok == (old(root) == prevRoot)
      ensures ok ==> Valid() && Ready() && State() == PreparedCommit(tree.hash, old(State()), prevRoot, cs)
      ensures !ok ==>
        State() == if old(root) == prevRoot then FailedAt(old(State()), cs, logged, readable) else old(State())
      ensures !ok && (logged == LogOk ==> readable && L.Recoverable(old(tree.Logical()), cs)) ==> Valid()
    {
      ok := root == prevRoot;
      if ok {
        ok := Store(cs, logged, outcome, readable);
      }
    }

    /** Syncs the staged rollback; if that works, refreshes the root and opens a new live overlay. */
    method Refresh(outcome: SyncOutcome) returns (ok: bool)
      requires tree.Coherent() && Ready()
      modifies this`root, this`live, this`open, tree
      ensures tree.Coherent() && tree.Logical() == old(tree.Logical()) && (outcome == SyncOk ==> ok)
      ensures ok ==> Ready() && root == RootOfMap(tree.hash, tree.Logical()) && live == map[] && open
      ensures !ok ==> root == old(root) && live == old(live) && open == old(open)
    {
      ok := tree.Sync(outcome);
      if ok {
        root := tree.Root();
        live, open := map[], true;
      }
    }

    /** Rolls back the last commit: reads its delta, stages it, moves the head and syncs. */
    method Rollback(readable: bool, headWritten: bool, outcome: SyncOutcome) returns (ok: bool)
      requires Valid() && Ready()
      modifies this, tree
      ensures readable && headWritten && outcome == SyncOk ==> ok == (old(head) > 0)
      ensures ok ==> old(head) > 0
      ensures ok || old(head) == 0 ==> Valid() && Ready() && State() == RolledBack(tree.hash, old(State()))
      ensures !ok && old(head) > 0 ==>
        var ledger := old(State()).ledger;
        State() == old(State()).(ledger := if readable then L.Rollback(ledger) else ledger, open := false)
    {
      hide RootOfMap, Apply;
      open := false;
      if head == 0 || !readable {
        return false;
      }
      UndoHead();
      if !headWritten {
        return false;
      }
      ok := Refresh(outcome);
    }

    /** The root of the committed contents with the live overlay merged in; changes nothing. */
    method CurrentRoot() returns (preview: Digest)
      requires Valid()
      ensures preview == RootOfMap(tree.hash, Preview(tree.Logical(), live))
      ensures !HasOverflow(live) && open ==> preview == DirectCommit(tree.hash, State()).root
    {
      var combined := CollectForPreview(tree.Logical(), live);
      preview := RootOfContents(tree.hash, combined);
      PreviewIsCommit(tree.Logical(), live);
    }
  }
}
