/**
 Commits and rollbacks of the Merkle database: the reverse deltas recorded before each
 commit, and what rolling back over them restores.
 */
module Ledgers {
  import opened Options
  import opened GpTree
  import opened KeyOrder
  import opened Stores

  /** Prior values of the keys a commit touches; none where the key was absent. */
  type Delta = map<KeyPath, Option<Bytes>>

  // ---------- point lookups ----------

  /** One more than the key, read as a number; after the last key it wraps around to zero. */
  function KeyAfter(k: Bytes): (r: Bytes)
    ensures |r| == |k|
  {
    if k == [] then []
    else
      var init, last := k[..|k| - 1], k[|k| - 1];
      if last < 255 then init + [last + 1] else KeyAfter(init) + [0]
  }

  /** The keys an iterator over [from, end) yields. */
  function Scan(m: KVMap, from: KeyPath, end: KeyPath): set<KeyPath> {
    set k | k in m && !Less(k, from) && Less(k, end)
  }

  /** Point lookup through an iterator from the key to the one after it. */
  function TreeGet(m: KVMap, k: KeyPath): Option<Bytes> {
    if k in Scan(m, k, KeyAfter(k)) then Some(m[k]) else None
  }

  ghost predicate HasGreater(k: KeyPath) {
    exists l: KeyPath :: Less(k, l)
  }

  lemma {:induction false} AfterIsGreater(k: Bytes, l: Bytes)
    requires |k| == |l| && Less(k, l)
    ensures Less(k, KeyAfter(k))
    decreases |k|
  {
    if k != [] {
      var n := |k| - 1;
      var a := KeyAfter(k);
      assert k == k[..n] + [k[n]] && l == l[..n] + [l[n]] && a == a[..n] + [a[n]];
      LessSnoc(k[..n], k[n], l[..n], l[n]);
      LessSnoc(k[..n], k[n], a[..n], a[n]);
      if k[n] == 255 {
        AfterIsGreater(k[..n], l[..n]);
      }
    }
  }

  /** A lookup finds a key exactly if the key is present and is not the greatest of all. */
  lemma LookupFinds(m: KVMap, k: KeyPath)
    ensures TreeGet(m, k) == if k in m && HasGreater(k) then Some(m[k]) else None
  {
    LessTrichotomy(k, k);
    var after: KeyPath := KeyAfter(k);
    if HasGreater(k) {
      var l: KeyPath :| Less(k, l);
      AfterIsGreater(k, l);
    } else {
      assert !Less(k, after);
    }
  }

  lemma {:induction false} NoneAboveOnes(k: Bytes, l: Bytes)
    requires |k| == |l| && forall i :: 0 <= i < |k| ==> k[i] == 255
    ensures !Less(k, l)
    decreases |k|
  {
    if k != [] {
      NoneAboveOnes(k[1..], l[1..]);
    }
  }

  lemma OneByteMore(k: KeyPath, i: nat)
    requires i < 32 && k[i] < 255
    ensures HasGreater(k)
  {
    var l: KeyPath := k[i := k[i] + 1];
    LessAt(k, l, i);
  }

  /** The greatest key is the one whose bytes are all 255. */
  lemma GreatestKey(k: KeyPath)
    ensures !HasGreater(k) <==> forall i :: 0 <= i < 32 ==> k[i] == 255
  {
    if i :| 0 <= i < 32 && k[i] != 255 {
      OneByteMore(k, i);
    } else {
      forall l: KeyPath ensures !Less(k, l) {
        NoneAboveOnes(k, l);
      }
    }
  }

  lemma CarryStep(key: KeyPath, i: nat)
    requires i < 32
    ensures key[i] == 255 ==> KeyAfter(key[..i + 1]) + Zeros(31 - i) == KeyAfter(key[..i]) + Zeros(32 - i)
    ensures key[i] < 255 ==> KeyAfter(key[..i + 1]) == key[..i] + [key[i] + 1]
  {
    assert key[..i + 1][..i] == key[..i];
    assert [0] + Zeros(31 - i) == Zeros(32 - i);
  }

  /** Increments the end key in place, from the last byte, until a byte does not carry. */
  method IncrementEnd(key: KeyPath) returns (end: KeyPath)
    ensures end == KeyAfter(key)
  {
    var bytes: Bytes := key;
    var i := 32;
    assert key[..32] == key && key + Zeros(0) == key && KeyAfter(key) + Zeros(0) == KeyAfter(key);
    while i > 0
      invariant 0 <= i <= 32 && bytes == key[..i] + Zeros(32 - i)
      invariant KeyAfter(key) == KeyAfter(key[..i]) + Zeros(32 - i)
    {
      i := i - 1;
      CarryStep(key, i);
      assert key[..i + 1] == key[..i] + [key[i]];
      if bytes[i] < 255 {
        bytes := bytes[i := bytes[i] + 1];
        return bytes;
      }
      bytes := bytes[i := 0];
      assert [0] + Zeros(31 - i) == Zeros(32 - i);
    }
    return bytes;
  }

  method Lookup(m: KVMap, key: KeyPath) returns (value: Option<Bytes>)
    ensures value == if key in m && HasGreater(key) then Some(m[key]) else None
  {
    var end := IncrementEnd(key);
    LookupFinds(m, key);
    return if key in Scan(m, key, end) then Some(m[key]) else None;
  }

  // ---------- commits and rollbacks ----------

  function BuildDelta(m: KVMap, cs: Changeset): Delta {
    map k | k in cs :: TreeGet(m, k)
  }

  /** The changeset that puts the prior values back. */
  function Undo(d: Delta): Changeset {
    map k | k in d :: if d[k].None? then Delete else NewInsertChange(d[k].value)
  }

  /** Committed contents, all recorded deltas, and the record a rollback would apply. */
  datatype Ledger = Ledger(contents: KVMap, log: seq<Delta>, head: nat)

  predicate ValidLedger(l: Ledger) {
    l.head <= |l.log|
  }

  /** A commit records its delta at the end of the log, whatever the head is. */
  function Commit(l: Ledger, cs: Changeset): Ledger {
    Ledger(Apply(l.contents, cs), l.log + [BuildDelta(l.contents, cs)], |l.log| + 1)
  }

  /** Rolls back the head record and moves the head to the record before it. */
  function Rollback(l: Ledger): Ledger
    requires ValidLedger(l)
  {
    if l.head == 0 then l
    else Ledger(Apply(l.contents, Undo(l.log[l.head - 1])), l.log, l.head - 1)
  }

  /** Every key that is overwritten or deleted while present has a greater key. */
  ghost predicate Recoverable(m: KVMap, cs: Changeset) {
    forall k :: k in cs && k in m ==> HasGreater(k)
  }

  /** Undoing a changeset restores the contents exactly when every prior value was seen. */
  lemma UndoRestores(m: KVMap, cs: Changeset)
    ensures Apply(Apply(m, cs), Undo(BuildDelta(m, cs))) == m <==> Recoverable(m, cs)
  {
    hide Apply, Undo, BuildDelta, HasGreater;
    var back := Apply(Apply(m, cs), Undo(BuildDelta(m, cs)));
    forall k: KeyPath
      ensures k in back <==> k in m && (k in cs ==> HasGreater(k))
      ensures k in back && k in m ==> back[k] == m[k]
    {
      UndoneKey(m, cs, k);
    }
    if Recoverable(m, cs) {
      assert back == m;
    }
  }

  /** A key comes back with its value, unless it was touched and no key is greater. */
  lemma UndoneKey(m: KVMap, cs: Changeset, k: KeyPath)
    ensures var back := Apply(Apply(m, cs), Undo(BuildDelta(m, cs)));
      && (k in back <==> k in m && (k in cs ==> HasGreater(k)))
      && (k in back && k in m ==> back[k] == m[k])
  {
    hide TreeGet, HasGreater;
    LookupFinds(m, k);
  }

  /** A commit followed by a rollback restores the contents. */
  lemma CommitThenRollback(l: Ledger, cs: Changeset)
    requires ValidLedger(l)
    ensures Rollback(Commit(l, cs)).contents == l.contents <==> Recoverable(l.contents, cs)
  {
    UndoRestores(l.contents, cs);
    assert Commit(l, cs).log[|l.log|] == BuildDelta(l.contents, cs);
  }

  function CommitAll(l: Ledger, css: seq<Changeset>): Ledger
    decreases |css|
  {
    if css == [] then l else Commit(CommitAll(l, css[..|css| - 1]), css[|css| - 1])
  }

  function RollbackTimes(l: Ledger, n: nat): Ledger
    requires ValidLedger(l)
    ensures ValidLedger(RollbackTimes(l, n))
    decreases n
  {
    if n == 0 then l else RollbackTimes(Rollback(l), n - 1)
  }

  ghost predicate AllRecoverable(l: Ledger, css: seq<Changeset>)
    decreases |css|
  {
    css == [] || (AllRecoverable(l, css[..|css| - 1]) && Recoverable(CommitAll(l, css[..|css| - 1]).contents, css[|css| - 1]))
  }

  lemma {:induction false} CommitAllGrows(l: Ledger, css: seq<Changeset>)
    requires ValidLedger(l)
    ensures ValidLedger(CommitAll(l, css)) && |CommitAll(l, css).log| == |l.log| + |css|
    ensures css != [] ==> CommitAll(l, css).head == |l.log| + |css|
    decreases |css|
  {
    if css != [] {
      CommitAllGrows(l, css[..|css| - 1]);
    }
  }

  /** Rollbacks look only at the contents, the head, and the records up to the head. */
  lemma {:induction false} RollbackIgnoresTail(a: Ledger, b: Ledger, n: nat)
    requires ValidLedger(a) && ValidLedger(b)
    requires a.contents == b.contents && a.head == b.head && a.log[..a.head] == b.log[..b.head]
    ensures RollbackTimes(a, n).contents == RollbackTimes(b, n).contents
    decreases n
  {
    if n > 0 && a.head > 0 {
      assert a.log[a.head - 1] == a.log[..a.head][a.head - 1];
      assert b.log[b.head - 1] == b.log[..b.head][b.head - 1];
      var a', b' := Rollback(a), Rollback(b);
      assert a'.log[..a'.head] == a.log[..a.head][..a'.head];
      assert b'.log[..b'.head] == b.log[..b.head][..b'.head];
      RollbackIgnoresTail(a', b', n - 1);
    } else if n > 0 {
      RollbackIgnoresTail(a, b, n - 1);
    }
  }

  /** From any ledger, as many rollbacks as commits just made restore the contents. */
  lemma {:induction false} RollbacksUndoCommits(l: Ledger, css: seq<Changeset>)
    requires ValidLedger(l) && AllRecoverable(l, css) && ValidLedger(CommitAll(l, css))
    ensures RollbackTimes(CommitAll(l, css), |css|).contents == l.contents
    decreases |css|
  {
    if css != [] {
      var init, last := css[..|css| - 1], css[|css| - 1];
      var prior := CommitAll(l, init);
      CommitAllGrows(l, init);
      CommitThenRollback(prior, last);
      var r := Rollback(CommitAll(l, css));
      RollbacksUndoCommits(l, init);
      if init != [] {
        assert r.log[..r.head] == prior.log[..prior.head];
        RollbackIgnoresTail(r, prior, |init|);
      }
    }
  }

  // ---------- rollbacks after a commit was undone ----------

  /**
   If a commit finds the head at the end of the log, undoing it also restores what every
   further rollback restores.
   */
  lemma UndoneCommitLeavesNoTrace(l: Ledger, cs: Changeset, n: nat)
    requires ValidLedger(l) && l.head == |l.log| && Recoverable(l.contents, cs)
    ensures RollbackTimes(Rollback(Commit(l, cs)), n).contents == RollbackTimes(l, n).contents
  {
    var r := Rollback(Commit(l, cs));
    CommitThenRollback(l, cs);
    assert r.log[..r.head] == l.log[..l.head];
    RollbackIgnoresTail(r, l, n);
  }

  /** Undoing a commit changes nothing that later rollbacks of this ledger restore. */
  ghost predicate Traceless(l: Ledger)
    requires ValidLedger(l)
  {
    forall cs, n :: Recoverable(l.contents, cs) ==>
      RollbackTimes(Rollback(Commit(l, cs)), n).contents == RollbackTimes(l, n).contents
  }

  // ---------- whole runs ----------

  datatype Move = DoCommit(cs: Changeset) | DoRollback

  function Next(l: Ledger, m: Move): Ledger
    requires ValidLedger(l)
  {
    match m
    case DoCommit(cs) => Commit(l, cs)
    case DoRollback => Rollback(l)
  }

  /** The reference: contents with a stack of the contents before each commit not yet undone. */
  datatype History = History(contents: KVMap, past: seq<KVMap>)

  function NextHistory(h: History, m: Move): History {
    match m
    case DoCommit(cs) => History(Apply(h.contents, cs), h.past + [h.contents])
    case DoRollback => if h.past == [] then h else History(h.past[|h.past| - 1], h.past[..|h.past| - 1])
  }

  /** Every commit finds the head at the end of the log and can be undone. */
  ghost predicate Orderly(l: Ledger, moves: seq<Move>)
    requires ValidLedger(l)
    decreases |moves|
  {
    moves == [] ||
      (&& (moves[0].DoCommit? ==> l.head == |l.log| && Recoverable(l.contents, moves[0].cs))
       && Orderly(Next(l, moves[0]), moves[1..]))
  }

  function Run(l: Ledger, moves: seq<Move>): Ledger
    requires ValidLedger(l)
    ensures ValidLedger(Run(l, moves))
    decreases |moves|
  {
    if moves == [] then l else Run(Next(l, moves[0]), moves[1..])
  }

  function RunHistory(h: History, moves: seq<Move>): History
    decreases |moves|
  {
    if moves == [] then h else RunHistory(NextHistory(h, moves[0]), moves[1..])
  }

  /** The record takes the contents after its commit back to those before it. */
  predicate TakesBack(l: Ledger, h: History, i: nat)
    requires i < |l.log| && i < |h.past|
  {
    Apply(if i + 1 < |h.past| then h.past[i + 1] else h.contents, Undo(l.log[i])) == h.past[i]
  }

  predicate Tracks(l: Ledger, h: History) {
    && ValidLedger(l) && l.contents == h.contents && |h.past| == l.head
    && forall i :: 0 <= i < l.head ==> TakesBack(l, h, i)
  }

  lemma StepTracks(l: Ledger, h: History, m: Move)
    requires Tracks(l, h) && (m.DoCommit? ==> l.head == |l.log| && Recoverable(l.contents, m.cs))
    ensures Tracks(Next(l, m), NextHistory(h, m))
  {
    var r, g := Next(l, m), NextHistory(h, m);
    if m.DoCommit? {
      UndoRestores(l.contents, m.cs);
    } else if l.head > 0 {
      assert TakesBack(l, h, l.head - 1);
    }
    forall i | 0 <= i < r.head ensures TakesBack(r, g, i) {
      if i < l.head {
        assert TakesBack(l, h, i);
      }
    }
  }

  /** In every orderly run the ledger holds what the stack of contents says. */
  lemma {:induction false} RunTracks(l: Ledger, h: History, moves: seq<Move>)
    requires Tracks(l, h) && Orderly(l, moves)
    ensures Tracks(Run(l, moves), RunHistory(h, moves))
    decreases |moves|
  {
    if moves != [] {
      StepTracks(l, h, moves[0]);
      RunTracks(Next(l, moves[0]), NextHistory(h, moves[0]), moves[1..]);
    }
  }

  // ---------- when an undone commit leaves no trace ----------

  /** Some run takes a ledger with an empty log to this one. */
  ghost predicate Reachable(l: Ledger) {
    exists c, moves :: l == Run(Ledger(c, [], 0), moves)
  }

  lemma {:induction false} RunSnoc(l: Ledger, moves: seq<Move>, m: Move)
    requires ValidLedger(l)
    ensures Run(l, moves + [m]) == Next(Run(l, moves), m)
    decreases |moves|
  {
    if moves == [] {
      assert [m][1..] == [];
    } else {
      assert (moves + [m])[1..] == moves[1..] + [m];
      RunSnoc(Next(l, moves[0]), moves[1..], m);
    }
  }

  lemma NextReachable(l: Ledger, m: Move)
    requires ValidLedger(l) && Reachable(l)
    ensures Reachable(Next(l, m))
  {
    var c, moves :| l == Run(Ledger(c, [], 0), moves);
    RunSnoc(Ledger(c, [], 0), moves, m);
  }

  /** A lone record that was rolled back changes nothing when it is applied again. */
  predicate LoneRecordSpent(l: Ledger) {
    |l.log| == 1 && l.head == 0 ==> Apply(l.contents, Undo(l.log[0])) == l.contents
  }

  lemma NextSpent(l: Ledger, m: Move)
    requires ValidLedger(l) && LoneRecordSpent(l)
    ensures LoneRecordSpent(Next(l, m))
  {
  }

  lemma {:induction false} RunSpent(l: Ledger, moves: seq<Move>)
    requires ValidLedger(l) && LoneRecordSpent(l)
    ensures LoneRecordSpent(Run(l, moves))
    decreases |moves|
  {
    if moves != [] {
      NextSpent(l, moves[0]);
      RunSpent(Next(l, moves[0]), moves[1..]);
    }
  }

  lemma {:induction false} RollbackAtZero(l: Ledger, n: nat)
    requires ValidLedger(l) && l.head == 0
    ensures RollbackTimes(l, n) == l
    decreases n
  {
    if n > 0 {
      RollbackAtZero(l, n - 1);
    }
  }

  lemma SpentTraceless(l: Ledger)
    requires |l.log| == 1 && l.head == 0 && LoneRecordSpent(l)
    ensures Traceless(l)
  {
    forall cs: Changeset, n: nat | Recoverable(l.contents, cs)
      ensures RollbackTimes(Rollback(Commit(l, cs)), n).contents == RollbackTimes(l, n).contents
    {
      CommitThenRollback(l, cs);
      var r := Rollback(Commit(l, cs));
      assert r.log[0] == l.log[0];
      RollbackAtZero(l, n);
      if n > 0 {
        RollbackAtZero(Rollback(r), n - 1);
      }
    }
  }

  lemma EndTraceless(l: Ledger)
    requires l.head == |l.log|
    ensures Traceless(l)
  {
    forall cs: Changeset, n: nat | Recoverable(l.contents, cs)
      ensures RollbackTimes(Rollback(Commit(l, cs)), n).contents == RollbackTimes(l, n).contents
    {
      UndoneCommitLeavesNoTrace(l, cs, n);
    }
  }

  /** The contents after the given number of commits to one key, each of a longer value. */
  function StackContents(x: KeyPath, n: nat): KVMap {
    if n == 0 then map[] else map[x := Zeros(n)]
  }

  function StackRecord(x: KeyPath, j: nat): Delta {
    map[x := if j == 0 then None else Some(Zeros(j))]
  }

  function StackLog(x: KeyPath, n: nat): (log: seq<Delta>)
    ensures |log| == n && forall j: nat :: j < n ==> log[j] == StackRecord(x, j)
  {
    if n == 0 then [] else StackLog(x, n - 1) + [StackRecord(x, n - 1)]
  }

  /** That many commits, all but the first few rolled back. */
  function Stack(x: KeyPath, head: nat, length: nat): Ledger {
    Ledger(StackContents(x, head), StackLog(x, length), head)
  }

  lemma CommitStack(x: KeyPath, n: nat)
    requires HasGreater(x)
    ensures Commit(Stack(x, n, n), map[x := NewInsertChange(Zeros(n + 1))]) == Stack(x, n + 1, n + 1)
  {
    CommitKey(Stack(x, n, n), x, Zeros(n + 1));
    assert StackContents(x, n)[x := Zeros(n + 1)] == StackContents(x, n + 1);
  }

  lemma RollbackStack(x: KeyPath, head: nat, length: nat)
    requires 0 < head <= length
    ensures Rollback(Stack(x, head, length)) == Stack(x, head - 1, length)
  {
    RollbackKey(Stack(x, head, length), x, if head == 1 then None else Some(Zeros(head - 1)));
    if head == 1 {
      assert StackContents(x, 1) - {x} == map[];
    } else {
      assert StackContents(x, head)[x := Zeros(head - 1)] == StackContents(x, head - 1);
    }
  }

  lemma StackValid(x: KeyPath, head: nat, length: nat)
    requires head <= length
    ensures ValidLedger(Stack(x, head, length))
  {
  }

  lemma StackStart(x: KeyPath)
    ensures Reachable(Stack(x, 0, 0))
  {
    assert Stack(x, 0, 0) == Run(Ledger(map[], [], 0), []);
  }

  lemma {:induction false} StackReachable(x: KeyPath, head: nat, length: nat)
    requires HasGreater(x) && head <= length
    ensures Reachable(Stack(x, head, length))
    decreases length, length - head
  {
    hide Stack, Reachable, Commit, Rollback, HasGreater;
    StackValid(x, head, length);
    if head < length {
      StackValid(x, head + 1, length);
      StackReachable(x, head + 1, length);
      RollbackStack(x, head + 1, length);
      NextReachable(Stack(x, head + 1, length), DoRollback);
    } else if length > 0 {
      StackValid(x, length - 1, length - 1);
      StackReachable(x, length - 1, length - 1);
      CommitStack(x, length - 1);
      NextReachable(Stack(x, length - 1, length - 1), DoCommit(map[x := NewInsertChange(Zeros(length))]));
    } else {
      StackStart(x);
    }
  }

  lemma UndoNothing(m: KVMap)
    ensures Apply(m, Undo(map[])) == m
  {
    assert Undo(map[]) == map[];
    ApplyNothing(m);
  }

  /** After an empty commit is undone, the head is at the end of the older records. */
  lemma EmptyCommitUndone(l: Ledger)
    requires ValidLedger(l)
    ensures Rollback(Commit(l, map[])) == Ledger(l.contents, l.log + [map[]], |l.log|)
  {
    ApplyNothing(l.contents);
    UndoNothing(l.contents);
    assert BuildDelta(l.contents, map[]) == map[];
  }

  /** Short of the end, the rollback after an undone commit brings back a value rolled back before. */
  lemma StackLeavesTrace(x: KeyPath, head: nat, length: nat)
    requires head < length && length >= 2
    ensures !Traceless(Stack(x, head, length))
  {
    var l := Stack(x, head, length);
    var r := Rollback(Commit(l, map[]));
    EmptyCommitUndone(l);
    RollbackKey(r, x, Some(Zeros(length - 1)));
    assert RollbackTimes(r, 1).contents == Rollback(r).contents == l.contents[x := Zeros(length - 1)];
    if head > 0 {
      RollbackStack(x, head, length);
    }
    var before, after := RollbackTimes(l, 1).contents, RollbackTimes(r, 1).contents;
    assert before == StackContents(x, if head == 0 then 0 else head - 1);
    assert after[x] == Zeros(length - 1) && (x in before ==> |before[x]| < length - 1);
    var cs: Changeset := map[];
    assert Recoverable(l.contents, cs) && r == Rollback(Commit(l, cs));
  }

  /** Every ledger that a run reaches with this head and length is traceless. */
  ghost predicate AllTraceless(head: nat, length: nat) {
    forall l: Ledger :: Reachable(l) && ValidLedger(l) && l.head == head && |l.log| == length ==> Traceless(l)
  }

  lemma SpentOrEndTraceless(l: Ledger)
    requires Reachable(l) && (l.head == |l.log| || (l.head == 0 && |l.log| == 1))
    ensures Traceless(l)
  {
    if l.head == |l.log| {
      EndTraceless(l);
    } else {
      var c, moves :| l == Run(Ledger(c, [], 0), moves);
      RunSpent(Ledger(c, [], 0), moves);
      SpentTraceless(l);
    }
  }

  /**
   Over the ledgers that runs reach: undoing a commit leaves no trace exactly if the head
   is at the end of the log or the log holds one record, rolled back.
   */
  lemma TracelessExactly(head: nat, length: nat)
    requires head <= length
    ensures AllTraceless(head, length) <==> head == length || (head == 0 && length == 1)
  {
    if head == length || (head == 0 && length == 1) {
      forall l: Ledger | Reachable(l) && ValidLedger(l) && l.head == head && |l.log| == length ensures Traceless(l) {
        SpentOrEndTraceless(l);
      }
    } else {
      var x: KeyPath := Zeros(32);
      OneByteMore(x, 0);
      var l := Stack(x, head, length);
      StackReachable(x, head, length);
      StackLeavesTrace(x, head, length);
      assert Reachable(l) && ValidLedger(l) && l.head == head && |l.log| == length && !Traceless(l);
    }
  }

  lemma {:induction false} RollbackOneMore(l: Ledger, n: nat)
    requires ValidLedger(l)
    ensures RollbackTimes(l, n + 1) == Rollback(RollbackTimes(l, n))
    decreases n
  {
    if n > 0 {
      RollbackOneMore(Rollback(l), n - 1);
    }
  }

  /** Applies the deltas from the head down to, and without, the target record. */
  method RollbackTo(l: Ledger, target: nat) returns (r: Ledger, ok: bool)
    requires ValidLedger(l)
    ensures ok == (l.head > 0)
    ensures r == RollbackTimes(l, if l.head > target then l.head - target else 0)
  {
    r := l;
    if l.head == 0 {
      return r, false;
    }
    ghost var done := 0;
    while r.head > target
      invariant ValidLedger(r) && done + r.head == l.head && r == RollbackTimes(l, done)
      invariant if l.head > target then r.head >= target else done == 0
      decreases r.head
    {
      RollbackOneMore(l, done);
      r := Ledger(Apply(r.contents, Undo(r.log[r.head - 1])), r.log, r.head - 1);
      done := done + 1;
    }
    return r, true;
  }

  /** The greatest key overwritten and rolled back is gone instead of restored. */
  lemma GreatestKeyLost(k: KeyPath, v: Bytes, w: Bytes)
    requires !HasGreater(k)
    ensures Rollback(Commit(Ledger(map[k := v], [], 0), map[k := NewInsertChange(w)])).contents == map[]
  {
    CommitKey(Ledger(map[k := v], [], 0), k, w);
    assert map[k := v][k := w] == map[k := w];
    RollbackKey(Ledger(map[k := w], [map[k := None]], 1), k, None);
    assert map[k := w] - {k} == map[];
  }

  lemma CommitKey(l: Ledger, k: KeyPath, v: Bytes)
    ensures Commit(l, map[k := NewInsertChange(v)])
      == Ledger(l.contents[k := v], l.log + [map[k := Prior(l.contents, k)]], |l.log| + 1)
  {
    hide TreeGet, HasGreater;
    var cs: Changeset := map[k := NewInsertChange(v)];
    LookupFinds(l.contents, k);
    assert Apply(l.contents, cs) == l.contents[k := v];
    assert BuildDelta(l.contents, cs) == map[k := TreeGet(l.contents, k)];
  }

  /** What a commit records for a key. */
  ghost function Prior(m: KVMap, k: KeyPath): Option<Bytes> {
    if k in m && HasGreater(k) then Some(m[k]) else None
  }

  lemma RollbackKey(l: Ledger, k: KeyPath, prior: Option<Bytes>)
    requires ValidLedger(l) && l.head > 0 && l.log[l.head - 1] == map[k := prior]
    ensures Rollback(l)
      == Ledger(if prior.None? then l.contents - {k} else l.contents[k := prior.value], l.log, l.head - 1)
  {
    var undo := Undo(map[k := prior]);
    assert undo == map[k := if prior.None? then Delete else NewInsertChange(prior.value)];
    assert Apply(l.contents, undo) == if prior.None? then l.contents - {k} else l.contents[k := prior.value];
  }

  /** The ledger after a key is committed twice. */
  function TwiceLedger(x: KeyPath, v: Bytes, w: Bytes): Ledger {
    Ledger(map[x := w], [map[x := None], map[x := Some(v)]], 2)
  }

  /** Both commits rolled back: the contents are empty, the log is not. */
  function UndoneLedger(x: KeyPath, v: Bytes): Ledger {
    Ledger(map[], [map[x := None], map[x := Some(v)]], 0)
  }

  lemma CommitTwice(x: KeyPath, v: Bytes, w: Bytes)
    requires HasGreater(x)
    ensures Commit(Commit(Ledger(map[], [], 0), map[x := NewInsertChange(v)]), map[x := NewInsertChange(w)])
      == TwiceLedger(x, v, w)
  {
    CommitKey(Ledger(map[], [], 0), x, v);
    var one := Ledger(map[x := v], [map[x := None]], 1);
    assert Commit(Ledger(map[], [], 0), map[x := NewInsertChange(v)]) == one;
    CommitKey(one, x, w);
    assert one.contents[x := w] == map[x := w];
    assert one.log + [map[x := Some(v)]] == TwiceLedger(x, v, w).log;
  }

  lemma RollbackTwice(x: KeyPath, v: Bytes, w: Bytes)
    ensures RollbackTimes(TwiceLedger(x, v, w), 2) == UndoneLedger(x, v)
  {
    var two := TwiceLedger(x, v, w);
    RollbackKey(two, x, Some(v));
    var one := Ledger(map[x := v], two.log, 1);
    assert two.contents[x := v] == one.contents;
    RollbackKey(one, x, None);
    assert one.contents - {x} == map[];
    assert RollbackTimes(two, 2) == RollbackTimes(one, 1) == RollbackTimes(UndoneLedger(x, v), 0);
  }

  /**
   The log keeps records that were already rolled back. A commit after rollbacks moves
   the head past them, and later rollbacks apply them again: here the value of a key
   comes back although its commit was undone and nothing else is left to undo.
   */
  lemma StaleRecordsReturn(x: KeyPath, y: KeyPath, v: Bytes, w: Bytes)
    requires x != y && HasGreater(x) && HasGreater(y)
    ensures var twice := Commit(Commit(Ledger(map[], [], 0), map[x := NewInsertChange(v)]), map[x := NewInsertChange(w)]);
      var undone := RollbackTimes(twice, 2);
      var again := Rollback(Commit(undone, map[y := NewInsertChange(v)]));
      && undone.contents == map[] && undone.head == 0
      && again.contents == map[] && again.head == 2
      && Rollback(again).contents == map[x := v]
  {
    CommitTwice(x, v, w);
    RollbackTwice(x, v, w);
    var undone := UndoneLedger(x, v);
    CommitKey(undone, y, v);
    var log: seq<Delta> := undone.log + [map[y := None]];
    RollbackKey(Ledger(map[y := v], log, 3), y, None);
    assert map[y := v] - {y} == map[];
    RollbackKey(Ledger(map[], log, 2), x, Some(v));
  }
}
