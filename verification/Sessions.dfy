/**
 Write sessions over the Merkle database, under every interleaving with direct writes,
 direct commits and rollbacks: a session remembers the root it began from, and its commit
 is refused when the database root is a different one.
 */
module Sessions {
  import opened GpTree
  import opened GpRoots
  import opened Stores
  import opened Nomts
  import L = Ledgers

  /** `base` is the committed contents when the session began. */
  datatype Session = Session(prevRoot: Digest, base: KVMap, changes: Changeset, prepared: bool)

  datatype System = System(db: Db, sessions: seq<Session>)

  datatype Step =
    | DirectWrite(key: KeyPath, change: Change)
    | CommitLive
    | RollBack
    | Begin
    | SessionWrite(id: nat, key: KeyPath, change: Change)
    | Prepare(id: nat)
    | CommitSession(id: nat)

  ghost function Next(hash: Hasher, s: System, step: Step): (t: System)
    requires L.ValidLedger(s.db.ledger)
    ensures L.ValidLedger(t.db.ledger)
  {
    match step
    case DirectWrite(k, c) => if s.db.open then s.(db := s.db.(live := s.db.live[k := c])) else s
    case CommitLive => s.(db := DirectCommit(hash, s.db))
    case RollBack => s.(db := RolledBack(hash, s.db))
    case Begin => s.(sessions := s.sessions + [Session(s.db.root, s.db.ledger.contents, map[], false)])
    case SessionWrite(i, k, c) =>
      if i < |s.sessions| && !s.sessions[i].prepared then
        s.(sessions := s.sessions[i := s.sessions[i].(changes := s.sessions[i].changes[k := c])])
      else s
    case Prepare(i) =>
      if i < |s.sessions| then s.(sessions := s.sessions[i := s.sessions[i].(prepared := true)]) else s
    case CommitSession(i) =>
      if i < |s.sessions| && s.sessions[i].prepared then
        s.(db := PreparedCommit(hash, s.db, s.sessions[i].prevRoot, s.sessions[i].changes))
      else s
  }

  /** Every root held anywhere is the root of the contents it stands for. */
  ghost predicate RootsTrue(hash: Hasher, s: System) {
    && L.ValidLedger(s.db.ledger)
    && s.db.root == RootOfMap(hash, s.db.ledger.contents)
    && forall i :: 0 <= i < |s.sessions| ==> s.sessions[i].prevRoot == RootOfMap(hash, s.sessions[i].base)
  }

  /** The keys a step writes are among the given ones. */
  ghost predicate StepIn(step: Step, ks: iset<KeyPath>) {
    (step.DirectWrite? || step.SessionWrite?) ==> step.key in ks
  }

  ghost predicate AllIn(s: set<KeyPath>, ks: iset<KeyPath>) {
    forall k :: k in s ==> k in ks
  }

  /** Every key of the contents, the live overlay, the rollback log and the sessions is among the given ones. */
  ghost predicate SystemIn(s: System, ks: iset<KeyPath>) {
    && AllIn(s.db.ledger.contents.Keys, ks)
    && AllIn(s.db.live.Keys, ks)
    && (forall i :: 0 <= i < |s.db.ledger.log| ==> AllIn(s.db.ledger.log[i].Keys, ks))
    && (forall i :: 0 <= i < |s.sessions| ==> AllIn(s.sessions[i].base.Keys, ks) && AllIn(s.sessions[i].changes.Keys, ks))
  }

  ghost predicate Sound(hash: Hasher, s: System, ks: iset<KeyPath>) {
    RootsTrue(hash, s) && SystemIn(s, ks)
  }

  lemma CommittedSound(hash: Hasher, s: System, ks: iset<KeyPath>, cs: Changeset)
    requires Sound(hash, s, ks) && AllIn(cs.Keys, ks)
    ensures Sound(hash, s.(db := Committed(hash, s.db, cs)), ks)
  {
    assert L.BuildDelta(s.db.ledger.contents, cs).Keys == cs.Keys;
  }

  lemma RolledBackSound(hash: Hasher, s: System, ks: iset<KeyPath>)
    requires Sound(hash, s, ks)
    ensures Sound(hash, s.(db := RolledBack(hash, s.db)), ks)
  {
    var l := s.db.ledger;
    if l.head > 0 {
      assert AllIn(l.log[l.head - 1].Keys, ks);
      assert L.Undo(l.log[l.head - 1]).Keys == l.log[l.head - 1].Keys;
    }
  }

  lemma StepSound(hash: Hasher, s: System, ks: iset<KeyPath>, step: Step)
    requires Sound(hash, s, ks) && StepIn(step, ks)
    ensures Sound(hash, Next(hash, s, step), ks)
  {
    match step
    case DirectWrite(k, c) =>
    case CommitLive => CommittedSound(hash, s, ks, s.db.live);
    case RollBack => RolledBackSound(hash, s, ks);
    case Begin =>
    case SessionWrite(i, k, c) =>
    case Prepare(i) =>
    case CommitSession(i) =>
      if i < |s.sessions| {
        CommittedSound(hash, s, ks, s.sessions[i].changes);
      }
  }

  /** A freshly opened database, over any contents. */
  ghost predicate Opened(hash: Hasher, s: System) {
    && s.db == Db(L.Ledger(s.db.ledger.contents, [], 0), map[], true, RootOfMap(hash, s.db.ledger.contents))
    && s.sessions == []
  }

  /** The keys of the opened contents and of all writes are among the given ones. */
  ghost predicate RunIn(s: System, steps: seq<Step>, ks: iset<KeyPath>) {
    AllIn(s.db.ledger.contents.Keys, ks) && forall i :: 0 <= i < |steps| ==> StepIn(steps[i], ks)
  }

  ghost function Run(hash: Hasher, s: System, steps: seq<Step>): (t: System)
    requires L.ValidLedger(s.db.ledger)
    ensures L.ValidLedger(t.db.ledger)
    decreases |steps|
  {
    if steps == [] then s else Next(hash, Run(hash, s, steps[..|steps| - 1]), steps[|steps| - 1])
  }

  lemma {:induction false} RunsSound(hash: Hasher, s: System, steps: seq<Step>, ks: iset<KeyPath>)
    requires Opened(hash, s) && RunIn(s, steps, ks)
    ensures Sound(hash, Run(hash, s, steps), ks)
    decreases |steps|
  {
    if steps != [] {
      RunsSound(hash, s, steps[..|steps| - 1], ks);
      StepSound(hash, Run(hash, s, steps[..|steps| - 1]), ks, steps[|steps| - 1]);
    }
  }

  /** A prepared session's commit, for contents equal to those it began from and for others. */
  ghost predicate CommitsOnBase(hash: Hasher, t: System, i: nat)
    requires L.ValidLedger(t.db.ledger) && i < |t.sessions|
  {
    var session, after := t.sessions[i], Next(hash, t, CommitSession(i));
    if t.db.ledger.contents == session.base
    then after.db.ledger.contents == Apply(session.base, session.changes)
      && after.db.ledger.log == t.db.ledger.log + [L.BuildDelta(session.base, session.changes)]
    else after == t
  }

  /** With told keys and no collision, equal roots mean that the contents are the session's base. */
  lemma RootsMatch(hash: Hasher, t: System, ks: iset<KeyPath>, i: nat)
    requires ToldKeys(ks) && Sound(hash, t, ks)
    requires i < |t.sessions| && NoCollision(hash, t.sessions[i].base, t.db.ledger.contents)
    ensures t.db.root == t.sessions[i].prevRoot <==> t.db.ledger.contents == t.sessions[i].base
  {
    var base, contents := t.sessions[i].base, t.db.ledger.contents;
    assert AllIn(base.Keys, ks) && AllIn(contents.Keys, ks);
    assert KeysWithin(base, ks) && KeysWithin(contents, ks);
    RootDeterminesContents(hash, base, contents, ks);
  }

  lemma SoundCommits(hash: Hasher, t: System, i: nat)
    requires L.ValidLedger(t.db.ledger) && i < |t.sessions| && t.sessions[i].prepared
    requires t.db.root == t.sessions[i].prevRoot <==> t.db.ledger.contents == t.sessions[i].base
    ensures CommitsOnBase(hash, t, i)
  {
  }

  /** What must not collide when a prepared session's root is compared after a run. */
  ghost predicate Comparable(hash: Hasher, t: System, i: nat) {
    i < |t.sessions| && t.sessions[i].prepared && NoCollision(hash, t.sessions[i].base, t.db.ledger.contents)
  }

  /**
   After any run over told keys, a prepared session commits exactly when the committed
   contents are those it began from, and then its changes are applied to exactly those
   contents; otherwise nothing changes.
   */
  lemma NoLostUpdates(hash: Hasher, s: System, steps: seq<Step>, ks: iset<KeyPath>, i: nat)
    requires ToldKeys(ks) && Opened(hash, s) && RunIn(s, steps, ks) && Comparable(hash, Run(hash, s, steps), i)
    ensures CommitsOnBase(hash, Run(hash, s, steps), i)
  {
    RunsSound(hash, s, steps, ks);
    RootsMatch(hash, Run(hash, s, steps), ks, i);
    SoundCommits(hash, Run(hash, s, steps), i);
  }

  // ---------- keys that are not told apart ----------

  lemma SharedRoot(hash: Hasher, k: KeyPath, l: KeyPath, v: Bytes)
    requires k[..31] == l[..31]
    ensures RootOfMap(hash, map[k := v]) == RootOfMap(hash, map[l := v])
  {
    ListOfOne(k, v);
    ListOfOne(l, v);
    RootOfAnyList(hash, [KV(k, v)], map[k := v]);
    RootOfAnyList(hash, [KV(l, v)], map[l := v]);
    RootForgetsLastByte(hash, k, v, l[31]);
    assert l == k[..31] + [l[31]];
  }

  ghost function OpenedOne(hash: Hasher, k: KeyPath, v: Bytes): System {
    System(Db(L.Ledger(map[k := v], [], 0), map[], true, RootOfMap(hash, map[k := v])), [])
  }

  /** A session over a single pair, with one change staged, prepared. */
  ghost function PreparedOne(hash: Hasher, k: KeyPath, v: Bytes, c: Change): System {
    Next(hash, Next(hash, Next(hash, OpenedOne(hash, k, v), Begin), SessionWrite(0, k, c)), Prepare(0))
  }

  lemma PreparedOneIs(hash: Hasher, k: KeyPath, v: Bytes, c: Change)
    ensures PreparedOne(hash, k, v, c) ==
      System(Db(L.Ledger(map[k := v], [], 0), map[], true, RootOfMap(hash, map[k := v])),
             [Session(RootOfMap(hash, map[k := v]), map[k := v], map[k := c], true)])
  {
  }

  /** Direct writes then move the contents from that pair to one with another key. */
  ghost function Moved(hash: Hasher, k: KeyPath, l: KeyPath, v: Bytes, c: Change): System {
    var prepared := PreparedOne(hash, k, v, c);
    Next(hash, Next(hash, Next(hash, prepared, DirectWrite(k, Delete)), DirectWrite(l, NewInsertChange(v))), CommitLive)
  }

  lemma MovedContents(hash: Hasher, k: KeyPath, l: KeyPath, v: Bytes, c: Change)
    requires k != l
    ensures var s := Moved(hash, k, l, v, c);
      && s.sessions == [Session(RootOfMap(hash, map[k := v]), map[k := v], map[k := c], true)]
      && s.db.ledger.contents == map[l := v] && s.db.root == RootOfMap(hash, map[l := v])
  {
    PreparedOneIs(hash, k, v, c);
    var live: Changeset := map[k := Delete, l := NewInsertChange(v)];
    assert Apply(map[k := v], live) == map[l := v];
  }

  /**
   Keys that differ in their last byte alone share a root whatever the hash, so with such
   keys a session commits over contents it did not begin from.
   */
  lemma StaleCommitAccepted(hash: Hasher, k: KeyPath, l: KeyPath, v: Bytes, c: Change)
    requires k != l && k[..31] == l[..31]
    ensures var s := Moved(hash, k, l, v, c);
      && |s.sessions| == 1 && s.sessions[0].prepared
      && s.sessions[0].base == map[k := v] && s.db.ledger.contents == map[l := v]
      && Next(hash, s, CommitSession(0)).db.ledger.contents == Apply(map[l := v], map[k := c])
  {
    SharedRoot(hash, k, l, v);
    MovedContents(hash, k, l, v, c);
  }

  lemma ListOfOne(k: KeyPath, v: Bytes)
    ensures Lists([KV(k, v)], map[k := v])
  {
    var m: KVMap := map[k := v];
    assert m - {k} == map[];
    assert Lists([], m - {k});
    ListCons(m, k, []);
    assert [KV(k, v)] + [] == [KV(k, v)];
  }

  function MoveSteps(k: KeyPath, l: KeyPath, v: Bytes, c: Change): seq<Step> {
    [Begin, SessionWrite(0, k, c), Prepare(0), DirectWrite(k, Delete), DirectWrite(l, NewInsertChange(v)), CommitLive]
  }

  lemma RunSnoc(hash: Hasher, s: System, steps: seq<Step>, n: nat)
    requires L.ValidLedger(s.db.ledger) && n < |steps|
    ensures Run(hash, s, steps[..n + 1]) == Next(hash, Run(hash, s, steps[..n]), steps[n])
  {
    assert steps[..n + 1][..n] == steps[..n];
  }

  /** That state is the end of a run. */
  lemma MovedIsRun(hash: Hasher, k: KeyPath, l: KeyPath, v: Bytes, c: Change)
    ensures Run(hash, OpenedOne(hash, k, v), MoveSteps(k, l, v, c)) == Moved(hash, k, l, v, c)
  {
    var s, steps := OpenedOne(hash, k, v), MoveSteps(k, l, v, c);
    assert steps[..0] == [] && steps[..6] == steps;
    RunSnoc(hash, s, steps, 0);
    RunSnoc(hash, s, steps, 1);
    RunSnoc(hash, s, steps, 2);
    assert Run(hash, s, steps[..3]) == PreparedOne(hash, k, v, c);
    RunSnoc(hash, s, steps, 3);
    RunSnoc(hash, s, steps, 4);
    RunSnoc(hash, s, steps, 5);
  }

  lemma OneEncodingOnly(k: KeyPath, l: KeyPath)
    requires k[..31] == l[..31]
    ensures NoCollision(ConstantHash(), map[k := []], map[l := []])
  {
    OneLeaf(k);
    OneLeaf(l);
    OneEncoding(k, l);
  }

  lemma OneLeaf(k: KeyPath)
    ensures Buildable(ListOf(map[k := []]), 0) && Build(ListOf(map[k := []]), 0) == Leaf(KV(k, []))
  {
    var m: KVMap := map[k := []];
    ListOfOne(k, []);
    WholeList([KV(k, [])]);
    WholeList(ListOf(m));
    BuildCanonical([KV(k, [])], ListOf(m), 0);
  }

  /** Every run over these keys, under every hash, commits sessions on their base only. */
  ghost predicate SafeRun(hash: Hasher, s: System, steps: seq<Step>, i: nat, ks: iset<KeyPath>) {
    Opened(hash, s) && RunIn(s, steps, ks) && Comparable(hash, Run(hash, s, steps), i)
    ==> CommitsOnBase(hash, Run(hash, s, steps), i)
  }

  ghost predicate SafeKeys(ks: iset<KeyPath>) {
    forall hash: Hasher, s: System, steps: seq<Step>, i: nat :: SafeRun(hash, s, steps, i, ks)
  }

  /** Accepting a session over contents other than its base is not committing on the base. */
  lemma OffBase(hash: Hasher, t: System, session: Session)
    requires L.ValidLedger(t.db.ledger) && t.sessions == [session] && session.prepared
    requires t.db.root == session.prevRoot && t.db.ledger.contents != session.base
    ensures !CommitsOnBase(hash, t, 0)
  {
    assert |Next(hash, t, CommitSession(0)).db.ledger.log| > |t.db.ledger.log|;
  }

  lemma MovedOffBase(k: KeyPath, l: KeyPath)
    requires k != l && k[..31] == l[..31]
    ensures var hash := ConstantHash();
      var t := Moved(hash, k, l, [], Delete);
      && Comparable(hash, t, 0) && !CommitsOnBase(hash, t, 0)
  {
    var hash := ConstantHash();
    var t := Moved(hash, k, l, [], Delete);
    MovedContents(hash, k, l, [], Delete);
    SharedRoot(hash, k, l, []);
    OneEncodingOnly(k, l);
    var base: KVMap, contents: KVMap := map[k := []], map[l := []];
    assert k in base && k !in contents;
    OffBase(hash, t, t.sessions[0]);
  }

  lemma MoveStepsIn(hash: Hasher, k: KeyPath, l: KeyPath, v: Bytes, c: Change, ks: iset<KeyPath>)
    requires k in ks && l in ks
    ensures Opened(hash, OpenedOne(hash, k, v)) && RunIn(OpenedOne(hash, k, v), MoveSteps(k, l, v, c), ks)
  {
    var steps := MoveSteps(k, l, v, c);
    forall i | 0 <= i < |steps| ensures StepIn(steps[i], ks) {
    }
  }

  lemma UnsafeRun(hash: Hasher, s: System, steps: seq<Step>, t: System, i: nat, ks: iset<KeyPath>)
    requires Opened(hash, s) && RunIn(s, steps, ks) && Run(hash, s, steps) == t
    requires Comparable(hash, t, i) && !CommitsOnBase(hash, t, i)
    ensures !SafeRun(hash, s, steps, i, ks)
  {
  }

  lemma UntoldRunUnsafe(k: KeyPath, l: KeyPath, ks: iset<KeyPath>)
    requires k in ks && l in ks && k != l && k[..31] == l[..31]
    ensures !SafeRun(ConstantHash(), OpenedOne(ConstantHash(), k, []), MoveSteps(k, l, [], Delete), 0, ks)
  {
    var hash := ConstantHash();
    MoveStepsIn(hash, k, l, [], Delete, ks);
    MovedIsRun(hash, k, l, [], Delete);
    MovedOffBase(k, l);
    UnsafeRun(hash, OpenedOne(hash, k, []), MoveSteps(k, l, [], Delete), Moved(hash, k, l, [], Delete), 0, ks);
  }

  /** Sessions are safe over a set of keys exactly if no two of them differ in the last byte alone. */
  lemma SafeExactlyIfTold(ks: iset<KeyPath>)
    ensures SafeKeys(ks) <==> ToldKeys(ks)
  {
    if ToldKeys(ks) {
      forall hash: Hasher, s: System, steps: seq<Step>, i: nat ensures SafeRun(hash, s, steps, i, ks) {
        if Opened(hash, s) && RunIn(s, steps, ks) && Comparable(hash, Run(hash, s, steps), i) {
          NoLostUpdates(hash, s, steps, ks, i);
        }
      }
    } else {
      var k, l :| k in ks && l in ks && k[..31] == l[..31] && k != l;
      UntoldRunUnsafe(k, l, ks);
    }
  }

  /** So they are with the padded 31-byte keys of the state. */
  lemma PaddedKeysSafe()
    ensures SafeKeys(PaddedKeys())
  {
    PaddedAreTold();
    SafeExactlyIfTold(PaddedKeys());
  }
}
