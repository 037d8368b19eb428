/**
 The slot manager: it polls the nodes for the slot each has completed, and moves the
 universal slot on only when every node has completed the present one and the work
 packages allow it.
 */
module SlotBarrier {
  import opened WorkPackages

  const UPPER_JCE_BUFFER: int := 3
  const MAX_SLOT: int := 0xFFFF_FFFF

  /** Slots are 32-bit and wrap. */
  function NextSlot(slot: int): int {
    if slot == MAX_SLOT then 0 else slot + 1
  }

  /** A node refuses to report an earlier slot than before, except in default clock mode. */
  function SetCompleted(defaultClock: bool, prev: int, reported: int): int {
    if prev > 0 && prev > reported && !defaultClock then prev else reported
  }

  function Done(readings: seq<int>, slot: int): set<int> {
    set i | 0 <= i < |readings| && readings[i] >= slot
  }

  function Late(readings: seq<int>, slot: int): set<int> {
    set i | 0 <= i < |readings| && readings[i] < slot
  }

  function AllNodes(n: nat): seq<int> {
    if n == 0 then [] else AllNodes(n - 1) + [n - 1]
  }

  predicate InRange(pending: seq<int>, n: nat) {
    forall i :: i in pending ==> 0 <= i < n
  }

  lemma {:induction false} AllNodesElems(n: nat)
    ensures |AllNodes(n)| == n && forall i :: i in AllNodes(n) <==> 0 <= i < n
  {
    if n > 0 {
      AllNodesElems(n - 1);
    }
  }

  /** Slot and pending nodes after a poll, and after the advance it may lead to. */
  function AfterTick(n: nat, slot: int, pending: seq<int>, readings: seq<int>, advanced: bool): (int, seq<int>) {
    if advanced then (NextSlot(slot), AllNodes(n)) else (slot, Without(pending, Done(readings, slot)))
  }

  /** The reading of the last node in the list; a default when there is none. */
  function LastReading(nodes: seq<int>, readings: seq<int>, last: int): int {
    if nodes != [] && 0 <= nodes[|nodes| - 1] < |readings| then readings[nodes[|nodes| - 1]] else last
  }

  /** Splits the pending nodes by compacting the list in place while it is read. */
  method PollPending(a: array<int>, readings: seq<int>, slot: int, last: int)
    returns (kept: nat, complete: seq<int>, lastCompleted: int)
    requires InRange(a[..], |readings|)
    modifies a
    ensures kept <= a.Length && a[..kept] == Without(old(a[..]), Done(readings, slot))
    ensures complete == Without(old(a[..]), Late(readings, slot))
    ensures lastCompleted == LastReading(complete, readings, last)
  {
    kept, complete, lastCompleted := 0, [], last;
    ghost var before := a[..];
    ghost var done, late := Done(readings, slot), Late(readings, slot);
    for i := 0 to a.Length
      invariant kept <= i
      invariant a[..kept] == Without(before[..i], done)
      invariant complete == Without(before[..i], late)
      invariant lastCompleted == LastReading(complete, readings, last)
      invariant forall j :: i <= j < a.Length ==> a[j] == before[j]
    {
      var idx := a[i];
      assert idx in before;
      WithoutSnoc(before, i, done);
      WithoutSnoc(before, i, late);
      if readings[idx] < slot {
        ghost var prefix := a[..kept];
        a[kept] := idx;
        kept := kept + 1;
        assert a[..kept] == prefix + [idx];
      } else {
        complete := complete + [idx];
        lastCompleted := readings[idx];
      }
    }
    assert before[..a.Length] == before;
  }

  /** What the requirement check does to the package lists; its early exits leave them alone. */
  predicate Checked(q: Queues, recent: seq<seq<Hash>>, history: seq<seq<Hash>>, r: Queues) {
    if q.queued == [] || recent == [] then r == q
    else Settled(q, Reported(recent), Reported(history), r)
  }

  predicate Met(q: Queues, recent: seq<seq<Hash>>, r: Queues) {
    q.queued != [] && recent != [] && r.queued == []
  }

  class ManualJCEManager {
    const nodes: nat
    var universal: int
    var pollJCE: int
    var buffer: int
    var pending: seq<int>
    var complete: seq<int>
    var queues: Queues
    var recent: seq<seq<Hash>>
    var history: seq<seq<Hash>>

    constructor (nodes: nat, initial: int)
      ensures this.nodes == nodes && universal == initial && pending == AllNodes(nodes)
      ensures buffer == 3 && queues == Queues([], [], []) && recent == [] && history == []
    {
      this.nodes := nodes;
      universal, pollJCE, buffer := initial, 0, UPPER_JCE_BUFFER;
      pending, complete := AllNodes(nodes), [];
      queues, recent, history := Queues([], [], []), [], [];
    }

    /** `readings` are the completed slots seen while polling, by node. */
    method Poll(readings: seq<int>)
      requires |readings| == nodes && InRange(pending, nodes)
      modifies this`pending, this`complete, this`pollJCE
      ensures pending == Without(old(pending), Done(readings, universal))
      ensures complete == Without(old(pending), Late(readings, universal))
      ensures pollJCE == if pending == [] then LastReading(complete, readings, old(pollJCE)) else old(pollJCE)
    {
      var a := new int[|pending|](i requires 0 <= i < |pending| reads this => pending[i]);
      assert a[..] == pending;
      var kept, done, last := PollPending(a, readings, universal, pollJCE);
      pending, complete := a[..kept], done;
      if pending == [] && nodes > 0 {
        pollJCE := last;
      }
      WithoutElems(old(pending), Late(readings, universal));
    }

    /** Opens the next slot: unprocessed queued packages are discarded. */
    method Advance()
      modifies this`universal, this`pending, this`complete, this`queues, this`buffer
      ensures universal == NextSlot(old(universal)) && pending == AllNodes(nodes) && complete == []
      ensures queues == Queues([], old(queues).refined, old(queues).accumulated)
      ensures buffer == if old(queues).queued == [] then old(buffer) else UPPER_JCE_BUFFER
    {
      universal := NextSlot(universal);
      if |queues.queued| > 0 {
        buffer := UPPER_JCE_BUFFER;
        queues := queues.(queued := []);
      }
      pending, complete := AllNodes(nodes), [];
    }

    /** Moves packages forward and says whether the slot may advance, on the buffer if need be. */
    method CheckReq() returns (allow: bool)
      modifies this`queues, this`buffer
      ensures Checked(old(queues), recent, history, queues)
      ensures allow == (Met(old(queues), recent, queues) || old(buffer) > 0)
      ensures buffer == if !Met(old(queues), recent, queues) && allow then old(buffer) - 1 else old(buffer)
    {
      if |queues.queued| > 0 && |recent| > 0 {
        queues := Settle(queues, recent, history);
        if queues.queued == [] {
          return true;
        }
      }
      if buffer > 0 {
        buffer := buffer - 1;
        return true;
      }
      return false;
    }

    /** One poll tick of the event loop. */
    method Tick(readings: seq<int>) returns (advanced: bool)
      requires |readings| == nodes && InRange(pending, nodes)
      modifies this
      ensures (universal, pending) == AfterTick(nodes, old(universal), old(pending), readings, advanced)
      ensures InRange(pending, nodes) && recent == old(recent) && history == old(history)
      ensures Without(old(pending), Done(readings, old(universal))) != [] ==>
        !advanced && queues == old(queues) && buffer == old(buffer)
      ensures Without(old(pending), Done(readings, old(universal))) == [] ==> exists r ::
        && Checked(old(queues), recent, history, r)
        && advanced == (Met(old(queues), recent, r) || old(buffer) > 0)
        && queues == if advanced then Queues([], r.refined, r.accumulated) else r
    {
      advanced := false;
      WithoutElems(pending, Done(readings, universal));
      var waiting := Without(pending, Done(readings, universal));
      assert forall i :: i in waiting ==> i in Elems(waiting);
      Poll(readings);
      if pending == [] {
        var allow := CheckReq();
        if allow {
          Advance();
          advanced := true;
          AllNodesElems(nodes);
        }
      }
    }
  }

  /** A check passes without the buffer exactly if packages were queued and the histories report each of them. */
  lemma MetExactly(q: Queues, recent: seq<seq<Hash>>, history: seq<seq<Hash>>, r: Queues)
    requires Checked(q, recent, history, r)
    ensures Met(q, recent, r) <==>
      q.queued != [] && recent != [] && forall p :: p in q.queued ==> p in Reported(recent) || p in Reported(history)
  {
    if q.queued != [] && recent != [] {
      var found, done := Reported(recent), Reported(history);
      forall p | p in q.queued && r.queued == [] ensures p in found || p in done {
        SettledPlaces(q, found, done, r, p);
      }
      if r.queued != [] {
        var p := r.queued[0];
        SettledPlaces(q, found, done, r, p);
        assert p in q.queued && p !in found && p !in done;
      }
    }
  }

  /**
   An advance keeps every known package exactly when each queued one is already in a later
   list or is found in the histories; the histories are read only with recent blocks at hand.
   */
  lemma AdvanceKeepsPackages(q: Queues, recent: seq<seq<Hash>>, history: seq<seq<Hash>>, r: Queues)
    requires Checked(q, recent, history, r)
    ensures Known(Queues([], r.refined, r.accumulated)) == Known(q) <==>
      Elems(q.queued) <= Elems(q.refined) + Elems(q.accumulated)
        + if recent == [] then {} else Reported(recent) + Reported(history)
  {
    if q.queued != [] && recent != [] {
      var found, done := Reported(recent), Reported(history);
      SettledConserves(q, found, done, r);
      WithoutElems(q.refined, done);
      ExtendsElems(Without(q.refined, done), Elems(q.queued) * found - done, r.refined);
      ExtendsElems(q.accumulated, (Elems(q.queued) + Elems(q.refined)) * done, r.accumulated);
    }
  }

  /** One queued package and no recent blocks: the advance discards it. */
  lemma QueuedPackageLost(p: Hash, history: seq<seq<Hash>>)
    ensures var q := Queues([p], [], []);
      Checked(q, [], history, q) && Known(q) == {p} && Known(Queues([], q.refined, q.accumulated)) == {}
  {
  }

  // ---------- runs ----------

  /** `moved` records that the manager has advanced at least once. */
  datatype Barrier = Barrier(slot: int, completed: seq<int>, pending: seq<int>, moved: bool)

  /** Nodes go on completing slots while a tick polls: `later` is where they stand after it. */
  datatype Step =
    | Complete(node: nat, reported: int)
    | Tick(readings: seq<int>, later: seq<int>, allow: bool)

  predicate Legal(b: Barrier, step: Step) {
    match step
    case Complete(i, _) => i < |b.completed|
    case Tick(readings, later, _) =>
      && |readings| == |later| == |b.completed|
      && forall i :: 0 <= i < |later| ==> b.completed[i] <= readings[i] <= later[i]
  }

  function Next(defaultClock: bool, b: Barrier, step: Step): Barrier
    requires Legal(b, step)
  {
    match step
    case Complete(i, reported) => b.(completed := b.completed[i := SetCompleted(defaultClock, b.completed[i], reported)])
    case Tick(readings, later, allow) =>
      var advanced := allow && Without(b.pending, Done(readings, b.slot)) == [];
      var (slot, pending) := AfterTick(|later|, b.slot, b.pending, readings, advanced);
      Barrier(slot, later, pending, b.moved || advanced)
  }

  /** Nodes that are not pending have completed the slot, and no node lags more than one behind. */
  predicate Holds(b: Barrier) {
    && b.slot >= 0 && InRange(b.pending, |b.completed|)
    && (forall i :: 0 <= i < |b.completed| ==> b.completed[i] >= 0)
    && (forall i :: 0 <= i < |b.completed| && i !in b.pending ==> b.completed[i] >= b.slot)
    && (b.moved ==> forall i :: 0 <= i < |b.completed| ==> b.slot <= b.completed[i] + 1)
  }

  /** The manager advances from a slot only once every node has completed it. */
  lemma AdvanceWaits(b: Barrier, readings: seq<int>, later: seq<int>)
    requires Holds(b) && Legal(b, Tick(readings, later, true))
    requires Without(b.pending, Done(readings, b.slot)) == []
    ensures forall i :: 0 <= i < |later| ==> later[i] >= b.slot
  {
    WithoutElems(b.pending, Done(readings, b.slot));
    forall i | 0 <= i < |later| ensures later[i] >= b.slot {
      if i in b.pending {
        assert i in Elems(b.pending) && i !in Elems(b.pending) - Done(readings, b.slot);
      }
    }
  }

  lemma PollHolds(b: Barrier, readings: seq<int>, later: seq<int>)
    requires Holds(b) && Legal(b, Tick(readings, later, false))
    ensures Holds(Next(false, b, Tick(readings, later, false)))
  {
    var done := Done(readings, b.slot);
    WithoutElems(b.pending, done);
    var kept := Without(b.pending, done);
    forall i ensures i in kept <==> i in b.pending && i !in done {
      assert i in kept <==> i in Elems(kept);
      assert i in b.pending <==> i in Elems(b.pending);
    }
  }

  lemma StepHolds(b: Barrier, step: Step)
    requires Holds(b) && Legal(b, step) && (step.Complete? ==> step.reported >= 0)
    ensures Holds(Next(false, b, step))
  {
    if step.Tick? {
      PollHolds(b, step.readings, step.later);
      if step.allow && Without(b.pending, Done(step.readings, b.slot)) == [] {
        AdvanceWaits(b, step.readings, step.later);
        AllNodesElems(|step.later|);
      }
    }
  }

  predicate LegalRun(defaultClock: bool, b: Barrier, steps: seq<Step>)
    decreases |steps|
  {
    steps == []
      || (Legal(b, steps[0]) && (steps[0].Complete? ==> steps[0].reported >= 0)
        && LegalRun(defaultClock, Next(defaultClock, b, steps[0]), steps[1..]))
  }

  function Run(defaultClock: bool, b: Barrier, steps: seq<Step>): Barrier
    requires LegalRun(defaultClock, b, steps)
    decreases |steps|
  {
    if steps == [] then b else Run(defaultClock, Next(defaultClock, b, steps[0]), steps[1..])
  }

  predicate Starts(b: Barrier) {
    && b.slot >= 0 && b.pending == AllNodes(|b.completed|) && !b.moved
    && forall i :: 0 <= i < |b.completed| ==> b.completed[i] >= 0
  }

  /** In every run outside default clock mode, once the manager has advanced the slot is at most one above the slowest node. */
  lemma BarrierHolds(b: Barrier, steps: seq<Step>)
    requires Starts(b) && LegalRun(false, b, steps)
    ensures Holds(Run(false, b, steps))
  {
    AllNodesElems(|b.completed|);
    RunHolds(b, steps);
  }

  lemma {:induction false} RunHolds(b: Barrier, steps: seq<Step>)
    requires Holds(b) && LegalRun(false, b, steps)
    ensures Holds(Run(false, b, steps))
    decreases |steps|
  {
    if steps != [] {
      StepHolds(b, steps[0]);
      RunHolds(Next(false, b, steps[0]), steps[1..]);
    }
  }

  /** Every node still polled has completed the slot, and the packages allow to go on. */
  predicate Moves(b: Barrier, step: Step) {
    step.Tick? && step.allow && forall i :: i in b.pending && 0 <= i < |step.readings| ==> step.readings[i] >= b.slot
  }

  /** How often the manager moved on. */
  function Advances(defaultClock: bool, b: Barrier, steps: seq<Step>): nat
    requires LegalRun(defaultClock, b, steps)
    decreases |steps|
  {
    if steps == [] then 0
    else (if Moves(b, steps[0]) then 1 else 0) + Advances(defaultClock, Next(defaultClock, b, steps[0]), steps[1..])
  }

  lemma AdvancesWhenDone(defaultClock: bool, b: Barrier, step: Step)
    requires Legal(b, step) && InRange(b.pending, |b.completed|)
    ensures var next := Next(defaultClock, b, step);
      && InRange(next.pending, |next.completed|)
      && next.slot == if Moves(b, step) then NextSlot(b.slot) else b.slot
  {
    AllNodesElems(|b.completed|);
    if step.Tick? {
      var done := Done(step.readings, b.slot);
      var waiting := Without(b.pending, done);
      WithoutElems(b.pending, done);
      forall i ensures i in waiting <==> i in b.pending && i !in done {
        assert i in waiting <==> i in Elems(waiting);
        assert i in b.pending <==> i in Elems(b.pending);
      }
      if waiting != [] {
        assert waiting[0] in waiting;
      }
    }
  }

  /** The slot counts the advances: it is the first slot plus their number, by 32-bit arithmetic. */
  lemma {:induction false} SlotCountsAdvances(defaultClock: bool, b: Barrier, steps: seq<Step>)
    requires InRange(b.pending, |b.completed|) && 0 <= b.slot < 0x1_0000_0000 && LegalRun(defaultClock, b, steps)
    ensures Run(defaultClock, b, steps).slot == (b.slot + Advances(defaultClock, b, steps)) % 0x1_0000_0000
    decreases |steps|
  {
    hide Next, Moves, Legal, InRange;
    if steps != [] {
      AdvancesWhenDone(defaultClock, b, steps[0]);
      SlotCountsAdvances(defaultClock, Next(defaultClock, b, steps[0]), steps[1..]);
    }
  }

  /** Outside default clock mode a node stands at the latest slot it has reported. */
  lemma CompletedIsLatest(b: Barrier, i: nat, reported: int)
    requires i < |b.completed| && b.completed[i] >= 0 && reported >= 0
    ensures Next(false, b, Complete(i, reported)).completed[i]
      == if reported > b.completed[i] then reported else b.completed[i]
    ensures Next(true, b, Complete(i, reported)).completed[i] == reported
  {
  }

  lemma RunCons(defaultClock: bool, b: Barrier, step: Step, steps: seq<Step>)
    requires Legal(b, step) && (step.Complete? ==> step.reported >= 0)
    requires LegalRun(defaultClock, Next(defaultClock, b, step), steps)
    ensures LegalRun(defaultClock, b, [step] + steps)
    ensures Run(defaultClock, b, [step] + steps) == Run(defaultClock, Next(defaultClock, b, step), steps)
  {
    assert ([step] + steps)[1..] == steps;
  }

  /**
   In default clock mode completions may go back, and then the barrier fails: a node seen
   at the slot and no longer polled falls back before the other one arrives, and the
   manager moves on although the first node is behind by more than the slot itself.
   */
  lemma DefaultClockBreaksBarrier(slot: int) returns (steps: seq<Step>)
    requires 0 < slot < MAX_SLOT
    ensures LegalRun(true, Barrier(slot, [0, 0], [0, 1], false), steps)
    ensures !Holds(Run(true, Barrier(slot, [0, 0], [0, 1], false), steps))
  {
    var start := Barrier(slot, [0, 0], [0, 1], false);
    PendingShrinks(slot);
    var last := Barrier(slot, [0, slot], [1], false);
    var end := Barrier(slot + 1, [0, slot], AllNodes(2), true);
    var t := Tick([0, slot], [0, slot], true);
    steps := [t];
    assert Next(true, last, t) == end;
    assert steps == [t] + [];
    RunCons(true, last, t, []);
    assert end.completed[0] == 0;
    steps := PrependFall(slot, steps);
  }

  /** The first node completes the slot and is polled; then it falls back and the second arrives. */
  lemma PrependFall(slot: int, steps: seq<Step>) returns (more: seq<Step>)
    requires 0 < slot < MAX_SLOT
    requires LegalRun(true, Barrier(slot, [0, slot], [1], false), steps)
    ensures LegalRun(true, Barrier(slot, [0, 0], [0, 1], false), more)
    ensures Run(true, Barrier(slot, [0, 0], [0, 1], false), more) == Run(true, Barrier(slot, [0, slot], [1], false), steps)
  {
    PendingShrinks(slot);
    var fallen, seen := Barrier(slot, [0, 0], [1], false), Barrier(slot, [slot, 0], [1], false);
    assert [0, 0][1 := slot] == [0, slot] && [slot, 0][0 := 0] == [0, 0] && [0, 0][0 := slot] == [slot, 0];
    var arrive, fall := Complete(1, slot), Complete(0, 0);
    assert Next(true, fallen, arrive) == Barrier(slot, [0, slot], [1], false);
    RunCons(true, fallen, arrive, steps);
    assert Next(true, seen, fall) == fallen;
    RunCons(true, seen, fall, [arrive] + steps);
    more := [fall] + ([arrive] + steps);
    var polled := Barrier(slot, [slot, 0], [0, 1], false);
    var poll := Tick([slot, 0], [slot, 0], false);
    assert Next(true, polled, poll) == seen;
    RunCons(true, polled, poll, more);
    RunCons(true, Barrier(slot, [0, 0], [0, 1], false), Complete(0, slot), [poll] + more);
    more := [Complete(0, slot)] + ([poll] + more);
  }

  lemma PendingShrinks(slot: int)
    requires 0 < slot
    ensures Without([0, 1], Done([slot, 0], slot)) == [1]
    ensures Without([1], Done([0, slot], slot)) == []
  {
    assert 0 in Done([slot, 0], slot) && 1 !in Done([slot, 0], slot);
    assert [0, 1][..1] == [0];
    WithoutOne(0, Done([slot, 0], slot));
    assert [0, slot][1] == slot;
    assert 1 in Done([0, slot], slot);
    WithoutOne(1, Done([0, slot], slot));
  }
}
