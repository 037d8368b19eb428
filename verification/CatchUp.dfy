/**
 From messages to trackers and back: the vote handlers, the export of a round's votes,
 and the replay of an exported round by a node that fell behind.
 */
module CatchUp {
  import opened Sums
  import opened Votes
  import opened Evidence

  /** What a voter signs: the message bound to a round and an authority set. */
  datatype UnsignedVote = UnsignedVote(stage: Stage, block: Hash, slot: nat, round: nat, setId: nat)

  /** Signature checking is a parameter of the model: key, signed data, signature. */
  type Verifier = (Key, UnsignedVote, nat) -> bool

  datatype GrandpaVote = GrandpaVote(round: nat, setId: nat, msg: SignedMessage)

  datatype CatchUpResponse = CatchUpResponse(round: nat, prevotes: seq<SignedMessage>, precommits: seq<SignedMessage>)

  /** The message is for this stage and its signature checks out. */
  predicate Vouched(verify: Verifier, stage: Stage, round: nat, setId: nat, m: SignedMessage) {
    m.stage == stage && verify(m.voter, UnsignedVote(m.stage, m.block, m.slot, round, setId), m.signature)
  }

  // ---------- replay of an export ----------

  /** The list holds exactly the recorded messages, in any order. */
  ghost predicate IsExport(t: Tracker, ms: seq<SignedMessage>) {
    && (forall v, b :: v in t.votes && b in t.votes[v] ==> t.votes[v][b] in ms)
    && (forall m :: m in ms ==> m.voter in t.votes && m.block in t.votes[m.voter] && t.votes[m.voter][m.block] == m)
  }

  function Offers(stage: Stage, ms: seq<SignedMessage>): (r: seq<Offer>)
    ensures |r| == |ms| && forall i :: 0 <= i < |ms| ==> r[i] == Offer(ms[i], stage)
  {
    if ms == [] then [] else Offers(stage, ms[..|ms| - 1]) + [Offer(ms[|ms| - 1], stage)]
  }

  lemma OffersSnoc(stage: Stage, ms: seq<SignedMessage>, m: SignedMessage, t: Tracker)
    ensures Offers(stage, ms + [m]) == Offers(stage, ms) + [Offer(m, stage)]
    ensures AddAll(t, Offers(stage, ms + [m])) == AddVote(AddAll(t, Offers(stage, ms)), Offer(m, stage))
  {
    assert (ms + [m])[..|ms|] == ms;
    var offers := Offers(stage, ms + [m]);
    assert offers[..|ms|] == Offers(stage, ms);
  }

  /** Every recorded message was offered. */
  lemma {:induction false} RecordedWasOffered(t: Tracker, offers: seq<Offer>, v: Key, b: Hash)
    requires Valid(t)
    requires v in AddAll(t, offers).votes && b in AddAll(t, offers).votes[v]
    requires !(v in t.votes && b in t.votes[v])
    ensures exists i :: 0 <= i < |offers| && offers[i].msg == AddAll(t, offers).votes[v][b]
    decreases |offers|
  {
    if offers != [] {
      var init, last := offers[..|offers| - 1], offers[|offers| - 1];
      var prior := AddAll(t, init);
      AddAllStep(t, init);
      if v in prior.votes && b in prior.votes[v] {
        RecordedWasOffered(t, init, v, b);
        var i :| 0 <= i < |init| && init[i].msg == prior.votes[v][b];
        AddVoteStep(prior, last);
        assert offers[i].msg == AddAll(t, offers).votes[v][b];
      } else {
        assert offers[|offers| - 1].msg == AddAll(t, offers).votes[v][b];
      }
    }
  }

  lemma ExportOffers(t: Tracker, ms: seq<SignedMessage>)
    requires Valid(t) && IsExport(t, ms)
    ensures Offered(t.stage, Offers(t.stage, ms)) == Pairs(t)
  {
    var offers := Offers(t.stage, ms);
    forall p ensures p in Offered(t.stage, offers) <==> p in Pairs(t) {
      OfferedMember(t.stage, offers, p);
      if p in Pairs(t) {
        var i :| 0 <= i < |ms| && ms[i] == t.votes[p.0][p.1];
        assert PairOf(offers[i]) == p;
      }
      if i :| 0 <= i < |offers| && offers[i].stage == t.stage && PairOf(offers[i]) == p {
        assert ms[i] in ms;
      }
    }
  }

  /**
   Faithful catch-up: offering an export, in any order, to a fresh tracker with the
   same stakes rebuilds every recorded message and every voter's state.
   */
  lemma ReplayRebuilds(t: Tracker, stakes: map<Key, nat>, ms: seq<SignedMessage>)
    requires Valid(t) && BuiltOn(t, stakes) && IsExport(t, ms)
    ensures var r := AddAll(Fresh(t.stage, t.round, stakes), Offers(t.stage, ms));
      r.votes == t.votes && r.voters == t.voters && r.stage == t.stage && r.round == t.round
  {
    var start := Fresh(t.stage, t.round, stakes);
    var r := AddAll(start, Offers(t.stage, ms));
    FreshValid(t.stage, t.round, stakes);
    ReplayPairs(t, stakes, ms);
    TableOfTracker(t, stakes);
    TableOfTracker(r, stakes);
    forall v, b | v in r.votes && b in r.votes[v] ensures v in t.votes && b in t.votes[v] && r.votes[v][b] == t.votes[v][b] {
      RebuiltEntry(t, start, ms, v, b);
    }
    SameBallots(t, r);
  }

  lemma ReplayPairs(t: Tracker, stakes: map<Key, nat>, ms: seq<SignedMessage>)
    requires Valid(t) && IsExport(t, ms)
    ensures var r := AddAll(Fresh(t.stage, t.round, stakes), Offers(t.stage, ms));
      Valid(r) && BuiltOn(r, stakes) && Pairs(r) == Pairs(t) && r.stage == t.stage && r.round == t.round
  {
    var start, offers := Fresh(t.stage, t.round, stakes), Offers(t.stage, ms);
    FreshValid(t.stage, t.round, stakes);
    assert Pairs(start) == {};
    AddAllStep(start, offers);
    AddAllBuiltOn(start, offers, stakes);
    ExportOffers(t, ms);
  }

  lemma RebuiltEntry(t: Tracker, start: Tracker, ms: seq<SignedMessage>, v: Key, b: Hash)
    requires IsExport(t, ms) && Valid(start) && start.votes == map[] && Valid(AddAll(start, Offers(t.stage, ms)))
    requires v in AddAll(start, Offers(t.stage, ms)).votes && b in AddAll(start, Offers(t.stage, ms)).votes[v]
    ensures v in t.votes && b in t.votes[v] && AddAll(start, Offers(t.stage, ms)).votes[v][b] == t.votes[v][b]
  {
    var offers := Offers(t.stage, ms);
    RecordedWasOffered(start, offers, v, b);
    var i :| 0 <= i < |offers| && offers[i].msg == AddAll(start, offers).votes[v][b];
    assert ms[i] in ms;
  }

  lemma SameBallots(t: Tracker, r: Tracker)
    requires Valid(t) && Valid(r) && Pairs(t) == Pairs(r)
    requires forall v, b :: v in r.votes && b in r.votes[v] ==> v in t.votes && b in t.votes[v] && r.votes[v][b] == t.votes[v][b]
    ensures r.votes == t.votes
  {
    forall v ensures v in t.votes <==> v in r.votes {
      BlocksInPairs(t, v);
      BlocksInPairs(r, v);
    }
    forall v | v in t.votes ensures t.votes[v] == r.votes[v] {
      BlocksInPairs(t, v);
      BlocksInPairs(r, v);
    }
  }

  // ---------- which messages a node records ----------

  /** What decides whether a node records a message. */
  datatype Rules = Rules(verify: Verifier, setId: nat, authorities: seq<Key>)

  /** Whether the stage's handler records a message of this round and set. */
  predicate Admits(rules: Rules, stage: Stage, round: nat, setOf: nat, m: SignedMessage) {
    Vouched(rules.verify, stage, round, setOf, m) && (stage == Precommit ==> m.voter in rules.authorities)
  }

  /** Only messages the stage's handler admits under the node's own set id are on record. */
  ghost predicate OnlyAdmitted(rules: Rules, stage: Stage, round: nat, t: Tracker) {
    forall v, b :: v in t.votes && b in t.votes[v] ==> Admits(rules, stage, round, rules.setId, t.votes[v][b])
  }

  /** A recorded message is an earlier one or the one just offered. */
  lemma RecordedEntry(t: Tracker, o: Offer, v: Key, b: Hash)
    requires v in AddVote(t, o).votes && b in AddVote(t, o).votes[v]
    ensures (v == o.msg.voter && AddVote(t, o).votes[v][b] == o.msg)
         || (v in t.votes && b in t.votes[v] && AddVote(t, o).votes[v][b] == t.votes[v][b])
  {
  }

  lemma AddKeepsAdmitted(rules: Rules, stage: Stage, round: nat, t: Tracker, m: SignedMessage)
    requires OnlyAdmitted(rules, stage, round, t) && Admits(rules, stage, round, rules.setId, m)
    ensures OnlyAdmitted(rules, stage, round, AddVote(t, Offer(m, stage)))
  {
    var r := AddVote(t, Offer(m, stage));
    forall v, b | v in r.votes && b in r.votes[v] ensures Admits(rules, stage, round, rules.setId, r.votes[v][b]) {
      RecordedEntry(t, Offer(m, stage), v, b);
    }
  }

  /** The messages the handler records, in order; the others are skipped. */
  function Admitted(rules: Rules, stage: Stage, round: nat, ms: seq<SignedMessage>): seq<SignedMessage>
    decreases |ms|
  {
    if ms == [] then []
    else
      var last := ms[|ms| - 1];
      Admitted(rules, stage, round, ms[..|ms| - 1]) + if Admits(rules, stage, round, rules.setId, last) then [last] else []
  }

  lemma {:induction false} AllAdmitted(rules: Rules, stage: Stage, round: nat, ms: seq<SignedMessage>)
    requires forall m :: m in ms ==> Admits(rules, stage, round, rules.setId, m)
    ensures Admitted(rules, stage, round, ms) == ms
    decreases |ms|
  {
    if ms != [] {
      assert ms == ms[..|ms| - 1] + [ms[|ms| - 1]];
      AllAdmitted(rules, stage, round, ms[..|ms| - 1]);
    }
  }

  // ---------- the export ----------

  /** Appends every recorded message, voter by voter. */
  method ExportVotes(t: Tracker) returns (ms: seq<SignedMessage>)
    requires Valid(t)
    ensures IsExport(t, ms)
  {
    ms := [];
    var rest := t.votes.Keys;
    while rest != {}
      invariant rest <= t.votes.Keys
      invariant forall v, b :: v in t.votes && v !in rest && b in t.votes[v] ==> t.votes[v][b] in ms
      invariant forall m :: m in ms ==> m.voter in t.votes && m.block in t.votes[m.voter] && t.votes[m.voter][m.block] == m
      decreases |rest|
    {
      ghost var m := Member(rest);
      var voter :| voter in rest;
      var own := ExportVoter(t.votes[voter]);
      ms := ms + own;
      rest := rest - {voter};
    }
  }

  method ExportVoter(votes: map<Hash, SignedMessage>) returns (ms: seq<SignedMessage>)
    ensures forall m :: m in ms <==> exists b :: b in votes && votes[b] == m
  {
    ms := [];
    var rest := votes.Keys;
    while rest != {}
      invariant rest <= votes.Keys
      invariant forall m :: m in ms <==> exists b :: b in votes && b !in rest && votes[b] == m
      decreases |rest|
    {
      ghost var n := Member(rest);
      var b :| b in rest;
      ms := ms + [votes[b]];
      rest := rest - {b};
    }
  }
}
