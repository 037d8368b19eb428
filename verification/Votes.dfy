/**
 Vote accounting of one GRANDPA round and stage: who voted for what, which voters
 have equivocated, and how much stake stands behind a set of blocks.

 Keys and block hashes are 32-byte strings in the source and are only compared for
 equality, so both are plain integers here.
 */
module Votes {
  import opened Sums

  type Key = int
  type Hash = int

  datatype Stage = Prevote | Precommit | PrimaryPropose

  datatype SignedMessage = SignedMessage(stage: Stage, block: Hash, slot: nat, signature: nat, voter: Key)

  datatype Participation = NotParticipate | Voted | Equivocation

  datatype VoterState = VoterState(state: Participation, staked: nat)

  datatype Tracker = Tracker(
    stage: Stage,
    round: nat,
    blockHashes: map<nat, Hash>,
    votes: map<Key, map<Hash, SignedMessage>>,
    voters: map<Key, VoterState>)

  /** One call of AddVote: the message and the stage the caller passes along. */
  datatype Offer = Offer(msg: SignedMessage, stage: Stage)

  // ---------- operations ----------

  /** Reading an unknown voter yields the zero value: not participating, no stake. */
  function StateOf(t: Tracker, v: Key): VoterState {
    if v in t.voters then t.voters[v] else VoterState(NotParticipate, 0)
  }

  function BlocksOf(t: Tracker, v: Key): set<Hash> {
    if v in t.votes then t.votes[v].Keys else {}
  }

  function Fresh(stage: Stage, round: nat, stakes: map<Key, nat>): Tracker {
    Tracker(stage, round, map[], map[], map v | v in stakes :: VoterState(NotParticipate, stakes[v]))
  }

  function NextState(s: VoterState): VoterState {
    match s.state
    case NotParticipate => s.(state := Voted)
    case Voted => s.(state := Equivocation)
    case Equivocation => s
  }

  predicate Accepts(t: Tracker, o: Offer) {
    o.stage == t.stage && o.msg.block !in BlocksOf(t, o.msg.voter)
  }

  function Record(t: Tracker, msg: SignedMessage): Tracker {
    var mine := if msg.voter in t.votes then t.votes[msg.voter] else map[];
    t.(blockHashes := t.blockHashes[msg.slot := msg.block],
       votes := t.votes[msg.voter := mine[msg.block := msg]],
       voters := t.voters[msg.voter := NextState(StateOf(t, msg.voter))])
  }

  /** The tracker after one AddVote; a rejected vote leaves it as it was. */
  function AddVote(t: Tracker, o: Offer): Tracker {
    if Accepts(t, o) then Record(t, o.msg) else t
  }

  function AddAll(t: Tracker, offers: seq<Offer>): Tracker
    decreases |offers|
  {
    if offers == [] then t
    else AddVote(AddAll(t, offers[..|offers| - 1]), offers[|offers| - 1])
  }

  // ---------- what a tracker means ----------

  function Classify(n: nat): Participation {
    if n == 0 then NotParticipate else if n == 1 then Voted else Equivocation
  }

  /** The (voter, block) pairs on record. */
  ghost function Pairs(t: Tracker): set<(Key, Hash)> {
    set v, b | v in t.votes && b in t.votes[v] :: (v, b)
  }

  function Stakes(t: Tracker): map<Key, nat> {
    map v | v in t.voters :: t.voters[v].staked
  }

  /**
   Every stored vote sits under its own voter and block, and a voter's state says
   whether it has voted for zero, one, or at least two distinct blocks.
   */
  ghost predicate Valid(t: Tracker) {
    && (forall v :: v in t.votes ==> v in t.voters && t.votes[v] != map[])
    && (forall v, b :: v in t.votes && b in t.votes[v] ==> t.votes[v][b].voter == v && t.votes[v][b].block == b)
    && (forall v :: v in t.voters ==> t.voters[v].state == Classify(|BlocksOf(t, v)|))
  }

  /** The known voters are those given a stake at the start plus those that voted. */
  ghost predicate BuiltOn(t: Tracker, stakes: map<Key, nat>) {
    && t.voters.Keys == stakes.Keys + t.votes.Keys
    && forall v :: v in t.voters ==> t.voters[v].staked == Get(stakes, v)
  }

  lemma FreshValid(stage: Stage, round: nat, stakes: map<Key, nat>)
    ensures Valid(Fresh(stage, round, stakes)) && BuiltOn(Fresh(stage, round, stakes), stakes)
  {
  }

  lemma RecordBlocks(t: Tracker, msg: SignedMessage, w: Key)
    ensures BlocksOf(Record(t, msg), w) == BlocksOf(t, w) + if w == msg.voter then {msg.block} else {}
  {
  }

  lemma InPairs(t: Tracker, v: Key, b: Hash)
    ensures (v, b) in Pairs(t) <==> b in BlocksOf(t, v)
  {
  }

  lemma RecordPairs(t: Tracker, msg: SignedMessage)
    ensures Pairs(Record(t, msg)) == Pairs(t) + {(msg.voter, msg.block)}
  {
    forall w, b ensures (w, b) in Pairs(Record(t, msg)) <==> (w, b) in Pairs(t) + {(msg.voter, msg.block)} {
      InPairs(Record(t, msg), w, b);
      InPairs(t, w, b);
      RecordBlocks(t, msg, w);
    }
  }

  lemma RecordStored(t: Tracker, msg: SignedMessage, v: Key)
    requires Valid(t) && v in Record(t, msg).votes
    ensures var r := Record(t, msg);
      && v in r.voters && r.votes[v] != map[]
      && (forall b :: b in r.votes[v] ==> r.votes[v][b].voter == v && r.votes[v][b].block == b)
  {
    var r := Record(t, msg);
    if v == msg.voter {
      assert msg.block in r.votes[v];
    } else {
      assert v in t.votes && r.votes[v] == t.votes[v];
    }
  }

  lemma RecordState(t: Tracker, msg: SignedMessage, v: Key)
    requires Valid(t) && msg.block !in BlocksOf(t, msg.voter) && v in Record(t, msg).voters
    ensures Record(t, msg).voters[v].state == Classify(|BlocksOf(Record(t, msg), v)|)
  {
    RecordBlocks(t, msg, v);
    if v == msg.voter {
      assert |BlocksOf(t, v) + {msg.block}| == |BlocksOf(t, v)| + 1;
      assert v !in t.voters ==> BlocksOf(t, v) == {};
    }
  }

  lemma RecordValid(t: Tracker, msg: SignedMessage)
    requires Valid(t) && msg.block !in BlocksOf(t, msg.voter)
    ensures Valid(Record(t, msg))
    ensures Pairs(Record(t, msg)) == Pairs(t) + {(msg.voter, msg.block)}
  {
    RecordPairs(t, msg);
    var r := Record(t, msg);
    assert Valid(r) by {
      forall v | v in r.votes
        ensures v in r.voters && r.votes[v] != map[]
        ensures forall b :: b in r.votes[v] ==> r.votes[v][b].voter == v && r.votes[v][b].block == b
      {
        RecordStored(t, msg, v);
      }
      forall v | v in r.voters ensures r.voters[v].state == Classify(|BlocksOf(r, v)|) {
        RecordState(t, msg, v);
      }
    }
  }

  // ---------- weights ----------

  /** Non-equivocating voters on record for block b. */
  ghost function VotersFor(t: Tracker, b: Hash): set<Key> {
    set v | v in t.votes && b in t.votes[v] && StateOf(t, v).state != Equivocation
  }

  ghost function VotesWeight(t: Tracker, b: Hash): nat {
    Sum(VotersFor(t, b), Stakes(t))
  }

  ghost function Equivocators(t: Tracker): set<Key> {
    set v | v in t.voters && t.voters[v].state == Equivocation
  }

  ghost function EquivocationWeight(t: Tracker): nat {
    Sum(Equivocators(t), Stakes(t))
  }

  ghost function Unvoted(t: Tracker): set<Key> {
    set v | v in t.voters && t.voters[v].state == NotParticipate
  }

  ghost function UnvotedWeight(t: Tracker): nat {
    Sum(Unvoted(t), Stakes(t))
  }

  ghost function TotalStake(t: Tracker): nat {
    Sum(t.voters.Keys, Stakes(t))
  }

  ghost function WeightMap(t: Tracker, blocks: set<Hash>): map<Hash, nat> {
    map b | b in blocks :: VotesWeight(t, b)
  }

  /** Votes weights added up over a set of blocks. */
  ghost function WeightOf(t: Tracker, blocks: set<Hash>): nat {
    Sum(blocks, WeightMap(t, blocks))
  }

  ghost function AllBlocks(t: Tracker): set<Hash> {
    set v, b | v in t.votes && b in t.votes[v] :: b
  }

  /** Observed weight behind a set of blocks: its votes plus all equivocating stake. */
  ghost function Observed(t: Tracker, blocks: set<Hash>): nat {
    WeightOf(t, blocks) + EquivocationWeight(t)
  }

  /** Potential weight: observed weight plus all stake that has not voted yet. */
  ghost function Potential(t: Tracker, blocks: set<Hash>): nat {
    Observed(t, blocks) + UnvotedWeight(t)
  }

  /** Voters with exactly one vote, for a block in the set. */
  ghost function VotersInside(t: Tracker, blocks: set<Hash>): set<Key> {
    set v | v in t.voters && t.voters[v].state == Voted && BlocksOf(t, v) <= blocks
  }

  ghost function Supporters(t: Tracker, blocks: set<Hash>): set<Key> {
    VotersInside(t, blocks) + Equivocators(t)
  }

  lemma OnlyMember<T>(s: set<T>) returns (b: T)
    requires |s| == 1
    ensures s == {b}
  {
    assert s != {};
    b :| b in s;
    assert |s - {b}| == 0;
  }

  lemma SingleVote(t: Tracker, v: Key) returns (b: Hash)
    requires Valid(t) && v in t.voters && t.voters[v].state == Voted
    ensures BlocksOf(t, v) == {b}
  {
    b := OnlyMember(BlocksOf(t, v));
  }

  lemma VotersForIsSingle(t: Tracker, b: Hash)
    requires Valid(t)
    ensures VotersFor(t, b) == VotersInside(t, {b})
  {
    forall v | v in VotersFor(t, b) ensures v in VotersInside(t, {b}) {
      assert b in BlocksOf(t, v);
      var c := SingleVote(t, v);
    }
    forall v | v in VotersInside(t, {b}) ensures v in VotersFor(t, b) {
      var c := SingleVote(t, v);
      assert v in t.votes;
    }
  }

  /** The voters of each block, by block. */
  ghost function VoterGroups(t: Tracker, blocks: set<Hash>): map<Hash, set<Key>> {
    map b | b in blocks :: VotersInside(t, {b})
  }

  lemma GroupsApart(t: Tracker, blocks: set<Hash>)
    requires Valid(t)
    ensures Apart(blocks, VoterGroups(t, blocks))
  {
    forall b, c | b in blocks && c in blocks && b != c ensures VotersInside(t, {b}) !! VotersInside(t, {c}) {
      forall v | v in VotersInside(t, {b}) && v in VotersInside(t, {c}) ensures false {
        var d := SingleVote(t, v);
      }
    }
  }

  lemma GroupsCover(t: Tracker, blocks: set<Hash>)
    requires Valid(t)
    ensures Covered(blocks, VoterGroups(t, blocks)) == VotersInside(t, blocks)
  {
    forall v | v in VotersInside(t, blocks) ensures v in Covered(blocks, VoterGroups(t, blocks)) {
      var b := SingleVote(t, v);
      assert b in blocks && v in VoterGroups(t, blocks)[b];
    }
    forall v | v in Covered(blocks, VoterGroups(t, blocks)) ensures v in VotersInside(t, blocks) {
      var b := CoveredBy(blocks, VoterGroups(t, blocks), v);
    }
  }

  /** Double counting: summing per block or per voter gives the same weight. */
  lemma WeightByVoters(t: Tracker, blocks: set<Hash>)
    requires Valid(t)
    ensures WeightOf(t, blocks) == Sum(VotersInside(t, blocks), Stakes(t))
  {
    GroupsApart(t, blocks);
    GroupsCover(t, blocks);
    forall b | b in blocks ensures WeightMap(t, blocks)[b] == Sum(VoterGroups(t, blocks)[b], Stakes(t)) {
      VotersForIsSingle(t, b);
    }
    SumGroups(blocks, VoterGroups(t, blocks), Stakes(t), WeightMap(t, blocks));
  }

  lemma ObservedBySupporters(t: Tracker, blocks: set<Hash>)
    requires Valid(t)
    ensures Observed(t, blocks) == Sum(Supporters(t, blocks), Stakes(t))
  {
    WeightByVoters(t, blocks);
    SumUnion(VotersInside(t, blocks), Equivocators(t), Stakes(t));
  }

  lemma VotersPartition(t: Tracker)
    requires Valid(t)
    ensures t.voters.Keys == Unvoted(t) + Equivocators(t) + VotersInside(t, AllBlocks(t))
  {
    forall v | v in t.voters ensures v in Unvoted(t) + Equivocators(t) + VotersInside(t, AllBlocks(t)) {
      BlocksInAll(t, v);
    }
  }

  lemma BlocksInAll(t: Tracker, v: Key)
    ensures BlocksOf(t, v) <= AllBlocks(t)
  {
    forall b | b in BlocksOf(t, v) ensures b in AllBlocks(t) {
      assert v in t.votes && b in t.votes[v];
    }
  }

  /**
   Stake conservation: in every valid tracker the stake that has not voted, the
   equivocating stake and the weights of all voted blocks add up to the total stake.
   */
  lemma StakeConservation(t: Tracker)
    requires Valid(t)
    ensures UnvotedWeight(t) + EquivocationWeight(t) + WeightOf(t, AllBlocks(t)) == TotalStake(t)
  {
    var inside := VotersInside(t, AllBlocks(t));
    WeightByVoters(t, AllBlocks(t));
    SumUnion(Unvoted(t), Equivocators(t), Stakes(t));
    SumUnion(Unvoted(t) + Equivocators(t), inside, Stakes(t));
    VotersPartition(t);
  }

  /** No weight the round computes exceeds the total stake. */
  lemma PotentialBounded(t: Tracker, blocks: set<Hash>)
    requires Valid(t)
    ensures Potential(t, blocks) <= TotalStake(t)
  {
    ObservedBySupporters(t, blocks);
    SumUnion(Supporters(t, blocks), Unvoted(t), Stakes(t));
    SumSubset(Supporters(t, blocks) + Unvoted(t), t.voters.Keys, Stakes(t));
  }

  /**
   Accountable safety, set form: two disjoint sets of blocks can only both be backed
   by more than their share if the excess is equivocating stake.
   */
  lemma DisjointSupport(t: Tracker, left: set<Hash>, right: set<Hash>)
    requires Valid(t) && left !! right
    ensures Observed(t, left) + Observed(t, right) <= TotalStake(t) + EquivocationWeight(t)
  {
    ObservedBySupporters(t, left);
    ObservedBySupporters(t, right);
    var a, b := Supporters(t, left), Supporters(t, right);
    forall v | v in a && v in b ensures v in Equivocators(t) {
      if v !in Equivocators(t) {
        var c := SingleVote(t, v);
      }
    }
    assert a * b == Equivocators(t);
    SumOverlap(a, b, t.voters.Keys, Stakes(t));
  }

  // ---------- runs ----------

  function PairOf(o: Offer): (Key, Hash) {
    (o.msg.voter, o.msg.block)
  }

  /** The pairs a run of calls offers for the tracker's own stage. */
  function Offered(stage: Stage, offers: seq<Offer>): set<(Key, Hash)>
    decreases |offers|
  {
    if offers == [] then {}
    else
      var last := offers[|offers| - 1];
      Offered(stage, offers[..|offers| - 1]) + (if last.stage == stage then {PairOf(last)} else {})
  }

  /** Later evidence: nothing recorded is lost or replaced, and no stake changes. */
  ghost predicate Extends(t: Tracker, r: Tracker) {
    && r.stage == t.stage && r.round == t.round
    && Pairs(t) <= Pairs(r)
    && t.voters.Keys <= r.voters.Keys
    && (forall v :: v in r.voters ==> r.voters[v].staked == Get(Stakes(t), v))
    && (forall v, b :: v in t.votes && b in t.votes[v] ==> v in r.votes && b in r.votes[v] && r.votes[v][b] == t.votes[v][b])
  }

  lemma RecordExtends(t: Tracker, msg: SignedMessage)
    requires Valid(t) && msg.block !in BlocksOf(t, msg.voter)
    ensures Extends(t, Record(t, msg))
  {
    RecordValid(t, msg);
  }

  lemma AddVoteStep(t: Tracker, o: Offer)
    requires Valid(t)
    ensures var r := AddVote(t, o);
      && Valid(r) && Extends(t, r)
      && Pairs(r) == Pairs(t) + (if o.stage == t.stage then {PairOf(o)} else {})
  {
    if Accepts(t, o) {
      RecordValid(t, o.msg);
      RecordExtends(t, o.msg);
    } else if o.stage == t.stage {
      assert PairOf(o) in Pairs(t);
    }
  }

  lemma AddVoteBuiltOn(t: Tracker, o: Offer, stakes: map<Key, nat>)
    requires BuiltOn(t, stakes)
    ensures BuiltOn(AddVote(t, o), stakes)
  {
  }

  lemma ExtendsTransitive(t: Tracker, r: Tracker, s: Tracker)
    requires Extends(t, r) && Extends(r, s)
    ensures Extends(t, s)
  {
    forall v | v in s.voters ensures s.voters[v].staked == Get(Stakes(t), v) {
      assert v in r.voters ==> Get(Stakes(r), v) == r.voters[v].staked;
    }
  }

  lemma {:induction false} AddAllStep(t: Tracker, offers: seq<Offer>)
    requires Valid(t)
    ensures Valid(AddAll(t, offers)) && Extends(t, AddAll(t, offers))
    ensures Pairs(AddAll(t, offers)) == Pairs(t) + Offered(t.stage, offers)
    decreases |offers|
  {
    if offers != [] {
      var init, last := offers[..|offers| - 1], offers[|offers| - 1];
      AddAllStep(t, init);
      AddVoteStep(AddAll(t, init), last);
      ExtendsTransitive(t, AddAll(t, init), AddAll(t, offers));
    }
  }

  lemma {:induction false} AddAllBuiltOn(t: Tracker, offers: seq<Offer>, stakes: map<Key, nat>)
    requires BuiltOn(t, stakes)
    ensures BuiltOn(AddAll(t, offers), stakes)
    decreases |offers|
  {
    if offers != [] {
      AddAllBuiltOn(t, offers[..|offers| - 1], stakes);
      AddVoteBuiltOn(AddAll(t, offers[..|offers| - 1]), offers[|offers| - 1], stakes);
    }
  }

  // ---------- blocks by slot ----------

  /** Somebody on record voted for a block of the slot. */
  ghost predicate VotedAt(t: Tracker, slot: nat) {
    exists v, b :: v in t.votes && b in t.votes[v] && t.votes[v][b].slot == slot
  }

  /** The blocks kept by slot are those of recorded votes, and every recorded vote's slot has one. */
  ghost predicate SlotsTrue(t: Tracker) {
    && (forall v, b :: v in t.votes && b in t.votes[v] ==> t.votes[v][b].slot in t.blockHashes)
    && (forall s :: s in t.blockHashes ==> VotedAt(t, s) && exists v :: v in t.votes && t.blockHashes[s] in t.votes[v])
  }

  lemma RecordSlots(t: Tracker, o: Offer)
    requires SlotsTrue(t)
    ensures SlotsTrue(AddVote(t, o))
  {
    if Accepts(t, o) {
      var r, m := Record(t, o.msg), o.msg;
      assert r.votes[m.voter][m.block] == m;
      forall v, b | v in t.votes && b in t.votes[v] ensures v in r.votes && b in r.votes[v] && r.votes[v][b] == t.votes[v][b] {
        assert b != m.block || v != m.voter;
      }
      forall s | s in r.blockHashes ensures VotedAt(r, s) && exists v :: v in r.votes && r.blockHashes[s] in r.votes[v] {
        if s != m.slot {
          assert VotedAt(t, s);
          var v, b :| v in t.votes && b in t.votes[v] && t.votes[v][b].slot == s;
          var w :| w in t.votes && t.blockHashes[s] in t.votes[w];
          assert r.votes[v][b].slot == s && r.blockHashes[s] in r.votes[w];
        }
      }
    }
  }

  /** So it is in every run of votes. */
  lemma {:induction false} SlotsRecorded(stage: Stage, round: nat, stakes: map<Key, nat>, offers: seq<Offer>)
    ensures SlotsTrue(AddAll(Fresh(stage, round, stakes), offers))
    decreases |offers|
  {
    if offers != [] {
      SlotsRecorded(stage, round, stakes, offers[..|offers| - 1]);
      RecordSlots(AddAll(Fresh(stage, round, stakes), offers[..|offers| - 1]), offers[|offers| - 1]);
    }
  }
}
