/**
 Warp sync: following a chain of authority sets through fragments, each of which is
 checked against the set that the fragments before it established.
 */
module WarpSync {
  import opened Options
  import opened Votes
  import opened CatchUp

  const MAX_SET_ID: nat := 0xFFFF_FFFF

  datatype SignedPrecommit = SignedPrecommit(block: Hash, slot: nat, signature: nat, key: Key)

  /** A header, with the validators its epoch mark announces, and its justification. */
  datatype Fragment = Fragment(
    headerHash: Hash, epochMark: Option<seq<Key>>,
    round: nat, setId: nat, commitHash: Hash, precommits: seq<SignedPrecommit>)

  /** Two thirds of the set, rounded up. */
  function Quorum(n: nat): nat {
    (n * 2 + 2) / 3
  }

  predicate ValidSignature(verify: Verifier, round: nat, setId: nat, p: SignedPrecommit) {
    verify(p.key, UnsignedVote(Precommit, p.block, p.slot, round, setId), p.signature)
  }

  /** Precommits that count: by a member of the set, with a valid signature. */
  predicate Counts(verify: Verifier, authorities: seq<Key>, f: Fragment, p: SignedPrecommit) {
    p.key in authorities && ValidSignature(verify, f.round, f.setId, p)
  }

  function Weight(verify: Verifier, authorities: seq<Key>, f: Fragment, n: nat): nat
    requires n <= |f.precommits|
  {
    if n == 0 then 0
    else Weight(verify, authorities, f, n - 1) + if Counts(verify, authorities, f, f.precommits[n - 1]) then 1 else 0
  }

  predicate Accepted(verify: Verifier, authorities: seq<Key>, f: Fragment) {
    Weight(verify, authorities, f, |f.precommits|) >= Quorum(|authorities|) && f.commitHash == f.headerHash
  }

  /** The set in force after a fragment: the announced one, or the current one. */
  function Adopt(authorities: seq<Key>, f: Fragment): seq<Key> {
    if f.epochMark.Some? then f.epochMark.value else authorities
  }

  /** Set ids are 32-bit and wrap. */
  function NextSetId(f: Fragment): nat {
    if f.setId == MAX_SET_ID then 0 else f.setId + 1
  }

  /** The quorum is the least weight of at least two thirds of the set. */
  lemma QuorumIsLeast(n: nat, weight: nat)
    ensures weight >= Quorum(n) <==> 3 * weight >= 2 * n
  {
  }

  /** A fragment is accepted exactly if at least two thirds count and the commit is for the header. */
  lemma AcceptedExactly(verify: Verifier, authorities: seq<Key>, f: Fragment)
    ensures Accepted(verify, authorities, f) <==>
      3 * Weight(verify, authorities, f, |f.precommits|) >= 2 * |authorities| && f.commitHash == f.headerHash
  {
    QuorumIsLeast(|authorities|, Weight(verify, authorities, f, |f.precommits|));
  }

  /** The authority set once the first n fragments have been followed. */
  function SetAfter(authorities: seq<Key>, fragments: seq<Fragment>, n: nat): seq<Key>
    requires n <= |fragments|
  {
    if n == 0 then authorities else Adopt(SetAfter(authorities, fragments, n - 1), fragments[n - 1])
  }

  /** The set in force at n is the one announced by the latest epoch mark before n. */
  lemma {:induction false} SetAfterIsLatestMark(authorities: seq<Key>, fragments: seq<Fragment>, n: nat, k: nat)
    requires k <= n <= |fragments|
    requires forall i :: k <= i < n ==> fragments[i].epochMark.None?
    ensures SetAfter(authorities, fragments, n) == SetAfter(authorities, fragments, k)
    ensures k > 0 && fragments[k - 1].epochMark.Some? ==> SetAfter(authorities, fragments, n) == fragments[k - 1].epochMark.value
    decreases n - k
  {
    if k < n {
      SetAfterIsLatestMark(authorities, fragments, n - 1, k);
    }
  }

  /** Each of the first n fragments was accepted by the set in force at its place. */
  predicate Trusted(verify: Verifier, authorities: seq<Key>, fragments: seq<Fragment>, n: nat)
    requires n <= |fragments|
  {
    n == 0 || (Trusted(verify, authorities, fragments, n - 1)
      && Accepted(verify, SetAfter(authorities, fragments, n - 1), fragments[n - 1]))
  }

  lemma {:induction false} TrustedAt(verify: Verifier, authorities: seq<Key>, fragments: seq<Fragment>, n: nat, i: nat)
    requires i < n <= |fragments| && Trusted(verify, authorities, fragments, n)
    ensures Accepted(verify, SetAfter(authorities, fragments, i), fragments[i])
  {
    if i < n - 1 {
      TrustedAt(verify, authorities, fragments, n - 1, i);
    }
  }

  class WarpSyncer {
    const verify: Verifier
    var authorities: seq<Key>
    var setId: nat

    constructor (verify: Verifier, authorities: seq<Key>, setId: nat)
      ensures this.verify == verify && this.authorities == authorities && this.setId == setId
    {
      this.verify, this.authorities, this.setId := verify, authorities, setId;
    }

    method VerifyWarpSyncJustification(f: Fragment) returns (ok: bool)
      ensures ok == Accepted(verify, authorities, f)
      ensures ok ==> f.commitHash == f.headerHash && 3 * Weight(verify, authorities, f, |f.precommits|) >= 2 * |authorities|
    {
      var signedWeight := 0;
      for i := 0 to |f.precommits|
        invariant signedWeight == Weight(verify, authorities, f, i)
      {
        var p := f.precommits[i];
        var idx := 0;
        while idx < |authorities| && authorities[idx] != p.key
          invariant 0 <= idx <= |authorities|
          invariant p.key !in authorities[..idx]
        {
          idx := idx + 1;
        }
        assert idx == |authorities| ==> authorities[..idx] == authorities;
        if idx < |authorities| && ValidSignature(verify, f.round, f.setId, p) {
          signedWeight := signedWeight + 1;
        }
      }
      return signedWeight >= Quorum(|authorities|) && f.commitHash == f.headerHash;
    }

    /** Adopts the announced set, then the next set id; a failed store keeps the old id. */
    method ProcessWarpSyncFragment(f: Fragment, stored: bool) returns (ok: bool)
      modifies this
      ensures ok == (Accepted(verify, old(authorities), f) && stored)
      ensures authorities == if Accepted(verify, old(authorities), f) then Adopt(old(authorities), f) else old(authorities)
      ensures setId == if ok then NextSetId(f) else old(setId)
    {
      var valid := VerifyWarpSyncJustification(f);
      if !valid {
        return false;
      }
      authorities := Adopt(authorities, f);
      if !stored {
        return false;
      }
      setId := NextSetId(f);
      return true;
    }

    /** Follows the fragments in order until one is refused or not stored. */
    method ProcessWarpSyncResponse(fragments: seq<Fragment>, stored: seq<bool>) returns (ok: bool)
      requires |stored| == |fragments|
      modifies this
      ensures fragments == [] ==> !ok && authorities == old(authorities) && setId == old(setId)
      ensures fragments != [] ==>
        Progress(authorities, setId, ok)
        == Follow(verify, Progress(old(authorities), old(setId), true), fragments, stored, |fragments|)
    {
      if fragments == [] {
        return false;
      }
      ghost var start := Progress(authorities, setId, true);
      for i := 0 to |fragments|
        invariant Progress(authorities, setId, true) == Follow(verify, start, fragments, stored, i)
      {
        var one := ProcessWarpSyncFragment(fragments[i], stored[i]);
        if !one {
          FollowStops(verify, start, fragments, stored, i + 1, |fragments|);
          return false;
        }
      }
      return true;
    }
  }

  /** The set and id in force, and whether every fragment so far was followed. */
  datatype Progress = Progress(authorities: seq<Key>, setId: nat, ok: bool)

  /** One fragment: an accepted one that is not stored has already changed the set. */
  function FollowOne(verify: Verifier, p: Progress, f: Fragment, stored: bool): Progress {
    if !Accepted(verify, p.authorities, f) then p.(ok := false)
    else if !stored then Progress(Adopt(p.authorities, f), p.setId, false)
    else Progress(Adopt(p.authorities, f), NextSetId(f), p.ok)
  }

  function Follow(verify: Verifier, p: Progress, fragments: seq<Fragment>, stored: seq<bool>, n: nat): Progress
    requires n <= |fragments| == |stored|
  {
    if n == 0 then p
    else
      var before := Follow(verify, p, fragments, stored, n - 1);
      if before.ok then FollowOne(verify, before, fragments[n - 1], stored[n - 1]) else before
  }

  lemma {:induction false} FollowStops(
    verify: Verifier, p: Progress, fragments: seq<Fragment>, stored: seq<bool>, k: nat, n: nat)
    requires k <= n <= |fragments| == |stored| && !Follow(verify, p, fragments, stored, k).ok
    ensures Follow(verify, p, fragments, stored, n) == Follow(verify, p, fragments, stored, k)
    decreases n - k
  {
    if k < n {
      FollowStops(verify, p, fragments, stored, k, n - 1);
    }
  }

  predicate AllStored(stored: seq<bool>, n: nat)
    requires n <= |stored|
  {
    forall j :: 0 <= j < n ==> stored[j]
  }

  /**
   Chain of trust: fragments are all followed exactly if each was accepted by the set in
   force at its place, as fixed by the epoch marks before it, and stored.
   */
  lemma {:induction false} FollowedIsTrusted(
    verify: Verifier, p: Progress, fragments: seq<Fragment>, stored: seq<bool>, n: nat)
    requires n <= |fragments| == |stored| && p.ok
    ensures var r := Follow(verify, p, fragments, stored, n);
      && (r.ok <==> Trusted(verify, p.authorities, fragments, n) && AllStored(stored, n))
      && (r.ok ==> r.authorities == SetAfter(p.authorities, fragments, n))
      && (r.ok ==> r.setId == if n == 0 then p.setId else NextSetId(fragments[n - 1]))
  {
    if n > 0 {
      FollowedIsTrusted(verify, p, fragments, stored, n - 1);
    }
  }

  /** Following fragments of successive sets, the set id goes up by one for each, by 32-bit arithmetic. */
  lemma FollowedSetId(verify: Verifier, p: Progress, fragments: seq<Fragment>, stored: seq<bool>, n: nat)
    requires n <= |fragments| == |stored| && p.ok && p.setId < 0x1_0000_0000
    requires forall i :: 0 <= i < n ==> fragments[i].setId == (p.setId + i) % 0x1_0000_0000
    requires Follow(verify, p, fragments, stored, n).ok
    ensures Follow(verify, p, fragments, stored, n).setId == (p.setId + n) % 0x1_0000_0000
  {
    FollowedIsTrusted(verify, p, fragments, stored, n);
    if n > 0 {
      NextSetIdIs(fragments[n - 1], p.setId + n - 1);
    }
  }

  lemma NextSetIdIs(f: Fragment, id: nat)
    requires f.setId == id % 0x1_0000_0000
    ensures NextSetId(f) == (id + 1) % 0x1_0000_0000
  {
  }

  // ---------- overlapping quorums ----------

  ghost function Signers(verify: Verifier, authorities: seq<Key>, f: Fragment, n: nat): set<Key>
    requires n <= |f.precommits|
  {
    set i | 0 <= i < n && Counts(verify, authorities, f, f.precommits[i]) :: f.precommits[i].key
  }

  /** No two of the first n counted precommits have the same key. */
  predicate DistinctCounted(verify: Verifier, authorities: seq<Key>, f: Fragment, n: nat)
    requires n <= |f.precommits|
  {
    forall i, j :: 0 <= i < j < n
      && Counts(verify, authorities, f, f.precommits[i]) && Counts(verify, authorities, f, f.precommits[j])
      ==> f.precommits[i].key != f.precommits[j].key
  }

  lemma SignersStep(verify: Verifier, authorities: seq<Key>, f: Fragment, n: nat)
    requires 0 < n <= |f.precommits|
    ensures var last := f.precommits[n - 1];
      Signers(verify, authorities, f, n)
      == Signers(verify, authorities, f, n - 1) + if Counts(verify, authorities, f, last) then {last.key} else {}
  {
  }

  lemma DistinctStep(verify: Verifier, authorities: seq<Key>, f: Fragment, n: nat)
    requires 0 < n <= |f.precommits|
    ensures DistinctCounted(verify, authorities, f, n)
      <==> (DistinctCounted(verify, authorities, f, n - 1)
        && (Counts(verify, authorities, f, f.precommits[n - 1])
          ==> f.precommits[n - 1].key !in Signers(verify, authorities, f, n - 1)))
  {
    var last := f.precommits[n - 1];
    if Counts(verify, authorities, f, last) && last.key in Signers(verify, authorities, f, n - 1) {
      var i :| 0 <= i < n - 1 && Counts(verify, authorities, f, f.precommits[i]) && f.precommits[i].key == last.key;
      assert !DistinctCounted(verify, authorities, f, n);
    }
  }

  /** The weight counts each signer once exactly if no signer is counted twice; else it is larger. */
  lemma {:induction false} WeightCountsSigners(verify: Verifier, authorities: seq<Key>, f: Fragment, n: nat)
    requires n <= |f.precommits|
    ensures |Signers(verify, authorities, f, n)| <= Weight(verify, authorities, f, n)
    ensures |Signers(verify, authorities, f, n)| == Weight(verify, authorities, f, n)
      <==> DistinctCounted(verify, authorities, f, n)
  {
    if n > 0 {
      WeightCountsSigners(verify, authorities, f, n - 1);
      SignersStep(verify, authorities, f, n);
      DistinctStep(verify, authorities, f, n);
      OneMoreKey(Signers(verify, authorities, f, n - 1), f.precommits[n - 1].key);
    }
  }

  lemma OneMoreKey(s: set<Key>, k: Key)
    ensures |s + {k}| == |s| + if k in s then 0 else 1
  {
    if k in s {
      assert s + {k} == s;
    }
  }

  function Repeated(p: SignedPrecommit, n: nat): seq<SignedPrecommit> {
    seq(n, _ => p)
  }

  lemma {:induction false} RepeatedWeight(
    verify: Verifier, authorities: seq<Key>, f: Fragment, p: SignedPrecommit, n: nat)
    requires n <= |f.precommits| && Counts(verify, authorities, f, p) && forall i :: 0 <= i < n ==> f.precommits[i] == p
    ensures Weight(verify, authorities, f, n) == n
  {
    if n > 0 {
      RepeatedWeight(verify, authorities, f, p, n - 1);
    }
  }

  /** One member's precommit, listed often enough, is accepted as a quorum. */
  lemma RepeatedSignerAccepted(verify: Verifier, authorities: seq<Key>, f: Fragment, p: SignedPrecommit)
    requires Counts(verify, authorities, f, p) && f.commitHash == f.headerHash
    ensures var g := f.(precommits := Repeated(p, Quorum(|authorities|)));
      Accepted(verify, authorities, g) && Signers(verify, authorities, g, |g.precommits|) <= {p.key}
  {
    var g := f.(precommits := Repeated(p, Quorum(|authorities|)));
    RepeatedWeight(verify, authorities, g, p, |g.precommits|);
  }

  lemma {:induction false} SetOfDistinct(s: seq<Key>)
    ensures |(set k | k in s)| <= |s|
  {
    if s != [] {
      SetOfDistinct(s[1..]);
      assert (set k | k in s) == {s[0]} + (set k | k in s[1..]);
    }
  }

  /**
   Two accepted fragments for one set, neither with a signer counted twice, were signed by
   at least a third of the set in common, and by some other member when fewer than a third
   are faulty. What was signed need not be the headers.
   */
  lemma QuorumsOverlap(verify: Verifier, authorities: seq<Key>, f: Fragment, g: Fragment, faulty: set<Key>)
    requires Accepted(verify, authorities, f) && Accepted(verify, authorities, g)
    requires DistinctCounted(verify, authorities, f, |f.precommits|) && DistinctCounted(verify, authorities, g, |g.precommits|)
    ensures var common := Signers(verify, authorities, f, |f.precommits|) * Signers(verify, authorities, g, |g.precommits|);
      && 3 * |common| >= |authorities|
      && (forall k :: k in common ==> k in authorities)
      && (3 * |faulty| < |authorities| ==> common - faulty != {})
  {
    var a, b := Signers(verify, authorities, f, |f.precommits|), Signers(verify, authorities, g, |g.precommits|);
    var all := set k | k in authorities;
    WeightCountsSigners(verify, authorities, f, |f.precommits|);
    WeightCountsSigners(verify, authorities, g, |g.precommits|);
    SetOfDistinct(authorities);
    UnionBound(a, b, all);
    if 3 * |faulty| < |authorities| {
      SomeoneElse(a * b, faulty);
    }
  }

  // ---------- what a quorum vouches for ----------

  lemma {:induction false} WeightIgnoresHeader(
    verify: Verifier, authorities: seq<Key>, f: Fragment, g: Fragment, n: nat)
    requires n <= |f.precommits| && g.precommits == f.precommits && g.round == f.round && g.setId == f.setId
    ensures Weight(verify, authorities, g, n) == Weight(verify, authorities, f, n)
  {
    if n > 0 {
      WeightIgnoresHeader(verify, authorities, f, g, n - 1);
    }
  }

  /** The precommits of an accepted fragment support any other header and epoch mark as well. */
  lemma AcceptanceIgnoresHeader(
    verify: Verifier, authorities: seq<Key>, f: Fragment, header: Hash, mark: Option<seq<Key>>)
    requires Accepted(verify, authorities, f)
    ensures Accepted(verify, authorities, f.(headerHash := header, commitHash := header, epochMark := mark))
  {
    var other := f.(headerHash := header, commitHash := header, epochMark := mark);
    WeightIgnoresHeader(verify, authorities, f, other, |f.precommits|);
  }

  /** Counted precommits that are for the header itself. */
  function HeaderWeight(verify: Verifier, authorities: seq<Key>, f: Fragment, n: nat): nat
    requires n <= |f.precommits|
  {
    if n == 0 then 0
    else
      var p := f.precommits[n - 1];
      HeaderWeight(verify, authorities, f, n - 1) + if Counts(verify, authorities, f, p) && p.block == f.headerHash then 1 else 0
  }

  /** Every counted precommit is for the header. */
  predicate ForHeader(verify: Verifier, authorities: seq<Key>, f: Fragment, n: nat)
    requires n <= |f.precommits|
  {
    forall i :: 0 <= i < n && Counts(verify, authorities, f, f.precommits[i]) ==> f.precommits[i].block == f.headerHash
  }

  /** The weight that was checked stands behind the header exactly if every counted precommit is for it. */
  lemma {:induction false} WeightIsForHeader(verify: Verifier, authorities: seq<Key>, f: Fragment, n: nat)
    requires n <= |f.precommits|
    ensures HeaderWeight(verify, authorities, f, n) <= Weight(verify, authorities, f, n)
    ensures HeaderWeight(verify, authorities, f, n) == Weight(verify, authorities, f, n) <==> ForHeader(verify, authorities, f, n)
  {
    if n > 0 {
      WeightIsForHeader(verify, authorities, f, n - 1);
    }
  }

  /** The member signed a precommit for the block in this round and set. */
  predicate SignedFor(verify: Verifier, f: Fragment, k: Key, block: Hash) {
    exists i :: 0 <= i < |f.precommits| && f.precommits[i].key == k && f.precommits[i].block == block
      && ValidSignature(verify, f.round, f.setId, f.precommits[i])
  }

  lemma SignerSignedHeader(verify: Verifier, authorities: seq<Key>, f: Fragment, k: Key)
    requires ForHeader(verify, authorities, f, |f.precommits|) && k in Signers(verify, authorities, f, |f.precommits|)
    ensures SignedFor(verify, f, k, f.headerHash)
  {
    var i :| 0 <= i < |f.precommits| && Counts(verify, authorities, f, f.precommits[i]) && f.precommits[i].key == k;
    assert f.precommits[i].block == f.headerHash;
  }

  /**
   When the counted precommits are for the headers, a third of the set signed both headers,
   and some member that is not faulty when fewer than a third are; so two headers of one
   round and set convict that third of signing twice.
   */
  lemma HeadersShareSigners(verify: Verifier, authorities: seq<Key>, f: Fragment, g: Fragment, faulty: set<Key>)
    requires Accepted(verify, authorities, f) && Accepted(verify, authorities, g)
    requires DistinctCounted(verify, authorities, f, |f.precommits|) && DistinctCounted(verify, authorities, g, |g.precommits|)
    requires ForHeader(verify, authorities, f, |f.precommits|) && ForHeader(verify, authorities, g, |g.precommits|)
    ensures var both := set k |
        k in authorities && SignedFor(verify, f, k, f.headerHash) && SignedFor(verify, g, k, g.headerHash);
      3 * |both| >= |authorities| && (3 * |faulty| < |authorities| ==> both - faulty != {})
  {
    var common := Signers(verify, authorities, f, |f.precommits|) * Signers(verify, authorities, g, |g.precommits|);
    var both := set k | k in authorities && SignedFor(verify, f, k, f.headerHash) && SignedFor(verify, g, k, g.headerHash);
    QuorumsOverlap(verify, authorities, f, g, faulty);
    forall k | k in common ensures k in both {
      SignerSignedHeader(verify, authorities, f, k);
      SignerSignedHeader(verify, authorities, g, k);
    }
    Larger(common, both);
    if 3 * |faulty| < |authorities| {
      SomeoneElse(both, faulty);
    }
  }

  lemma Larger(a: set<Key>, b: set<Key>)
    requires a <= b
    ensures |a| <= |b|
  {
    assert b == a + (b - a);
  }

  lemma SomeoneElse(a: set<Key>, faulty: set<Key>)
    requires |faulty| < |a|
    ensures a - faulty != {}
  {
    assert a == (a - faulty) + a * faulty;
    assert faulty == a * faulty + (faulty - a);
  }

  lemma UnionBound(a: set<Key>, b: set<Key>, all: set<Key>)
    requires a <= all && b <= all
    ensures |a| + |b| <= |all| + |a * b|
  {
    assert a + b <= all;
    assert all == (a + b) + (all - (a + b));
    assert |a + b| + |a * b| == |a| + |b|;
  }

  /** The places of the precommits signed by a member for the fragment's round and set. */
  function SignedPlaces(verify: Verifier, authorities: seq<Key>, f: Fragment, n: nat): set<int>
    requires n <= |f.precommits|
  {
    set i | 0 <= i < n && f.precommits[i].key in authorities
      && verify(f.precommits[i].key,
           UnsignedVote(Precommit, f.precommits[i].block, f.precommits[i].slot, f.round, f.setId),
           f.precommits[i].signature)
  }

  /** The weight is their number. */
  lemma {:induction false} WeightIsCount(verify: Verifier, authorities: seq<Key>, f: Fragment, n: nat)
    requires n <= |f.precommits|
    ensures Weight(verify, authorities, f, n) == |SignedPlaces(verify, authorities, f, n)|
  {
    if n > 0 {
      WeightIsCount(verify, authorities, f, n - 1);
      var before, after := SignedPlaces(verify, authorities, f, n - 1), SignedPlaces(verify, authorities, f, n);
      assert after == before + if n - 1 in after then {n - 1} else {};
    }
  }
}
