# A model of the jamduna node

jamduna is a node for JAM written in Go. This project models six of its parts in Dafny and
proves what they promise. `dafny verify dfyconfig.toml` checks all files together.

- **GRANDPA finality.** Votes of one round and stage move each voter through not
  participating, voted and equivocating (`Votes`, `VoteTrackers`). Their stakes become the
  observed and potential weights of Definitions 87 and 88 of the GRANDPA finality chapter of
  the Polkadot Protocol Specification, on a tree of blocks (`Trees`, `BlockTrees`,
  `Rounds`). `Evidence` says how the evidence behaves over whole runs of votes, `Finality`
  what two supermajorities prove about equivocation, `SafetyBound` that no lower threshold is
  safe, `Finalized` what a finalization attempt does to the finalized chain. `AncestorSync`
  copies missing ancestors into a graph, `CatchUp` replays exported votes, `WarpSync` follows
  authority sets. `Grandpas` is one node's instance, `Agreement` what instances agree on,
  `Progress` what votes bring about.
- **The NOMT key-value store.** `GpTree`, `GpRoots` and `GpProofs` are the binary Merkle
  trie of Appendix D of the JAM Gray Paper with its paths, `TrieOrder` its order; the hash is
  a parameter, and results that need it say which inputs it must not collide on. `Witnesses`
  are the logs and witnesses of write sessions. `KeyOrder` and `Stores` are the sorted
  contents and the cached root, `Ledgers` the rollback log, `Nomts` the database,
  `Sessions` every interleaving of write sessions, direct commits and rollbacks.
- **The slot manager.** `SlotBarrier` polls nodes and advances the universal slot;
  `WorkPackages` moves work packages between the lists it keeps.
- **The fuzz target's state index.** `StateCache`: a pruned cache over a persistent map.
- **State snapshots.** `StateKeys` and `Snapshots`: paginated range requests, joining of the
  ranges, deduplication, the state root.
- **Two codecs.** `Justifications` and `KeyNames`.

Objects that the source updates in place are classes, its loops are loops with invariants,
and each such method is tied to a function or predicate whose laws are lemmas. The laws are
about every run, every input or every reachable state.

## Where the code does not do what it is meant to

Each of these has a lemma at a failing input and a theorem with the exact condition under
which the promise holds.

- A witness of a session in witness mode is refused as soon as the session wrote anything:
  an insert first logs a read of its key without a value, and that entry asks for an empty
  subtrie where the insert put a leaf (`Witnesses.OneInsertRefused`,
  `Witnesses.SessionWitnessAccepted`). A proof that a key is absent is refused when its path
  ends at another key's leaf (`GpProofs.AbsentKeyRefused`, `GpProofs.GeneratedProofVerifies`),
  and checking one never looks at the key: some path is accepted, for a present key too,
  exactly if the trie has an empty subtrie (`GpProofs.PresentKeyExcluded`,
  `GpProofs.ExclusionIgnoresKey`).
- A warp-sync justification counts a signer as often as it is listed, so one member's
  precommit can pass as a quorum (`WarpSync.RepeatedSignerAccepted`,
  `WarpSync.WeightCountsSigners`), and it does not compare what was signed with the header,
  so any header and epoch mark can be put in its place (`WarpSync.AcceptanceIgnoresHeader`,
  `WarpSync.WeightIsForHeader`).
- A rollback log keeps records that were already rolled back. A commit after a rollback
  moves past them, and later rollbacks apply them again (`Ledgers.StaleRecordsReturn`). Over
  the states that runs reach, an undone commit leaves no trace exactly if it found the head
  at the end of the log or one record, rolled back (`Ledgers.TracelessExactly`). The greatest
  key is never found by a point lookup, so a rollback deletes it instead of restoring it
  (`Ledgers.GreatestKeyLost`, `Ledgers.UndoRestores`).
- The root preview drops staged values over 1024 bytes (`Nomts.LargeValueNotPreviewed`,
  `Nomts.PreviewRootIsCommitRoot`).
- The root ignores the last byte of a 32-byte key (`GpRoots.RootForgetsLastByte`), so a stale
  session can commit (`Sessions.StaleCommitAccepted`). The root commits to the contents, and
  sessions commit only over the contents they began from, exactly for sets of keys no two of
  which differ in the last byte alone (`GpRoots.BoundExactlyIfTold`,
  `Sessions.SafeExactlyIfTold`); the padded 31-byte state keys are such a set
  (`Sessions.PaddedKeysSafe`).
- "Child or brother" lets a sibling of the last finalized block through
  (`Finalized.BrotherFinalized`, `Finalized.AttemptKeepsChain`); the candidate of a round
  never is one, so attempts are safe (`Grandpas.Grandpa.AttemptToFinalizeAtRound`). The search
  for an older candidate can only find the ghost itself (`Rounds.OlderCandidateIsGhost`).
- An advance of the slot discards queued packages that no history mentions
  (`SlotBarrier.QueuedPackageLost`, `SlotBarrier.AdvanceKeepsPackages`), and in default clock
  mode a node may fall behind the barrier (`SlotBarrier.DefaultClockBreaksBarrier`,
  `SlotBarrier.BarrierHolds`).
- A snapshot with failed ranges is returned as a smaller state without an error
  (`Snapshots.MissingRangeLosesKey`, `Snapshots.CompleteFetch`).
- The reader of key names is documented as the inverse of the writer but takes the digits in
  the other order (`KeyNames.ReaderMissesOne`, `KeyNames.ReaderRecoversPalindromes`).

## Model

| member | source | states |
|---|---|---|
| `VoteTrackers.VoteTracker.AddVote` | grandpa/vote_tracker.go:73-101 | the vote is recorded and its voter moved on, or rejected for a wrong stage or a repeated block with nothing changed |
| `VoteTrackers.VoteTracker.constructor` | grandpa/vote_tracker.go:53-70 | a fresh tracker knows every staked voter as not participating |
| `VoteTrackers.VoteTracker.GetVotesWeight` | grandpa/vote_tracker.go:104-118 | the loop adds up the stake of exactly the non-equivocating voters on record for the block |
| `VoteTrackers.VoteTracker.GetEquivocationWeight` | grandpa/vote_tracker.go:121-138 | each equivocating voter's stake is counted once |
| `VoteTrackers.VoteTracker.GetPrimaryPropose` | grandpa/vote_tracker.go:141-159 | the proposal is found exactly when the primary voted for one block only, and is that block |
| `VoteTrackers.VoteTracker.GetUnvotedWeight` | grandpa/round_state.go:29-43 | the stake of the voters that have not voted |
| `Votes.RecordValid` | grandpa/vote_tracker.go:73-101 | recording keeps the law that a voter's state says whether it voted for zero, one or several distinct blocks, and adds exactly one pair |
| `Votes.SlotsRecorded` | grandpa/vote_tracker.go:73-101 | in every run of votes the blocks kept by slot are those of recorded votes, and every recorded vote's slot has one |
| `Votes.AddAllStep` | grandpa/vote_tracker.go:73-101 | after any run of votes the tracker is valid, extends the earlier one, and holds exactly the earlier and the offered pairs |
| `Votes.WeightByVoters` | grandpa/vote_tracker.go:104-118 | summing votes block by block or voter by voter gives the same weight |
| `Votes.StakeConservation` | grandpa/vote_tracker.go:53-138 | unvoted stake, equivocating stake and the weights of all voted blocks add up to the total stake |
| `Votes.PotentialBounded` | grandpa/round_state.go:79-108 | no weight exceeds the total stake |
| `Votes.DisjointSupport` | grandpa/round_state.go:79-108 | the observed weights of disjoint sets of blocks exceed the total stake by at most the equivocating stake |
| `Evidence.RunTable` | grandpa/vote_tracker.go:73-101 | the pairs offered to a fresh tracker alone determine its pairs and its voter table |
| `Evidence.Convergence` | grandpa/vote_tracker.go:73-138 | runs that offer the same pairs, in any order and with any repetition, end with the same pairs, voter states and weights |
| `Evidence.ObservedNeverDecreases` | grandpa/vote_tracker.go:88-138 | the observed weight of a set of blocks never goes down as votes arrive, also when a voter turns equivocator |
| `Evidence.PotentialBoundsFuture` | grandpa/round_state.go:47-108 | whatever votes follow, observed weight stays within the present potential weight plus stake that newly equivocates |
| `Evidence.PotentialAttained` | grandpa/round_state.go:47-108 | the forecast is exact: votes of all who have not voted, inside the set, turn its potential weight into observed weight |
| `BlockTrees.BlockTree.AddBlock` | types/block_tree.go:200-221 | adds the block under its parent and keeps the tree well formed; fails with nothing changed if the parent is missing or the block present |
| `BlockTrees.BlockTree.UpdateCumulateVotesWeight` | types/block_tree.go:380-396 | every block ends with the direct weights of its whole subtree plus both extra weights |
| `BlockTrees.BlockTree.FindGhost` | types/block_tree.go:568-623 | the result is a deepest eligible block reached through blocks over the threshold, later slot first; none only if there is none |
| `BlockTrees.Search` | types/block_tree.go:568-623 | the breadth-first search meets the same specification for any weights and start |
| `BlockTrees.ClosedSearch` | types/block_tree.go:568-623 | a set that holds the start and every heavy child of its members holds every block reached |
| `BlockTrees.ReachedExactly` | types/block_tree.go:568-623 | a block is reached exactly if every block on the way down to it from the start meets the threshold |
| `BlockTrees.GhostIsDeepest` | types/block_tree.go:568-623 | a result is eligible and reached, and no other such block is deeper, or as deep with a later slot |
| `Rounds.RoundState.UpdatePreVoteGraph` | grandpa/round_state.go:47-75 | the graph's weights become the observed or potential weights of the prevote tracker on every subtree |
| `Rounds.RoundState.UpdatePreCommitGraph` | grandpa/round_state.go:79-108 | the same for precommits |
| `Finality.AccountableSafety` | grandpa/grandpa.go:834-843 | two conflicting blocks over the threshold force equivocating stake of at least twice the threshold minus the total, more than a third |
| `Finality.AccountableSafetyAcrossViews` | grandpa/grandpa.go:1057-1063 | the same when two nodes saw different votes: their votes together convict more than a third |
| `SafetyBound.SafetyBoundIsTight` | grandpa/grandpa.go:834-843 | the bound is exact: for every total stake some round puts two conflicting blocks over the threshold with exactly that equivocating stake |
| `SafetyBound.ThresholdIsLeastSafe` | grandpa/grandpa.go:834-843 | for every total stake a weight is safe, that is, two conflicting blocks reaching it convict more than a third, exactly if it is at least the threshold |
| `Finality.SupermajorityIsChain` | grandpa/grandpa.go:834-843 | with at most a third equivocating, no two supermajority blocks conflict |
| `Finality.ReachedIsHeavy` | types/block_tree.go:568-623 | with observed weights the search reaches exactly the descendants over the threshold |
| `Finality.GhostMovesDown` | grandpa/grandpa.go:931-969 | as votes arrive, blocks are added and blocks become eligible, the search result moves only to descendants, while at most a third equivocates |
| `Finalized.FinalizeBlock` | types/block_tree.go:448-466 | marks exactly the block and its ancestors, or fails on an unknown or finalized block |
| `Finalized.LastFinalized` | types/block_tree.go:468-486 | the walk ends at a finalized block without finalized children |
| `Finalized.ChainIsAncestors` | types/block_tree.go:468-486 | while the finalized blocks are a chain, they are the ancestors of that block |
| `Finalized.AttemptKeepsChain` | types/block_tree.go:552-563 | finalizing a candidate keeps the chain exactly when it is the last finalized block or no brother of it |
| `Finalized.BrotherFinalized` | types/block_tree.go:552-563 | two brothers, one finalized: an attempt with the other leaves two conflicting finalized blocks |
| `Rounds.OlderCandidateIsGhost` | grandpa/grandpa.go:889-928 | a result of the search from the ghost passes the older-block test only if it is the ghost |
| `Grandpas.Grandpa.constructor` | grandpa/grandpa.go:765-796 | a new instance has round 0 with copies of the tree and fresh trackers, and is valid: finalized blocks are a closed chain and every tracker holds what votes of its round and stage left |
| `Grandpas.Grandpa.InitRoundState` | grandpa/grandpa.go:640-657 | a round starts from copies of the tree with its flags, the one ten rounds back is dropped, and the instance stays valid |
| `Rounds.OldRoundDropped` | grandpa/grandpa.go:643-646 | starting round n drops exactly round n - 10 |
| `Grandpas.Grandpa.InitTrackers` | grandpa/grandpa.go:849-870 | the round exists afterwards with its three trackers, the one ten rounds back being dropped if it is new; existing trackers are kept |
| `Grandpas.Grandpa.CacheBlock` | node/node_request.go:307-331 | a new block is added to the tree and copied into the graphs of every round, which stay part of the tree; finalized blocks stay a closed chain |
| `Rounds.SyncRounds` | grandpa/grandpa.go:668-680 | every round's graphs get the block with its missing ancestors and stay sound |
| `Rounds.BlockReachesRounds` | grandpa/grandpa.go:668-743 | the block is afterwards in every graph of every round that it meets at most 1000 steps up |
| `Grandpas.Grandpa.GetSupermajorityThreshold` | grandpa/grandpa.go:834-843 | two thirds of all stake rounded down, plus one; `SafetyBound.ThresholdIsLeastSafe` says what that is |
| `Grandpas.Grandpa.BestFinalCandidate` | grandpa/grandpa.go:889-928 | the candidate is the block the prevotes of rounds 1 to n lead to from the last finalized block, and lies at or below every finalized block |
| `Grandpas.Grandpa.GrandpaGhost` | grandpa/grandpa.go:931-969 | the same block, found from the previous round's candidate |
| `Grandpas.Grandpa.AttemptToFinalizeAtRound` | grandpa/grandpa.go:1040-1113 | finalizes the candidate with all its ancestors exactly if its observed precommit weight exceeds the threshold; finalized blocks only grow and stay a chain |
| `Progress.FoundReaches` | types/block_tree.go:568-623 | while at most a third equivocates, the search ends at or below every eligible block under its start that a supermajority backs |
| `Progress.PrevotesMoveCandidate` | grandpa/grandpa.go:931-969 | so the candidate of a round lies at or below every such block under the previous candidate |
| `Progress.CandidateIsBacked` | grandpa/grandpa.go:931-969 | it lies at or below the previous candidate and moves only to an eligible block that a supermajority of prevotes backs |
| `Progress.CandidateReaches` | grandpa/grandpa.go:889-969 | the same for the candidates of successive rounds of an instance |
| `Progress.PrecommitsFinalize` | grandpa/grandpa.go:1040-1066 | if the candidate's precommit weight exceeds the threshold, the attempt succeeds and finalizes it and all blocks above it |
| `Progress.BackedBlockFinalized` | grandpa/grandpa.go:1040-1066 | so a block backed by a supermajority of prevotes is finalized once the candidate has the precommits |
| `Progress.NewlyFinalizedIsBacked` | grandpa/grandpa.go:1040-1066 | and nothing else: a newly finalized block lies above a candidate with the precommits |
| `Progress.FinalizeBacked` | grandpa/grandpa.go:1040-1113 | the same of an instance that makes the attempt |
| `AncestorSync.SyncBlockWithAncestors` | grandpa/grandpa.go:683-743 | all or nothing: the graph gains the block and its whole missing chain, each under its header's parent, or is untouched; it stops and the graph stays well formed |
| `AncestorSync.CollectMissing` | grandpa/grandpa.go:683-743 | the walk up returns the missing ancestors, or nothing if the ancestry leaves the tree or exceeds the limit |
| `AncestorSync.AddChainGrows` | grandpa/grandpa.go:683-743 | every insertion of a missing chain finds its parent and the tree gains exactly the chain |
| `AncestorSync.SyncedPart` | grandpa/grandpa.go:683-743 | copying a block of the main tree keeps the graph well formed and a part of that tree |
| `AncestorSync.SyncedExactly` | grandpa/grandpa.go:683-743 | a copy puts the block into the graph exactly if a block at most 1000 steps above its parent is there |
| `CatchUp.ReplayRebuilds` | grandpa/round.go:341-378 | replaying an export into a fresh round with the same stakes rebuilds the ballots and voter states |
| `Grandpas.Grandpa.ProcessPreVoteMessage` | grandpa/grandpavote.go:140-163 | a prevote is accepted exactly if its stage is right and the voter's signature on it checks for the round and the set id it names |
| `Grandpas.Grandpa.ProcessPreCommitMessage` | grandpa/grandpavote.go:166-193 | the same, and the voter must be an authority |
| `Grandpas.HandledPairs` | grandpa/grandpavote.go:140-193 | the votes on record gain the voter and block of exactly such messages |
| `Grandpas.Grandpa.RecordedIsSigned` | grandpa/grandpavote.go:140-193 | with votes of the node's own set, every message on record is signed by its voter for its stage and round, and precommits are by authorities |
| `Grandpas.Grandpa.GetAllResults` | grandpa/round.go:262-299 | the export holds every recorded message of the round and nothing else |
| `Grandpas.Grandpa.Replay` | grandpa/round.go:355-378 | the round afterwards is the one the handler leaves message by message |
| `Grandpas.ReplayAdds` | grandpa/round.go:355-378 | handing messages to the handler one by one adds exactly the admissible ones to the stage's tracker, in order |
| `Grandpas.Grandpa.PlayRoundWithCatchUp` | grandpa/round.go:341-393 | a response for another round is refused; else the round is started if missing, the messages are played and an attempt to finalize is made, whose failure is the result; a finished later round becomes the last completed one |
| `Agreement.FoundUnique` | types/block_tree.go:568-623 | while at most a third of the stake equivocates, the search over a round's graph has one possible result |
| `Agreement.CandidateUnique` | grandpa/grandpa.go:889-969 | then instances with the same tree, finalized blocks and prevotes have the same candidate in every round |
| `Agreement.ConflictConvicts` | grandpa/grandpa.go:1057-1066 | if two instances find conflicting blocks with enough precommits of one round to finalize them, the votes that led them there convict more than a third of the stake |
| `Agreement.ConflictHasEvidence` | grandpa/grandpa.go:1057-1066 | such votes exist for every sound round |
| `Agreement.SameOutcome` | grandpa/grandpa.go:1040-1113 | attempts to finalize on agreeing rounds end alike: same result, same finalized blocks |
| `Agreement.PlayedAgrees` | grandpa/round.go:341-378 | playing a round's export into rounds that lack it makes them agree with the rounds it came from |
| `Agreement.CatchUpFrom` | grandpa/round.go:337-393 | an instance that missed a round replays another's votes of it and ends with the same ballots, voter states and finalized blocks |
| `WarpSync.WarpSyncer.VerifyWarpSyncJustification` | grandpa/warpsync.go:135-183 | accepts exactly if enough precommits by set members verify and the commit is for the header |
| `WarpSync.WarpSyncer.ProcessWarpSyncFragment` | grandpa/warpsync.go:94-131 | an accepted fragment installs the announced set and the next set id; a rejected one changes nothing |
| `WarpSync.WarpSyncer.ProcessWarpSyncResponse` | grandpa/warpsync.go:77-90 | set, id and answer are those of following the fragments in order until one is refused or not stored |
| `WarpSync.AcceptedExactly` | grandpa/warpsync.go:135-183 | a fragment is accepted exactly if at least two thirds of the set's number count and the commit is for the header |
| `WarpSync.WeightIsCount` | grandpa/warpsync.go:145-167 | what counts is the number of precommits signed by a member for the fragment's round and set |
| `WarpSync.FollowedSetId` | grandpa/warpsync.go:94-131 | following fragments of successive sets adds one to the set id for each, by 32-bit arithmetic |
| `WarpSync.FollowedIsTrusted` | grandpa/warpsync.go:77-131 | all are followed exactly if each was accepted by the set fixed by the epoch marks before it and stored; the set and id at the end |
| `WarpSync.SetAfterIsLatestMark` | grandpa/warpsync.go:94-131 | the set in force is the one of the latest epoch mark |
| `WarpSync.QuorumsOverlap` | grandpa/warpsync.go:135-173 | two accepted fragments without a signer counted twice share signers worth a third of the set, and one that is not faulty when fewer than a third are |
| `WarpSync.WeightCountsSigners` | grandpa/warpsync.go:145-167 | the weight equals the number of signers exactly if no signer is counted twice, and is larger otherwise |
| `WarpSync.RepeatedSignerAccepted` | grandpa/warpsync.go:145-173 | one member's precommit listed often enough is accepted with that single signer |
| `WarpSync.AcceptanceIgnoresHeader` | grandpa/warpsync.go:135-183 | an accepted fragment stays accepted with any other header and epoch mark |
| `WarpSync.WeightIsForHeader` | grandpa/warpsync.go:145-167 | the weight stands behind the header exactly if every counted precommit is for it |
| `WarpSync.HeadersShareSigners` | grandpa/warpsync.go:135-183 | then a third of the set signed both headers of two accepted fragments, and one that is not faulty when fewer than a third are |
| `GpTree.BuildGpTree` | bmt/core/gp_tree.go:21-83 | the recursive build returns the trie of its pairs and stops within the key's bits; its shape is `TrieOrder` |
| `GpTree.KeyFromBits` | bmt/core/gp_tree.go:103-114 | the bits determine the key |
| `GpTree.LeavesOfBuild` | bmt/core/gp_tree.go:21-83 | the trie holds exactly the given pairs |
| `GpTree.BuildCanonical` | bmt/core/gp_tree.go:21-83 | lists with the same pairs, in any order, build the same trie |
| `TrieOrder.BitDecides` | bmt/core/gp_tree.go:103-114 | bits count from the most significant: the first bit in which two keys differ decides their byte order |
| `TrieOrder.LeftBeforeRight` | bmt/core/gp_tree.go:21-83 | every key on the left of a branch is less than every key on its right |
| `TrieOrder.TrieIsSorted` | bmt/core/gp_tree.go:21-83 | read from left to right the trie is the sorted list of its pairs |
| `TrieOrder.NodeHoldsPrefix` | bmt/core/gp_tree.go:21-83 | a node on the way of a key holds exactly the pairs that share the bits so far |
| `TrieOrder.WayGoesOn` | bmt/core/gp_tree.go:21-83 | the way goes through a branch at every level as long as two pairs share its bits |
| `GpRoots.RootCanonical` | bmt/core/gp_tree.go:21-83 | and so have the same root |
| `GpRoots.LeafReads` | bmt/core/gp_encode.go:45-74 | a leaf encoding has 64 bytes; read by the rules of the Gray Paper it gives 31 key bytes and the value up to 32 bytes, else its hash |
| `GpRoots.BranchReads` | bmt/core/gp_encode.go:13-33 | a branch digest is that of 64 bytes that read as its left digest without the top bit and its right digest |
| `GpRoots.EmptyRoot` | bmt/core/gp_tree.go:21-40 | the root of nothing is 32 zero bytes |
| `GpRoots.HashBinds` | bmt/core/gp_encode.go:13-74 | without a collision two tries with one hash are the same up to the last byte of their keys |
| `GpRoots.RootsAgree` | bmt/core/gp_encode.go:13-74 | roots agree exactly when the tries agree up to the last key byte |
| `GpRoots.RootBindsTold` | bmt/core/gp_encode.go:45-74 | without a collision and for keys no two of which differ in the last byte alone, roots agree exactly when the pairs agree |
| `GpRoots.BoundExactlyIfTold` | bmt/core/gp_encode.go:45-74 | a set of keys is told apart in this way exactly if, over all hashes and lists of such keys without a collision, roots agree exactly when the pairs do |
| `GpRoots.RootBindsSize` | bmt/core/gp_encode.go:45-74 | whatever the keys, lists with one root have the same number of pairs |
| `GpRoots.RootForgetsLastByte` | bmt/core/gp_encode.go:45-74 | for every hash, keys that differ in the last byte alone share a root |
| `GpProofs.GenerateProofForKey` | bmt/sessions_enhanced.go:431-463 | the walker collects the siblings and directions on the key's way down |
| `GpProofs.GenerateBMTProofPath` | bmt/nomt.go:544-577 | the other walker returns the same path in the other format |
| `GpProofs.ConvertProofNodes` | bmt/sessions_enhanced.go:476-485 | conversion keeps sibling and direction at every level |
| `GpProofs.ConvertToProofNodes` | bmt/sessions_enhanced.go:527-537 | so does the conversion back |
| `GpProofs.ConversionKeepsFold` | bmt/sessions_enhanced.go:500-537 | a path that went through both conversions folds to the same digest |
| `GpProofs.Verify` | bmt/core/proof/proof.go:47-90 | the loop accepts exactly if folding the siblings from the leaf gives the root |
| `GpProofs.FoldReached` | bmt/sessions_enhanced.go:431-473 | folding the collected siblings from the reached node gives the root, for every tree and key |
| `GpProofs.FoldBinds` | bmt/core/proof/proof.go:47-90 | without a collision the same bits and root force the same bottom and siblings: whole on the right side, up to the cleared bit on the left |
| `GpProofs.GeneratedProofVerifies` | bmt/core/proof/proof.go:47-90 | for every trie, key and attached value a generated proof is accepted exactly if the value fits the reached node: none for an empty subtrie, that of the leaf with the same first 31 key bytes |
| `GpProofs.PresentKeyVerifies` | bmt/core/proof/proof.go:47-90 | with the value the trie has, the proof of a present key is always accepted |
| `GpProofs.AbsentKeyRefused` | bmt/core/proof/proof.go:60-68 | in a one-leaf trie the proof that another key is absent is refused |
| `GpProofs.InclusionSound` | bmt/core/proof/proof.go:47-90 | whatever path is presented, acceptance means the trie holds the value under a key with the same first 31 bytes |
| `GpProofs.ExclusionIgnoresKey` | bmt/core/proof/proof.go:60-90 | for every trie and key some path is accepted as a proof of absence exactly if the trie has an empty subtrie |
| `GpProofs.PresentKeyExcluded` | bmt/core/proof/proof.go:60-90 | two keys that start with a one: a proof that the first is absent is accepted |
| `Witnesses.WriteSession.Get` | bmt/sessions_enhanced.go:210-236 | answers from the session's changes, else from below, and logs a read in witness mode |
| `Witnesses.WriteSession.Insert` | bmt/sessions_enhanced.go:161-182 | logs a read of the key and then the write, stages the value, and keeps the law of session logs |
| `Witnesses.WriteSession.Delete` | bmt/sessions_enhanced.go:185-207 | the same for a removal, which carries no value |
| `Witnesses.WriteSession.Prepare` | bmt/sessions_enhanced.go:353-391 | closes the session once and hands out its changes and log |
| `Witnesses.WriteSession.GenerateWitness` | bmt/sessions_enhanced.go:394-428 | one proof per logged operation, with the operation's value, on the trie of the session's own changes; an open session logs one more read per proof |
| `Witnesses.MakeWitness` | bmt/sessions_enhanced.go:594-629 | the same for a prepared session's changes and log, with the root it holds, its own or the committed one |
| `Witnesses.VerifyWitness` | bmt/sessions_enhanced.go:500-524 | accepts exactly if there is a witness and every proof verifies against the root |
| `Witnesses.WitnessAccepted` | bmt/sessions_enhanced.go:500-524 | for every trie and log, the witness is accepted exactly if each operation's value fits its path |
| `Witnesses.SessionWitnessAccepted` | bmt/sessions_enhanced.go:161-236 | for every log a witness-mode session can have and every root, its own or the committed one, exactly if it holds no write and, unless it is empty, the root is that of nothing |
| `Witnesses.OneInsertRefused` | bmt/sessions_enhanced.go:167-173 | one insert: the proof of the write is good, that of the read logged before it is refused |
| `KeyOrder.ExchangeSort` | bmt/sessions_enhanced.go:297-304 | sorts the array in place and keeps its pairs |
| `KeyOrder.SortedUnique` | bmt/sessions_enhanced.go:297-304 | a set of pairs has one sorted list |
| `Stores.Beatree.ApplyChangeset` | bmt/beatree_wrapper.go:180-190 | the contents become the merged ones and the cached root stays true or is marked dirty |
| `Stores.Beatree.Sync` | bmt/beatree_wrapper.go:304-351 | the contents stay the same whether or not the sync succeeds, and the cache stays true |
| `Stores.Beatree.Root` | bmt/beatree_wrapper.go:193-234 | the cached or recomputed root is that of the contents |
| `Stores.RootOfContents` | bmt/beatree_wrapper.go:193-234 | enumerating in any order, sorting and building gives the one root of the contents |
| `Stores.SyncView` | bmt/beatree/shared.go:94-132 | every stage of a sync shows readers the same contents |
| `Stores.RootDeterminesContents` | bmt/beatree_wrapper.go:193-234 | for keys no two of which differ in the last byte alone and without a collision, roots agree exactly when the contents do |
| `Ledgers.IncrementEnd` | bmt/beatree_wrapper.go:142-151 | the loop yields the key plus one, wrapping after the last |
| `Ledgers.Lookup` | bmt/beatree_wrapper.go:136-176 | the iterator from the key to that end finds a present key exactly if some key is greater |
| `Ledgers.GreatestKey` | bmt/beatree_wrapper.go:142-151 | only the key of 255s has no greater one |
| `Ledgers.UndoRestores` | bmt/rollback/rollback.go:185-200 | undoing a changeset restores the contents exactly if every key it touched while present has a greater key |
| `Ledgers.GreatestKeyLost` | bmt/rollback/rollback.go:185-200 | a present key without a greater one, overwritten and rolled back, is gone |
| `Ledgers.CommitThenRollback` | bmt/rollback/rollback.go:89-111 | a rollback restores the contents before the last commit exactly if every key that touched while present has a greater key |
| `Ledgers.UndoneCommitLeavesNoTrace` | bmt/rollback/rollback.go:89-179 | if a commit finds the head at the end of the log, undoing it also restores what every further rollback restores |
| `Ledgers.TracelessExactly` | bmt/rollback/rollback.go:89-179 | over all ledgers that runs reach with a given head and log length, that holds exactly if the head is at the end, or at the start of a log with one record |
| `Ledgers.RunTracks` | bmt/rollback/rollback.go:89-179 | in every run whose commits find the head at the end, which is to say commits followed by rollbacks, the ledger holds what a stack of earlier contents says |
| `Ledgers.RollbacksUndoCommits` | bmt/rollback/rollback.go:149-179 | from any state, as many rollbacks as commits just made restore the contents |
| `Ledgers.RollbackTo` | bmt/rollback/rollback.go:115-146 | rolling back to a record equals single rollbacks down to it |
| `Ledgers.StaleRecordsReturn` | bmt/rollback/rollback.go:149-179 | in the run that commits a key twice, rolls both back and commits and rolls back another key, the next rollback brings the first value back |
| `Nomts.Nomt.Insert` | bmt/nomt.go:124-142 | stages the value in the live overlay unless that was dropped |
| `Nomts.Nomt.Delete` | bmt/nomt.go:145-163 | stages a removal |
| `Nomts.Nomt.Commit` | bmt/nomt.go:198-263 | the ledger takes the overlay's changes with their reverse delta, the overlay is replaced, and the root is that of the new contents; a delta that cannot be written changes nothing, one without its head only grows the log, a failing sync rolls the delta back if it can be read; every failure keeps the root and leaves the overlay frozen |
| `Nomts.Nomt.CommitPrepared` | bmt/sessions_enhanced.go:542-586 | the same for a prepared session, refused exactly when the root has moved; a failure leaves the live overlay alone |
| `Nomts.Nomt.Rollback` | bmt/nomt.go:266-307 | applies the head record and refreshes the root; without one, or with one that cannot be read, it only drops the overlay; if the head cannot be written or the sync fails, the old root stays over the rolled-back contents |
| `Nomts.Nomt.CurrentRoot` | bmt/nomt.go:320-343 | the root of the merged map; without overflowing values it is the root the commit will give |
| `Nomts.CollectForPreview` | bmt/nomt.go:350-395 | merging change by change, in any order, gives the previewed map |
| `Nomts.PreviewIsCommit` | bmt/nomt.go:350-395 | the previewed map is the committed one exactly when no staged value overflows |
| `Nomts.PreviewedExactly` | bmt/nomt.go:363-377 | a staged value is previewed exactly if it has at most 1024 bytes |
| `Nomts.CommitReads` | bmt/nomt.go:198-263 | after a commit staged values of any size are read back, removed keys are absent and others unchanged |
| `Nomts.PreviewRootIsCommitRoot` | bmt/nomt.go:320-343 | the same for the roots, for all contents and keys, without a collision between the two |
| `Nomts.LargeValueNotPreviewed` | bmt/nomt.go:363-377 | a staged value of 1025 bytes is stored by the commit and missing from the preview, with another root |
| `Sessions.StepSound` | bmt/nomt.go:198-307 | every step keeps each held root the root of the contents it stands for, and all keys within the set that its writes come from |
| `Sessions.RunsSound` | bmt/sessions_enhanced.go:128-156 | so does every interleaving from a freshly opened database |
| `Sessions.NoLostUpdates` | bmt/sessions_enhanced.go:542-586 | after every run over keys no two of which differ in the last byte alone, a prepared session commits exactly if the contents are those it began from, and then applies its changes to them; otherwise nothing changes |
| `Sessions.SafeExactlyIfTold` | bmt/sessions_enhanced.go:542-586 | a set of keys has that property exactly if every run over it, under every hash and without a collision, commits sessions in this way |
| `Sessions.PaddedKeysSafe` | bmt/sessions_enhanced.go:542-586 | the 31-byte state keys padded with a zero byte are such a set |
| `Sessions.StaleCommitAccepted` | bmt/sessions_enhanced.go:546-549 | for every two keys that differ in the last byte alone and every hash, a session commits over contents it did not begin from |
| `WorkPackages.Compact` | node/node_ext.go:163-175 | compacting the buffer in place is the order-preserving filter |
| `WorkPackages.RemoveWPsFromSlice` | node/node_ext.go:163-175 | the same for a list, also for nothing to remove |
| `WorkPackages.FindInHistory` | node/node_ext.go:229-241 | the scan finds exactly the wanted packages of a history |
| `WorkPackages.Settle` | node/node_ext.go:209-287 | each list afterwards: what is filtered out, and what is appended once, in order |
| `WorkPackages.SettledConserves` | node/node_ext.go:209-287 | no package is lost or invented; none queued is in either history, none refined in the accumulation history |
| `WorkPackages.SettledPlaces` | node/node_ext.go:209-287 | where each package is afterwards: finished ones accumulated, reported ones refined, the others still queued |
| `SlotBarrier.ManualJCEManager.Poll` | node/node_ext.go:111-132 | the pending list keeps exactly the late nodes in order, the complete list the others |
| `SlotBarrier.PollPending` | node/node_ext.go:111-132 | the in-place compaction while reading computes both |
| `SlotBarrier.ManualJCEManager.Advance` | node/node_ext.go:134-161 | opens the next 32-bit slot with all nodes pending, discards the queue and refills the buffer if it was not empty |
| `SlotBarrier.ManualJCEManager.CheckReq` | node/node_ext.go:177-312 | early exits leave the lists alone; the slot may advance if all queued packages were found or a buffered advance is left, which is then used up |
| `SlotBarrier.MetExactly` | node/node_ext.go:177-312 | a check passes without the buffer exactly if packages were queued and the histories report each of them |
| `SlotBarrier.ManualJCEManager.Tick` | node/node_ext.go:332-339 | a tick advances exactly when no pending node is late and the package check allows it; each outcome for slot, pending nodes and lists |
| `SlotBarrier.AdvanceWaits` | node/node_ext.go:332-339 | an advance from a slot happens only once every node has completed it |
| `SlotBarrier.BarrierHolds` | node/node_ext.go:332-339 | in every run, once advanced, the slot is at most one above the slowest node |
| `SlotBarrier.StepHolds` | node/node.go:4757-4767 | every completion and every tick keeps that |
| `SlotBarrier.SlotCountsAdvances` | node/node_ext.go:134-161 | after every run the slot is the first one plus the number of ticks at which all polled nodes were done and packages allowed, modulo 2^32 |
| `SlotBarrier.CompletedIsLatest` | node/node.go:4757-4767 | a node stands at the latest slot it reported, in default clock mode at the last one |
| `SlotBarrier.DefaultClockBreaksBarrier` | node/node.go:4757-4767 | in default clock mode, for every slot, a run breaks it |
| `SlotBarrier.AdvanceKeepsPackages` | node/node_ext.go:134-161 | an advance keeps every package exactly if each queued one is in a later list or a history consulted |
| `SlotBarrier.QueuedPackageLost` | node/node_ext.go:134-161 | one queued package and no recent blocks: the advance discards it |
| `StateCache.Target.OnInitialize` | fuzz/fuzzer_target.go:195-247 | stores the root in cache and persistent map; resets the prune mark only for an older slot |
| `StateCache.Target.OnSetState` | fuzz/fuzzer_target.go:250-288 | clears the cache, also when recovery fails, and stores the root |
| `StateCache.Target.OnImportBlock` | fuzz/fuzzer_target.go:391-403 | a successful import stores its root and prunes; a failed one changes nothing |
| `StateCache.Target.OnGetState` | fuzz/fuzzer_target.go:406-429 | the cached root, else the persisted one, never the zero hash |
| `StateCache.Target.StoreExportedSegments` | fuzz/fuzzer_target.go:520-533 | both lookups lead to the new data |
| `StateCache.Target.GetExportedSegments` | fuzz/fuzzer_target.go:536-554 | the data behind a lookup entry |
| `StateCache.Target.PruneOldStates` | fuzz/fuzzer_target.go:556-611 | skipped within the interval; else drops old entries and unreferenced data |
| `StateCache.ResolvesLastStored` | fuzz/fuzzer_target.go:406-429 | in every session the root resolved for a header is the last one stored for it |
| `StateCache.ExportsHaveData` | fuzz/fuzzer_target.go:520-611 | every lookup entry always has its data, the last stored for the package |
| `StateCache.PruneKeepsReferenced` | fuzz/fuzzer_target.go:586-611 | after a pass that is not skipped the kept data are exactly the referenced ones and kept lookups answer as before |
| `StateCache.StoredExportsFound` | fuzz/fuzzer_target.go:520-611 | segments stored for a package are found under it and its nonzero root in every session until others are stored there or a block over 64 slots later is imported |
| `StateCache.OldExportsDropped` | fuzz/fuzzer_target.go:586-611 | a pass over 64 slots later drops them |
| `StateCache.PassInterval` | fuzz/fuzzer_target.go:556-575 | while the sum does not wrap, a pass runs exactly if the last one was at least 32 slots ago |
| `StateCache.InitializeMark` | fuzz/fuzzer_target.go:213-223 | no prune mark is left after the slot of an initialization; an earlier one is kept |
| `StateCache.SetStateForgets` | fuzz/fuzzer_target.go:250-288 | setting a state leaves at most that state in the cache and lets the next import from slot 32 on prune |
| `StateKeys.IncrementKey` | node/peerCE129_staterequest.go:247-257 | adds one with carry; fails only on the last key |
| `StateKeys.LessIsValue` | node/peerCE129_staterequest.go:259-261 | byte order is numeric order |
| `StateKeys.RangeKeys` | node/node.go:3217-3233 | a range holds the keys with its first byte and the first key of the next range |
| `StateKeys.RangesCover` | node/node.go:3390-3403 | the 256 ranges cover every key and meet only at shared boundary keys |
| `Snapshots.FetchStatePaginated` | node/peerCE129_staterequest.go:269-319 | stops for every peer; from an honest one it gets exactly the range, whatever the page sizes |
| `Snapshots.Deduplicate` | node/node.go:3363-3373 | the first pair of each key stays |
| `Snapshots.ComputeStateRoot` | node/node.go:2840-2893 | the root is that of the map the list stands for |
| `Snapshots.MapOfAnyOrder` | node/node.go:2840-2893 | order and agreeing duplicates do not matter |
| `Snapshots.SnapshotRootBinds` | node/node.go:2840-2893 | without a collision, snapshots have one root exactly when they hold the same state |
| `Snapshots.FetchStates` | node/node.go:3344-3386 | whatever the peers answered, one pair per answered key in any order of ranges; from honest peers the state restricted to the ranges |
| `Snapshots.CompleteFetch` | node/node.go:3350-3386 | every state is fetched whole exactly if all 256 ranges were answered |
| `Snapshots.MissingRangeLosesKey` | node/node.go:3350-3386 | for every missing range, a one-key state that comes back empty |
| `Justifications.EncodeJustification` | common/tool.go:201-223 | every accepted path is encoded, any other length is an error |
| `Justifications.DecodeJustification` | common/tool.go:225-272 | cut entries and unknown markers are errors |
| `Justifications.DecodeEncode` | common/tool.go:201-272 | decoding an encoded path returns it, for every shard size |
| `Justifications.EncodeDecode` | common/tool.go:201-272 | re-encoding is the identity exactly if no entry is tagged as a shard or shards are neither 32 nor 64 bytes |
| `Justifications.MarkersOnWire` | common/tool.go:201-223 | 0 starts a hash, 1 a pair of hashes, 2 any other entry, and the entry follows |
| `KeyNames.ToSAN` | common/tool.go:451-474 | the name spells the 52 digits of the little-endian number |
| `KeyNames.FromSAN` | common/tool.go:477-507 | the reader folds from the first character, keeps 256 bits, and refuses other lengths, prefixes and letters |
| `KeyNames.NameIdentifiesKey` | common/tool.go:451-474 | folding from the last character recovers the key; names are injective |
| `KeyNames.NameLetters` | common/tool.go:451-474 | a name is an e and 52 letters, a to z for digits below 26 and 2 to 7 for the others |
| `KeyNames.ReaderRecoversPalindromes` | common/tool.go:476-507 | the reader recovers a key exactly if its digits read the same backwards |
| `KeyNames.ReaderAccepts` | common/tool.go:476-507 | the reader takes exactly the strings of an e and 52 such letters |
| `KeyNames.ReaderMissesOne` | common/tool.go:476-507 | it does not recover the key one |

## Left out

- Votes: weights are unbounded integers where the source uses 64 bits; `Votes.PotentialBounded` shows that no weight exceeds the total stake, so nothing wraps while the total fits.
- Grandpas.Grandpa.AttemptToFinalizeAtRound: the commit message, events and warp-sync fragments after a finalization are not modelled.
- Grandpas.Grandpa.CacheBlock: a block's hash fixes its parent and is not the hash the root names as its parent; the pruning of old blocks that follows is not modelled.
- Grandpas.Grandpa.GrandpaGhost: rounds hold their graphs and trackers as values, and the weights of a graph are recomputed rather than kept on shared nodes.
- Grandpas.Grandpa.PlayRoundWithCatchUp: fetching the response is not modelled.
- Grandpas.Grandpa.ProcessPreVoteMessage: the vote slots kept for commits and the copying of a voted block into the graph are left out here; the copying is `AncestorSync`.
- Grandpas.Grandpa.ProcessPreCommitMessage: its commit-slot error is the check that the voter is an authority; votes are routed to the instance of their own set (grandpa/grandpa.go:563-578), which is when a replay admits them again.
- Agreement.CatchUpFrom: the two instances know the same blocks and their graphs of the round have the same blocks and flags; otherwise they may have different candidates.
- AncestorSync.SyncBlockWithAncestors: the node's block tree does not change during a copy.
- Commit messages, primary proposals on the wire, timers, tickers and goroutine scheduling of rounds: they add message plumbing.
- Signatures: an arbitrary verify predicate on key, message, round and set id.
- Ledgers.RunTracks: a commit after a rollback never finds the head at the end; what such runs do to later rollbacks is `Ledgers.TracelessExactly`.
- Sessions.RunsSound: steps whose storage succeeds; sessions begun over given overlays start from the same root and stage the same way, the overlays only serve their reads.
- Nomts.Nomt.Commit: staging changes in memory does not fail; a store left half synced cannot sync again, as in the source.
- Nomts.Nomt.constructor: opens with an empty rollback log; a log kept from an earlier process and pruning of old records are not modelled.
- Reads through overlays: a staged removal as seen by the database's point read, and read sessions.
- GpProofs.GenerateProofForKey: the value the walkers attach to a path is left out, since both witnesses replace it by the operation's value.
- Witnesses.WriteSession.Insert: absent and empty values are distinct.
- Roots of sessions before their commit: computed from the changes alone and replaced at commit.
- Stores.Beatree.Root: pages, branch and leaf stores and the iterator that merges staged changes are the map they enumerate; absent and empty values are distinct.
- Ledgers.CommitThenRollback: a delta that can be read back from the segmented log is what was written.
- SlotBarrier.ManualJCEManager.Tick: the events that queue packages and replace the histories only assign fields; the tickers are steps.
- StateCache.Target.OnImportBlock: the state transition, the recovery of a parent state for a fork and the trie are inputs: the root and whether it succeeded.
- StateCache.Target.OnGetState: it resolves the root; loading the state behind it is not modelled. Persistence is taken to work.
- Snapshots.FetchStates: retries of failed ranges end in the set of ranges that some peer answered.
- Snapshots.FetchStatePaginated: the request on the wire and cancellation are not modelled; what a peer returns is any function of the start key.
- Block authoring, state transition, refinement, audit, erasure coding, networking, RPC, telemetry, command line, the fuzzer's mutators and the foreign cryptography.
