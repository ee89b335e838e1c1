# Consolidation incentives: proofs, claims and scans

This project models the path a consolidation reward takes, and proves what each
step keeps.

* A Rust prover builds SSZ Merkle proofs through lists of up to 2^40 slots
  without building the trees, and glues five layers (element field, list data,
  list length, state field, header field) into one proof per value.
* Two programs compute the generalized index of each value: Rust by
  concatenation, Solidity by shift and OR.
* A Solidity contract folds three such proofs to a beacon block root, checks
  eligibility and pays each source validator once, to a recipient that may call
  back in.
* Rust tools scan, watch and poll a node for pending consolidations.

The pair hash is a parameter `H` everywhere. Completeness is proved for every
`H`. Soundness never says "or a collision exists", which is true of every
compressing hash: the extractors in `Binding` and `EndToEnd` are functions that
return the two hash inputs, and only collisions or pairs hashing to the zero
chunk or to the list's length chunk count as a broken hash. A pair hashing to a
chunk a validator chooses does not.

## Main results

* `EndToEnd.BundleIsPaid`: a bundle the prover builds over a consistent state is
  paid exactly when it is unclaimed, eligible, late enough, funded and accepted,
  and the payment put on record goes to the address the prover announced.
* `EndToEnd.AcceptedClaimIsEarned`: an accepted claim is true of the block's
  state, or its finding is a broken hash.
* `EndToEnd.EveryPaymentIsEarned`: over every run, with reentrant recipients and
  rolled-back transfers, funds are conserved, each source is paid once and every
  reward was earned and went to the validator's own withdrawal address.
* `ConsolidationIncentives.BoundariesKeepInv`: the books balance at the entry and
  exit of every nested call, however deep, also inside transfers that end up
  rejected and frames of other contracts that revert.
* `SparseProof.ProveAgainstLeafChunks`: the sparse proof is the complete tree's
  own branch, for any index the same root, within a stated number of hashes.
* `Merkle.FoldComposes`, `StateProver.LayersAreOneBranch`: appended layers are
  one proof at the concatenated position.
* `Binding.AcceptedProofsBind`: one root and one position bind leaf and proof.

## Findings

* The contract ORs the consolidation index into the position without bounding
  it. Positions are injective below the list limits
  (`Gindex.PositionsInjective`) and not beyond: `Gindex.OutOfRangeAliases` gives
  a whole family, and by `Gindex.AliasExactly` two indices collide exactly when
  they differ in bits 21, 24, 25, 26 and 28 at most. A claim therefore proves the
  entry at the index modulo 2^18, and the soundness theorem says so. Validator
  indices are bounded by the first proof, so no such alias survives for them.
* The detector starts with epoch 0 as already processed, so a list answered
  while epoch 0 is the finalized one is never processed
  (`Detector.EpochZeroIsMissed`). `Detector.ProcessedExactly` says which lists
  are, over every run: those of fully answered polls whose epoch is above 0 and
  above that of every earlier fully answered poll.
* `--scan-hit-limit` is described as a number of non-empty states
  (`prover/crates/real-chain-test/src/main.rs:68-71`), but samples over empty
  slots fall back to the state before them and are counted again:
  `Scan.OneStateReachesLimitOfTwo`. By `Scan.HitsAreDistinctStates` the count is
  one of states exactly when above every sample that hit, up to and including
  each higher sample, some slot is not empty.

## Modules

| file | models |
|---|---|
| Bits.dfy, Bytes.dfy | bitwise operators on naturals, 32-byte words, both byte orders |
| Merkle.dfy, Binding.dfy | trees by generalized index, branches, folding, extraction |
| SparseProof.dfy, DenseTree.dfy, ListProofs.dfy | the sparse prover, the dense generator, list and container proofs |
| Gindex.dfy | both gindex computations |
| BeaconState.dfy, StateProver.dfy | SSZ objects as trees, the five-layer prover |
| SszMerkleVerifier.dfy, ConsolidationIncentives.dfy | the verifier library and the contract |
| EndToEnd.dfy | completeness and soundness across prover, verifier and contract |
| ScanSlots.dfy, Scan.dfy, Watch.dfy, Detector.dfy | scan windows, walk-back and scan, watch loop, polling detector |

## Model

| member | source | states |
|---|---|---|
| SparseProof.ZeroHashes | prover/crates/proof-gen/src/sparse_proof.rs:25-34 | entry d is the root of the empty tree of depth d, for all 65 entries |
| SparseProof.ComputeSubtreeRoot | prover/crates/proof-gen/src/sparse_proof.rs:137-159 | the root of the zero-padded subtree; no hashes without data, at most data + depth - 1 with data, exactly 2^depth - 1 when full |
| SparseProof.ProveAgainstLeafChunks | prover/crates/proof-gen/src/sparse_proof.rs:53-124 | the proof is the complete tree's branch (each node the true sibling root), the root is the complete tree's for every index, at most len + depth(depth+1)/2 hashes beyond the zero table |
| SparseProof.FoldFromLeaf | prover/crates/proof-gen/src/sparse_proof.rs:110-121 | the prover's root loop is the fold of the proof at the index, one hash per node |
| Merkle.NodeAtComplete | prover/crates/proof-gen/src/sparse_proof.rs:98-101 | the node at level l, position p of a complete tree is the subtree of 2^(depth-l) slots from p * 2^(depth-l) |
| Merkle.BranchAccepted | contracts/src/lib/SSZMerkleVerifier.sol:89-129 | completeness: the branch of any node of any tree is accepted for it, under every hash |
| Merkle.FoldComposes | prover/crates/proof-gen/src/state_prover.rs:124-127 | folding p1 ++ p2 at the concatenated index is folding p1, then p2 |
| Merkle.BranchConcat | prover/crates/proof-gen/src/gindex.rs:163-172 | the branch at a concatenated index is the inner branch followed by the outer one |
| Merkle.BranchOfRoots | prover/crates/proof-gen/src/state_prover.rs:110-114 | proving over element hashes gives the same branch as proving over the elements' own trees |
| Binding.AcceptedProofsBind | contracts/src/lib/SSZMerkleVerifier.sol:89-129 | two accepted (leaf, proof) pairs for one root and gindex are equal, or a terminating function returns two different pairs with one hash |
| Binding.ExtractSound | contracts/src/lib/SSZMerkleVerifier.sol:112-128 | an accepted leaf is the tree's own node at that gindex, or the extractor's finding is genuine; a preimage finding names the chunk the gindex lies below |
| Binding.OwnBranchIsClean | contracts/src/lib/SSZMerkleVerifier.sol:112-128 | the extractor finds nothing in a tree's own branch |
| DenseTree.HashContainerFields | prover/crates/test-vectors/src/main.rs:364-381 | layer-by-layer hashing gives the sparse prover's root, for every field list that fits |
| DenseTree.ZeroHash | prover/crates/test-vectors/src/main.rs:241-250 | the iterated zero hash is the zero table's entry |
| DenseTree.PackU64List | prover/crates/test-vectors/src/main.rs:253-266 | max(1, ceil(n/4)) chunks, every byte of which is the packed value's byte or zero |
| DenseTree.LanesDecode | prover/crates/test-vectors/src/main.rs:255-260 | every 8-byte lane decodes to its value, or to zero past the end |
| DenseTree.PackingInjective | prover/crates/test-vectors/src/main.rs:253-266 | chunks plus length determine the list |
| ListProofs.ProveListElement | prover/crates/proof-gen/src/sparse_proof.rs:178-197 | depth + 1 nodes, accepted at (2 << depth) + i for the list root |
| ListProofs.ProveContainerField | prover/crates/proof-gen/src/sparse_proof.rs:206-217 | accepted at 2^d + field for the container root |
| ListProofs.DepthFor | prover/crates/proof-gen/src/sparse_proof.rs:211-215 | the least d with 2^d >= the field count |
| ListProofs.EmptyListRoot | prover/crates/test-vectors/src/main.rs:235-238 | equals the list root of no elements |
| StateProver.ComputeListRoot | prover/crates/proof-gen/src/state_prover.rs:268-271 | from element hashes, the root of the list of the elements themselves |
| StateProver.StateProver.New | prover/crates/proof-gen/src/state_prover.rs:36-81 | succeeds exactly on 37 field roots, with the count in the error otherwise, and then holds those roots, lists and depths with element hashes that are the elements' tree roots |
| StateProver.StateProver.ComputeStateRoot | prover/crates/proof-gen/src/state_prover.rs:84-88 | the root of the 37 field roots padded to 64 |
| StateProver.StateProver.ProveConsolidationSourceIndex | prover/crates/proof-gen/src/state_prover.rs:91-130 | the branch through entry, list data, length and state field with the entry's source chunk as leaf; which error for which index |
| StateProver.StateProver.ProveValidatorField | prover/crates/proof-gen/src/state_prover.rs:133-206 | the same for a validator's credentials and activation epoch |
| StateProver.StateProver.GenerateFullProofBundle | prover/crates/proof-gen/src/state_prover.rs:209-264 | a bundle exactly when the entry, its validator and a slot for each exist, with their values and three header-wrapped branches; otherwise the error of the first of these that is missing |
| StateProver.LayersAreOneBranch | prover/crates/proof-gen/src/state_prover.rs:104-127 | when the field root is the list's own, the four appended layers are one branch of one state tree at the concatenated position |
| BeaconState.ValidatorLayout | prover/crates/proof-gen/src/types.rs:80-97 | each of the eight validator fields sits at its own node, 8 to 15 |
| BeaconState.ConsolidationLayout | prover/crates/proof-gen/src/types.rs:53-58 | source at node 2, target at node 3 |
| BeaconState.HeaderLayout | prover/crates/proof-gen/src/beacon_state.rs:61-67 | the five header fields sit at nodes 8 to 12, with zero chunks at 13 to 15 |
| BeaconState.StateLayout | prover/crates/proof-gen/src/gindex.rs:20-45 | the validator list sits at state node 64 + 11, the pending list at 64 + 36, the other roots at their own fields and zero chunks past field 36 |
| BeaconState.OpeningTheState | prover/crates/proof-gen/src/proof.rs:208-222 | opening the state below the header changes neither the block root nor the branch to it |
| Gindex.ConcatGindices | prover/crates/proof-gen/src/gindex.rs:163-172 | the 64-bit loop computes the concatenation modulo 2^64, and exactly when the total depth is below 64 |
| Gindex.GindexDepth | prover/crates/proof-gen/src/gindex.rs:176-178 | 63 minus the leading zeros is the floor of log2, below 64 |
| Gindex.DepthOfInList | prover/crates/proof-gen/src/gindex.rs:251-269 | header, state, list wrapper, data and field depths add up, for any list depth |
| Gindex.ConsolidationSourceGindex | prover/crates/proof-gen/src/gindex.rs:64-105 | for any preset's depth and any uint64 index: nothing exactly when adding the tree's base overflows, otherwise the position of that entry's source modulo 2^64, and exactly for an index in the list |
| Gindex.ValidatorCredentialsGindex | prover/crates/proof-gen/src/gindex.rs:109-124 | likewise for credentials |
| Gindex.ValidatorActivationEpochGindex | prover/crates/proof-gen/src/gindex.rs:128-143 | likewise for the activation epoch |
| Gindex.PositionsAre | contracts/src/lib/SSZMerkleVerifier.sol:148-215 | for every index in range both programs compute (1480 * 2^18 + i) * 2 for an entry's source, (1430 * 2^40 + i) * 8 + 1 for a validator's credentials and + 5 for its activation epoch |
| Gindex.PositionsAgree | contracts/src/lib/SSZMerkleVerifier.sol:148-215 | in range, the contract's shift and OR equals the prover's concatenation, fits 64 bits and has depth 29 or 53 |
| Gindex.PositionsInjective | contracts/src/lib/SSZMerkleVerifier.sol:148-215 | in range, list, element and field are determined by the position |
| Gindex.AgreeExactlyInRange | prover/crates/proof-gen/src/gindex.rs:84-104 | the prover's 64-bit position, and equally the untruncated one, is the contract's exactly when the index is below the list limit |
| Gindex.AliasExactly | contracts/src/lib/SSZMerkleVerifier.sol:148-167 | two consolidation indices of any size share a position exactly when they agree in every bit except 21, 24, 25, 26 and 28 |
| Gindex.OutOfRangeAliases | contracts/src/lib/SSZMerkleVerifier.sol:161 | beyond the limit they are not: 2^21 + i names the node of i |
| SszMerkleVerifier.Log2 | contracts/src/lib/SSZMerkleVerifier.sol:277-292 | the binary search finds the highest set bit of every positive 256-bit value |
| SszMerkleVerifier.VerifyProof | contracts/src/lib/SSZMerkleVerifier.sol:89-129 | true exactly for proofs of the gindex's depth that fold to the root, gindex 0 and 1 included |
| SszMerkleVerifier.ConsolidationSourceGindex | contracts/src/lib/SSZMerkleVerifier.sol:148-167 | the stepwise shifts give the position used by the claim check, within 256 bits for every uint64 |
| SszMerkleVerifier.ValidatorCredentialsGindex | contracts/src/lib/SSZMerkleVerifier.sol:174-191 | likewise for credentials |
| SszMerkleVerifier.ValidatorActivationEpochGindex | contracts/src/lib/SSZMerkleVerifier.sol:198-215 | likewise for the activation epoch |
| Bytes.EncodingsAgree | contracts/src/lib/SSZMerkleVerifier.sol:226-240 | the masked byte reversal is the prover's little-endian chunk, for every uint64 |
| Bytes.U64ChunkInjective | prover/crates/proof-gen/src/proof.rs:372-376 | the chunk determines the integer |
| ConsolidationIncentives.CheckedIsVerified | contracts/src/ConsolidationIncentives.sol:153-216 | a claim passes the checks exactly when its timing, eligibility and prefix hold, the oracle has a nonzero root for that very timestamp against which all three proofs are accepted, its source is unrewarded and the reward is covered |
| ConsolidationIncentives.FirstFailureNamed | contracts/src/ConsolidationIncentives.sol:153-216 | of thirteen conditions in the contract's order, the error names the first that fails, with its values; BeaconRootNotFound comes exactly when the oracle's entry for that timestamp is absent or zero and the conditions before hold |
| ConsolidationIncentives.Step | contracts/src/ConsolidationIncentives.sol:222-225 | a reverted call leaves the whole ledger unchanged |
| ConsolidationIncentives.StepKeepsInv | contracts/src/ConsolidationIncentives.sol:143-256 | every call, nested calls included, keeps: balance = received - withdrawals on record - reward * rewarded; exactly the rewarded sources have a reward payment, one each; each is verified, of the reward amount and to the address in its verified credentials |
| ConsolidationIncentives.StepExtends | contracts/src/ConsolidationIncentives.sol:143-256 | from any ledger, no call removes a mark or a payment, and the rewards it adds are of its own transaction |
| ConsolidationIncentives.ClaimPaysCredentials | contracts/src/ConsolidationIncentives.sol:153-229 | a claim is done exactly when it passes the checks and the address in its credentials accepts (or is the contract); then that address has the next payment on record, otherwise nothing changed and the error is the failing check's or the transfer's |
| ConsolidationIncentives.WithdrawalGoesToNamed | contracts/src/ConsolidationIncentives.sol:240-251 | a withdrawal is done exactly for the owner, within the balance, when the receiver accepts; then the next payment on record is that amount to that address, otherwise nothing changed and the error says which of the three failed |
| ConsolidationIncentives.FundAddsItsAmount | contracts/src/ConsolidationIncentives.sol:256 | incoming value is always taken and adds exactly its amount to the balance and to what was received |
| ConsolidationIncentives.FrameIsAllOrNothing | contracts/src/ConsolidationIncentives.sol:222-225 | another contract's frame does its calls one after the other, or nothing |
| ConsolidationIncentives.RunReceives | contracts/src/ConsolidationIncentives.sol:256 | over every run, what was received grows by the incoming value of the calls that were not undone, at any depth, plus what the contract paid to itself |
| ConsolidationIncentives.BoundariesKeepInv | contracts/src/ConsolidationIncentives.sol:218-251 | the same invariant holds at the entry and exit of every call nested in a claim or a withdrawal, at any depth, rejected transfers included |
| ConsolidationIncentives.BoundariesReachNested | contracts/src/ConsolidationIncentives.sol:218-251 | a call's boundaries include its ends, the moment it hands over control and all boundaries of each call made there, on the ledger it is made on |
| ConsolidationIncentives.SendBoundariesExtend | contracts/src/ConsolidationIncentives.sol:218-222 | at every such moment of a transfer, its payment is on record and every source marked before it still is |
| ConsolidationIncentives.RewardsPerAddress | contracts/src/ConsolidationIncentives.sol:218-225 | what an address got in rewards is the reward amount times the number of rewarded sources paid there |
| ConsolidationIncentives.RunKeepsInv | contracts/src/ConsolidationIncentives.sol:143-256 | the invariant holds over whole runs, nothing recorded is taken back, and each new reward belongs to one of the run's transactions |
| ConsolidationIncentives.RunInOrder | contracts/src/ConsolidationIncentives.sol:143-256 | a run is its transactions one after the other, each in its own environment |
| ConsolidationIncentives.RewardedIsRefusedForGood | contracts/src/ConsolidationIncentives.sol:153-156 | once rewarded, a source's claim reverts after any further run, with any proofs |
| ConsolidationIncentives.OnlyOwnerWithdraws | contracts/src/ConsolidationIncentives.sol:240-251 | without a withdrawal by the owner somewhere in the call tree, every payment added is a reward and nothing is withdrawn |
| ConsolidationIncentives.Incentives.Check | contracts/src/ConsolidationIncentives.sol:153-216 | the object's checks return the first failing one, computed with the contract's own loops and encodings |
| ConsolidationIncentives.Incentives.ClaimReward | contracts/src/ConsolidationIncentives.sol:143-229 | the object's new state and outcome are the ledger step's, payments, reentrant calls and rollback included, and the states it met are the step's call boundaries |
| ConsolidationIncentives.Incentives.Withdraw | contracts/src/ConsolidationIncentives.sol:240-251 | likewise for withdrawals |
| ConsolidationIncentives.Incentives.Receive | contracts/src/ConsolidationIncentives.sol:256 | funding adds to the balance and to what was received, nothing else |
| ConsolidationIncentives.Incentives.Transfer | contracts/src/ConsolidationIncentives.sol:222-225 | the payment is recorded where the value moves and the receiver's calls run in order; a rejection undoes all of it |
| ConsolidationIncentives.Incentives.RunFrame | contracts/src/ConsolidationIncentives.sol:222-225 | while a receiver is in control, a frame of another contract that reverts undoes its own successful calls and nothing else, and the states it met are call boundaries too |
| ConsolidationIncentives.Incentives.RunAll | contracts/src/ConsolidationIncentives.sol:143-256 | a run on the object is the ledger run, and the invariant holds at its end and at every call boundary it met |
| EndToEnd.EveryStateIsProvable | prover/crates/proof-gen/src/state_prover.rs:36-88 | for every validator list, consolidation list and other field roots, the constructor yields a prover of exactly those lists that the next rows apply to |
| EndToEnd.EveryListedEntryIsProvable | prover/crates/proof-gen/src/state_prover.rs:209-222 | such a prover's bundle condition holds for exactly the entries in the list, below 2^18, whose source is a validator, below 2^40 |
| EndToEnd.ListedEntryHasBundle | prover/crates/proof-gen/src/state_prover.rs:209-264 | every such entry has a bundle of the kind the generator returns, so none of the bundle rows is empty |
| EndToEnd.EveryStateHasABlock | prover/crates/proof-gen/src/beacon_state.rs:61-67 | every state within the limits whose sources are validators has a well-formed block, which the soundness rows are about |
| EndToEnd.BundleBranches | prover/crates/proof-gen/src/state_prover.rs:244-252 | the three assembled proofs are the opened block's own branches at the three positions, whose nodes are the claimed values |
| EndToEnd.BundleVerifies | contracts/src/ConsolidationIncentives.sol:170-198 | every bundle passes the three checks with lengths 29, 53 and 53 |
| EndToEnd.RecipientsAgree | prover/crates/proof-gen/src/proof.rs:88-97 | an address exists exactly for 0x01 and 0x02 prefixes and its 20 bytes spell the address the contract pays |
| EndToEnd.BundleIsPaid | contracts/src/ConsolidationIncentives.sol:143-229 | once the oracle has the block's root for the bundle's timestamp: the claim is done exactly when it is unclaimed, late enough, eligible, funded, 0x01 or 0x02 and accepted; then the source is marked and the next payment on record is the reward to the address the bundle announces, otherwise nothing changes |
| EndToEnd.BundleHasNoFinding | prover/crates/proof-gen/src/state_prover.rs:209-264 | the extractor finds nothing in a bundle the prover built |
| EndToEnd.ContractNode | contracts/src/lib/SSZMerkleVerifier.sol:148-167 | for every index at depth 29, the contract's position is entry (index mod 2^18)'s source or lies below the zero chunk or the length chunk |
| EndToEnd.AcceptedClaimIsEarned | contracts/src/ConsolidationIncentives.sol:180-198 | an accepted claim has its source in the pending list and that validator's credentials and epoch, or its finding is a broken hash |
| EndToEnd.EveryPaymentIsEarned | contracts/src/ConsolidationIncentives.sol:143-256 | over every run from deployment against an honest oracle: balance, withdrawals and rewards add up to the value sent in by calls that were not undone plus payments to itself; pay-once; one reward per source paid at each address; and every reward of the fixed amount to the last 20 bytes of a pending eligible validator's own credentials in the block the oracle has for the claimed timestamp, or a broken hash |
| ScanSlots.FlagFamiliesExclude | prover/crates/real-chain-test/src/main.rs:991-1003 | no flag means no window, and exactly the mixed flag families are rejected as exclusive |
| ScanSlots.SlotFlagsExact | prover/crates/real-chain-test/src/main.rs:1005-1013 | slot flags resolve exactly when both are given, to those slots; otherwise the missing one is named |
| ScanSlots.EpochFlagsExact | prover/crates/real-chain-test/src/main.rs:1015-1036 | epoch flags resolve exactly when both are given, ordered and within u64, and then cover exactly the slots of those epochs; otherwise the first reason is named |
| ScanSlots.RecentFlagExact | prover/crates/real-chain-test/src/main.rs:1038-1050 | the recent-epochs flag resolves exactly when positive and within u64, to the look-back cut off at slot 0 and the finalized slot |
| ScanSlots.BuildScanSlots | prover/crates/real-chain-test/src/main.rs:1099-1132 | strictly ordered in the direction, and exactly the strides inside the window, its end and the requested slot, no gap above a step |
| ScanSlots.SampledExactly | prover/crates/real-chain-test/src/main.rs:1099-1132 | a slot is sampled exactly when it is the end, the requested slot or start + k * step within the window |
| ScanSlots.RecentWindowVisitsEveryEpoch | prover/crates/real-chain-test/src/main.rs:1038-1050 | the default-step scan of the last n epochs, with any requested slot, samples the first slot of each of the min(n, epoch + 1) epochs |
| ScanSlots.RecentWindowHoldsWholeEpochs | prover/crates/real-chain-test/src/main.rs:1038-1050 | the window holds every slot of those epochs exactly when the finalized slot is the last of its epoch and that epoch is below n - 1 |
| Scan.FetchAtOrBefore | prover/crates/real-chain-test/src/main.rs:1063-1097 | the highest available slot with nothing above it, or the exact reason the walk failed |
| Scan.WalkBackMonotone | prover/crates/real-chain-test/src/main.rs:1063-1097 | a later request never finds an earlier slot |
| Scan.ScanWindow | prover/crates/real-chain-test/src/main.rs:517-646 | sampling happens exactly when every guard holds, otherwise the error names the first failing guard; the samples are the window's strides, end and requested slot in direction; hits are the non-empty samples of the checked prefix, which ends at the last slot or at the very sample that reaches the hit limit; a failure is that of the first bad sample, met below the limit |
| Scan.OutcomeIsDetermined | prover/crates/real-chain-test/src/main.rs:558-608 | only one number of samples meets the stopping rule, and a failing sample rules out an answer, so the samples decide the outcome |
| Scan.HitReports | prover/crates/real-chain-test/src/main.rs:586-591 | a hit names its request, the state found at or below it with nothing above, and that state's epoch and number of entries |
| Scan.HitsInScanOrder | prover/crates/real-chain-test/src/main.rs:558-608 | hit slots never step back against the scan direction |
| Scan.SameStateFound | prover/crates/real-chain-test/src/main.rs:1063-1097 | two successful walks find one state exactly when nothing lies between their requests |
| Scan.HitsAreDistinctStates | prover/crates/real-chain-test/src/main.rs:558-608 | the hits are strictly ordered, and as many as the states they name, exactly when above every sample that hit, up to and including each higher sample, some slot is not empty |
| Scan.OneStateReachesLimitOfTwo | prover/crates/real-chain-test/src/main.rs:596-606 | a single non-empty state followed by an empty slot reaches a hit limit of two, whatever the next slot holds |
| Scan.ScanResolvesFirstHit | prover/crates/real-chain-test/src/main.rs:610-646 | the resolved slot is the lowest hit going forward and the highest in reverse, and all samples before it were empty |
| Watch.WatchFinalizedState | prover/crates/real-chain-test/src/main.rs:683-868 | bad arguments are rejected before any poll; each snapshot is the one its poll's answers call for; the run ends exactly at the first poll that should end it, with that poll's slot, list, snapshot and checkpoints |
| Watch.SnapshotReports | prover/crates/real-chain-test/src/main.rs:649-675 | a snapshot names the newest known checkpoints by epoch, first slot and root, reports a state found exactly when that poll fetched a non-empty list, and has the status and error the answers and the limit call for |
| Watch.SnapshotCounts | prover/crates/real-chain-test/src/main.rs:743-816 | in every snapshot of a run, state checks are the polls fetched and answered, skips those whose slot had not moved and polls those whose checkpoints were answered, counted over the answers; interval and limit are the arguments' |
| Watch.TerminalIffEnds | prover/crates/real-chain-test/src/main.rs:649-681 | a snapshot is terminal exactly when its poll ends the run, and non-terminal ones say polling |
| Watch.LogShape | prover/crates/real-chain-test/src/main.rs:704-867 | the log is polling snapshots and then at most one terminal one |
| Watch.PollsBalance | prover/crates/real-chain-test/src/main.rs:744-816 | polls = state checks + skips, plus one on a fetch error |
| Watch.ConsecutiveFetchesDiffer | prover/crates/real-chain-test/src/main.rs:746-781 | no two consecutive fetches ask for the same slot |
| Watch.LimitStops | prover/crates/real-chain-test/src/main.rs:775-777 | with a limit the run ends within that many polls |
| Detector.ProcessedExactly | prover/crates/service/src/scanner.rs:72-114 | over every run, a poll's list is processed exactly when its three requests are answered and its epoch is above 0 and above that of every earlier fully answered poll |
| Detector.PollErrorExact | prover/crates/service/src/scanner.rs:72-98 | a poll reports the first request that failed, the list's only when its epoch was new |
| Detector.EpochZeroIsMissed | prover/crates/service/src/scanner.rs:86-90 | a source listed while epoch 0 is finalized is not recorded, with every request answered and nothing processed before |
| Detector.SightingsIncrease | prover/crates/service/src/scanner.rs:86-90 | over every run of answers the processed epochs strictly increase |
| Detector.NextEntry | prover/crates/service/src/scanner.rs:118-147 | one more list entry keeps the records exactly the first sightings |
| Detector.Scanner.ProcessConsolidations | prover/crates/service/src/scanner.rs:118-147 | after a list the records are the first sightings of all lists including it |
| Detector.Scanner.PollOnce | prover/crates/service/src/scanner.rs:72-114 | a list is processed only for a newer epoch with every request answered; otherwise epoch and records stay; which error is returned |
| Detector.Scanner.Run | prover/crates/service/src/scanner.rs:56-69 | after any run the records are exactly the sources of the processed lists, each as first seen, and the last poll decides the error |
| Detector.EpochSeenIsProcessed | prover/crates/service/src/scanner.rs:136-143 | a record's first-seen epoch is never after the last processed epoch |
| Detector.RecordsNeverChange | prover/crates/service/src/scanner.rs:124-127 | whatever is polled later, a record keeps its first target and epoch |
| Detector.AppState.UpsertConsolidation | prover/crates/service/src/state.rs:135-139 | changes one record and nothing else |
| Detector.AppState.StatusCounts | prover/crates/service/src/state.rs:162-174 | each count is the number of records with that status, and they sum to the number of records |

## Left out

- SHA-256 and the precompile call: any pair function `H` stands for them.
- ssz_rs (`hash_tree_root`, `prove`, branch validation): small containers are complete trees over their field chunks, and `prove` is the branch of such a tree; the 48-byte public key's root is sealed.
- The in-memory `ProofGenerator` over `MinimalBeaconState`: it calls ssz_rs throughout; its header wrapping is the same append that `StateProver` models.
- Default field roots of the test-vector generator: the 35 other state fields are arbitrary sealed roots.
- Proxy, initializer, ownership transfer and upgrades: owner, limits and amounts are constants.
- Events: a payment on record carries the recipient and the amount its event would, at the moment the value moves rather than after the receiver returns.
- The oracle call: a map from timestamp to root; a failed or malformed answer is an absent entry.
- Gas and call-depth limits: a recipient that runs out of gas is one that rejects. Nested calls see the same time and oracle as the transaction they are part of.
- Upper bounds on wei amounts: balances are unbounded naturals; only the checked addition of the claim delay can overflow.
- Bytes.ReverseBytes64: intermediate OR results are naturals; the bytes that leave a 64-bit word on a left shift are dropped explicitly.
- Gindex.PathGindex: returns nothing where the prover's 64-bit addition of a slot to its base overflows near 2^64; a build without overflow checks wraps there instead.
- StateProver: an index past its tree makes the prover panic; the model returns `NoSuchSlot`.
- ListProofs.ProveContainerField: an index past the tree, or a field count above 2^63, panics in the prover and is a precondition here.
- Watch.WatchFinalizedState: a run is driven by a finite list of answers, epochs are below 2^60 so that slots fit a u64, and sleeping, hex, the wording of error messages, file output and its failures are not modelled.
- Detector: `finalized_epoch * slots_per_epoch` wraps; the atomics' memory order, uptime and health are not modelled.
- Slots per epoch is 16, the Gnosis preset, in the scan and watch modules.
- HTTP, RPC submission, CLI parsing, JSON and hex, metrics, Dune queries and the vendored test library: plumbing.
