# Cross-chain evidence and identity: a verified model

This Dafny project models four parts of the Unified repository and proves what
they promise: the multi-chain projector, the EVM inclusion verifier, the
canonical identities of messages and payoff quotes, and the checkpoint
validator with its generator. `dafny verify dfyconfig.toml` checks the whole
project.

**The projector** (`Projector`, `ProjectorInvariant`, `ProjectorRuns`,
`ProjectorSafety`, `Restore`, `RoundTrip`, `RestoreExact`, `RestoreSound`,
`CleanRuns`, `Scenario`, `RemovalScenario`, `ServiceScenario`, `Restart`,
`Interleavings`, `Boundary`, `EvidenceBinding`, `ProjectorService`). The projector is a state machine over messages, event
keys and routes. Everything it decides before taking its lock depends only on
the arguments and the chain configuration; the theorems hold for any such
checks that are sane, and `Boundary` defines the service's own checks and shows
that they are. `ProjectorService` is the service as an object whose maps are
updated in place, each method proved to be one step of the machine. The
evidence verifier and the deterministic protobuf serialization are function
parameters; `proto.Equal` is equality of values.

The snapshot round trip does not hold for every run. `RestoreIsExact` gives the
exact condition on the state, `LateAcknowledgementSpoils` and `RemovalSpoils`
the two families of operations that break it, `SomeRunsCannotRestart` and
`SomeRemovalsCannotRestart` a run of each that the service accepts and cannot
restart from, and `CleanRunsRestore` the round trip for every run without them.

**The EVM inclusion verifier** (`Rlp`, `PythonRlp`, `Trie`, `ReferenceTrie`,
`PythonTrie`, `PythonReceipts`, `EvmProof`, `FinalityEvidence`,
`InclusionBinding`, `BlockBuilder`). RLP follows Appendix B of the Ethereum Yellow Paper, compact
paths Appendix C, the trie Appendix D, headers and receipts section 4.3, typed
receipts the Receipts section of EIP-2718. Ed25519 verification and the
settlement-log decoder are function parameters.

**Identities** (`Abi`, `Envelope`, `MessageEncoders`, `PayloadEncoders`,
`PythonProofs`, `HexText`, `PayoffComponents`, `PayoffReference`,
`PayoffQuote`). Three programs encode message identities, two encode source
proofs and two encode payoff quotes; each encoder is written out from its own
source and they are proved to agree. The encodings follow the Solidity Contract
ABI Specification, "Formal Specification of the Encoding".

**Checkpoints** (`AbiItems`, `Checkpoints`, `CheckpointSources`,
`DependencyClosure`, `Checkouts`, `CheckpointGenerator`, `CandidatePackage`,
`CheckpointWitnesses`). The validator and the generator are two folds over the
registry, and a checkout is a set of files with hashes and resolved imports.
Payload hashes and the checks against reviews, backlogs and Git objects are
function parameters.

An accepted registry does not always have a checkout that passes the final
comparison. `CurrentIsExact` gives the exact condition. `SharedFilesCanShadow`
shows the first way to miss it: contracts may share a file, where the last
revision of either wins the effective source while the comparison asks for the
latest of both. `LaterDependencyGoesStale` shows the second: a revision names
the hash of its import closure, and a dependency revised later changes it.
`CheckoutPasses` says when the generator avoids both.

Keccak-256 is a function parameter everywhere. No theorem assumes that it is
injective: a statement that needs it names the two byte strings that would
collide.

Byte strings are `seq<Byte>`, Go's unsigned integers are bounded subset types
with explicit wrap-around where the code relies on it, errors are `Result` or
`Option` values, and a loop of the source is a method with a loop, proved
against the function that specifies it.

## Model

| member | source | states |
|---|---|---|
| Projector.EventKeyInjective | services/chain-indexer/crosschain/projector.go:216-221 | the textual event key determines chain, transaction and log, whatever characters the chain identifier holds |
| ProjectorInvariant.RecordSourceKeeps | services/chain-indexer/crosschain/projector.go:214-265 | recording a source event keeps every invariant and only ever adds: nothing stored is removed or rewritten |
| ProjectorInvariant.CommitKeeps | services/chain-indexer/crosschain/projector.go:366-390 | the locked half of an execution keeps every invariant and is write-once, whatever the state it commits into |
| ProjectorInvariant.AcknowledgementKeeps | services/chain-indexer/crosschain/projector.go:497-532 | an acknowledgement keeps every invariant and is write-once |
| ProjectorInvariant.ReorganizationKeeps | services/chain-indexer/crosschain/projector.go:835-940 | a reorganization keeps every invariant and finalized facts |
| ProjectorInvariant.BindRouteKeeps | services/chain-indexer/crosschain/projector.go:132-143 | binding a route keeps every invariant; a bound route never changes |
| ProjectorInvariant.RemoveKeeps | services/chain-indexer/crosschain/projector.go:944-959 | removal keeps every invariant; it either changes nothing or takes exactly one registration and the message it names, never a final one, and every other message, registration and route stays as it was |
| ProjectorRuns.RunKeeps | services/chain-indexer/crosschain/projector.go:145-1112 | over every run of every operation, restores included, the invariant holds and every final message stays present, final and only added to |
| ProjectorRuns.ReachableInv | services/chain-indexer/crosschain/projector.go:98-1112 | every state reachable from an empty projector satisfies the invariant |
| ProjectorRuns.WriteOnceWhilePresent | services/chain-indexer/crosschain/projector.go:227-248 | while a message is present, final or not, envelope, source proof, certificate, execution, execution proof, acknowledgement and dispute are write-once over any run |
| ProjectorSafety.FinalityIsPermanent | services/chain-indexer/crosschain/projector.go:952-957 | once a message is final no run removes it, un-finalizes it or changes its envelope, event, certificate, execution, acknowledgement or dispute |
| ProjectorSafety.FinalMeansCertified | services/chain-indexer/crosschain/projector.go:194-213 | a message is final exactly when it stores a certificate, and that certificate passed the checks with the stored event |
| ProjectorSafety.FinalSourceRefusesConflicts | services/chain-indexer/crosschain/projector.go:227-240 | a copy of a final message with another envelope, proof or certificate is refused and changes nothing |
| ProjectorSafety.ExecutedAtMostOnce | services/chain-indexer/crosschain/projector.go:366-390 | after one accepted execution of a final message, any later accepted execution in any run is the same result with the same proof |
| ProjectorSafety.EventsAreExclusive | services/chain-indexer/crosschain/projector.go:216-226 | no two messages of a reachable state have consumed the same chain, transaction and log as source or execution event |
| ProjectorSafety.KeyClashIsEventClash | services/chain-indexer/crosschain/projector.go:358-374 | the key table refuses exactly events of the same identity |
| ProjectorSafety.RemoveUndoesProvisionalSource | services/chain-indexer/crosschain/projector.go:944-959 | removal exactly undoes a fresh provisional source event under an unused key |
| ProjectorSafety.RemoveRefusesFinal | services/chain-indexer/crosschain/projector.go:952-955 | removal is refused for a final message whichever of its events is named |
| ProjectorSafety.SourceReplayIsIdempotent | services/chain-indexer/crosschain/projector.go:227-248 | repeating an accepted source event answers the same and changes nothing |
| ProjectorSafety.ReorganizationIsAtomic | services/chain-indexer/crosschain/projector.go:835-940 | on error nothing changes; on success exactly the listed messages are disputed by this evidence under one incident and nothing else moves |
| ProjectorSafety.ReorganizationSharesRoute | services/chain-indexer/crosschain/projector.go:849-923 | all messages of an accepted reorganization share one bound, non-empty route, which is the incident's |
| ProjectorSafety.ReorganizationReplay | services/chain-indexer/crosschain/projector.go:855-861 | an immediate replay is accepted, opens the same incident and changes nothing |
| ProjectorSafety.DisputedOnlyOnce | services/chain-indexer/crosschain/projector.go:855-858 | evidence naming a message that another reorganization already disputes is refused |
| ProjectorSafety.DisputedInOrphanedBlock | services/chain-indexer/crosschain/projector.go:862-905 | every disputed message has its source or execution event in the orphaned block of the reorganized chain |
| ProjectorSafety.AcknowledgementMatchesExecution | services/chain-indexer/crosschain/projector.go:514-525 | every stored acknowledgement is for the stored execution result and proof, which fit the envelope |
| RestoreExact.RestoreIsExact | services/chain-indexer/crosschain/projector.go:988-1112 | restoring the listing of a reachable state succeeds if and only if every reorganization still has all its messages as it named them and evidence hashes tell reorganizations apart; then every message and every live registration is back and nothing else |
| RestoreExact.OrderIsIrrelevant | services/chain-indexer/crosschain/projector.go:1079-1095 | the order in which reorganizations are replayed does not change the outcome |
| RestoreExact.RestoresWholeState | services/chain-indexer/crosschain/projector.go:1108-1110 | a restore gives back the very same state if and only if no registration is stale |
| RestoreExact.CollectExact | services/chain-indexer/crosschain/projector.go:1059-1078 | collecting the reorganizations of a snapshot succeeds exactly when their hashes are usable and distinct, and yields exactly them |
| RoundTrip.FactsView | services/chain-indexer/crosschain/projector.go:1025-1058 | the source, execution and acknowledgement stages rebuild exactly the undisputed part of the state |
| RestoreSound.RestoreIsSound | services/chain-indexer/crosschain/projector.go:988-1112 | for any list of projections: refused, nothing changes; accepted, exactly the listed projections and the registrations of their events are installed and every invariant holds |
| RestoreSound.RestoredRestores | services/chain-indexer/crosschain/projector.go:988-1112 | what a restore installs can itself be listed and restored, giving the same state |
| CleanRuns.CleanRunsRestore | services/chain-indexer/crosschain/projector.go:969-1112 | if removals hit only unexecuted messages and late acknowledgements carry the orphaned certificate, then after any run the snapshot restores to the very same state in any order of reorganizations |
| CleanRuns.LateAcknowledgementSpoils | services/chain-indexer/crosschain/projector.go:894-898 | an acknowledgement accepted after an execution-side dispute under another certificate always leaves a state that cannot be restored |
| CleanRuns.RemovalSpoils | services/chain-indexer/crosschain/projector.go:944-959 | removing a message that evidence names together with another disputed message always leaves a state that cannot be restored |
| CleanRuns.RemovalLeavesStaleEvent | services/chain-indexer/crosschain/projector.go:956-957 | removing an executed message by its source event leaves its execution key behind |
| Restart.ServiceRestarts | services/chain-indexer/crosschain/projector.go:969-1112 | the round trip for the service's own checks, short of a Keccak collision or zero digest among the stored evidence |
| Restart.SomeRunsCannotRestart | services/chain-indexer/crosschain/projector.go:894-898 | under every hash function and serialization, a two-chain service accepts a run that executes, disputes and late-acknowledges a message, and ends in a state satisfying every invariant from which no listing restores |
| Restart.SomeRemovalsCannotRestart | services/chain-indexer/crosschain/projector.go:944-959 | under every hash function that gives two messages different identifiers, a two-chain service accepts a run that executes two messages, disputes both with one piece of evidence and removes one, and no listing of the state it ends in restores |
| Restart.SomeRunsRestart | services/chain-indexer/crosschain/projector.go:969-1112 | the first of these runs without the late acknowledgement meets the conditions of the round trip, ends with the message disputed and restores to the same state, provided the evidence does not hash to zero |
| ServiceScenario.ServiceAccepts | services/chain-indexer/crosschain/projector.go:145-835 | with identifiers, header commitments, proof, certificate and evidence hashes derived as the service derives them, its checks accept every step of the run with the late acknowledgement, whatever Keccak-256 and the serialization are |
| ServiceScenario.EvidencePasses | services/chain-indexer/crosschain/projector.go:536-835 | reorganization evidence so derived is accepted for any executed messages listed in increasing order of their identifiers |
| ServiceScenario.IdentifiersDiffer | services/cross-chain-coordinator/message/digest.go:457-471 | the two messages of the removal run have different identifiers, or Keccak collides on their preimages or payloads |
| RemovalScenario.RemovalSpoilsRun | services/chain-indexer/crosschain/projector.go:944-959 | under any sane checks that accept its steps, removing one of two messages disputed together ends in a state that satisfies the invariant and cannot be replayed |
| Interleavings.CommitIsWholeExecution | services/chain-indexer/crosschain/projector.go:335-390 | an execution that commits, whatever happened since its unlocked read, has the effect and the answer of one atomic execution at its commit |
| Interleavings.FailedCommit | services/chain-indexer/crosschain/projector.go:364-382 | an execution that fails to commit changes nothing, and would have failed atomically too unless its message was replaced by one with another envelope |
| Interleavings.SameRouteBindingsIsEquality | services/chain-indexer/crosschain/projector.go:1114-1124 | comparing sizes and one-sided lookups is equality of route tables, because no route is bound to the empty name |
| Interleavings.CommitIsWholeRestore | services/chain-indexer/crosschain/projector.go:1102-1111 | a restore installs only into an empty projector whose routes are still those it read, and then is one atomic restore |
| Interleavings.InterleavingsLinearize | services/chain-indexer/crosschain/projector.go:335-390 | every interleaving of reads, commits and other operations reaches the state of a sequential run of the successful operations in commit order |
| Interleavings.FinalityUnderInterleaving | services/chain-indexer/crosschain/projector.go:335-390 | finality is permanent in every interleaving |
| Boundary.ChecksAreSane | services/chain-indexer/crosschain/projector.go:145-206 | the service's own checks guarantee what the theorems about all sane checks assume |
| Boundary.DepthIsTrueDepth | services/chain-indexer/crosschain/projector.go:491-495 | the 64-bit depth check is the depth condition over unbounded integers, for all inputs |
| Boundary.CheckAffectedIds | services/chain-indexer/crosschain/projector.go:575-582 | the loop accepts exactly strictly increasing lists of 32-byte identifiers |
| Boundary.AcceptedEvidenceIsAligned | services/chain-indexer/crosschain/projector.go:537-601 | accepted evidence lists distinct messages with aligned proofs of the orphaned block |
| EvidenceBinding.HeaderCommitmentBinds | services/chain-indexer/crosschain/projector.go:393-430 | a signed header commitment binds block, head, depth, authority and policy, or Keccak collides |
| EvidenceBinding.SourceProofHashBinds | services/chain-indexer/crosschain/projector.go:432-483 | the hash a certificate signs binds every field of the proof, signature included, or Keccak collides |
| EvidenceBinding.CertificateBindsEvent | services/chain-indexer/crosschain/projector.go:267-289 | a certificate is valid for one event only, or Keccak collides |
| EvidenceBinding.ReorganizationHeaderBinds | services/chain-indexer/crosschain/projector.go:720-767 | a reorganization header commitment binds its role, chain, block, head and policy, or Keccak collides; the chain for identifiers that are byte strings, as in Go |
| EvidenceBinding.EvidenceHashBinds | services/chain-indexer/crosschain/projector.go:535-614 | an evidence hash binds the whole evidence, or Keccak collides |
| EvidenceBinding.BlobRoundTrip | services/chain-indexer/crosschain/projector.go:616-666 | a durable evidence blob is read back as the evidence it was made from |
| EvidenceBinding.BlobIsCanonical | services/chain-indexer/crosschain/projector.go:644-666 | whatever blob is accepted under an address is the canonical blob of the evidence returned, or Keccak collides |
| EvidenceBinding.FinalityMeans | services/chain-indexer/crosschain/projector.go:145-206 | a final message's identifier is the hash of its envelope, its certificate signs its own proof, its block is confirmed at the configured depth and both chains carry the policies it names |
| EvidenceBinding.IdentifierFixesEnvelope | services/chain-indexer/crosschain/projector.go:366-369 | two messages ever stored under one identifier have one envelope, or Keccak collides |
| ProjectorService.IndexChains | services/chain-indexer/crosschain/projector.go:98-127 | chains are indexed exactly when there are two or more, all valid and distinct |
| ProjectorService.SortKeys | services/chain-indexer/crosschain/projector.go:971-978 | the keys in strictly increasing order, each once |
| ProjectorService.CollectReorganizations | services/chain-indexer/crosschain/projector.go:1059-1078 | the collection loop computes the collected reorganizations, keyed by usable hashes |
| ProjectorService.SortedEvidence | services/chain-indexer/crosschain/projector.go:1079-1088 | the replay order lists each collected reorganization exactly once, in strictly increasing order of evidence hashes |
| ProjectorService.Projector.NewProjector | services/chain-indexer/crosschain/projector.go:98-127 | a projector exists exactly for two or more valid distinct chains, empty and valid |
| ProjectorService.Projector.BindRoute | services/chain-indexer/crosschain/projector.go:132-143 | the new state and the answer of the route step, invariant kept |
| ProjectorService.Projector.ProjectSource | services/chain-indexer/crosschain/projector.go:145-265 | the new state and the answer of the source step, invariant kept |
| ProjectorService.Projector.ReadForExecution | services/chain-indexer/crosschain/projector.go:291-357 | the unlocked half establishes what the commit relies on |
| ProjectorService.Projector.CommitExecution | services/chain-indexer/crosschain/projector.go:364-390 | the new state and the answer of the commit step in whatever state it finds |
| ProjectorService.Projector.ProjectExecution | services/chain-indexer/crosschain/projector.go:291-391 | the new state and the answer of the whole execution step |
| ProjectorService.Projector.ProjectAcknowledgement | services/chain-indexer/crosschain/projector.go:497-533 | the new state and the answer of the acknowledgement step |
| ProjectorService.Projector.CheckAffected | services/chain-indexer/crosschain/projector.go:837-906 | the first loop accepts exactly when every affected message can be disputed under one route policy |
| ProjectorService.Projector.MarkDisputed | services/chain-indexer/crosschain/projector.go:924-938 | the second loop disputes exactly the affected messages, each at most once, and returns them in evidence order |
| ProjectorService.Projector.ProjectReorganization | services/chain-indexer/crosschain/projector.go:772-940 | the new state and the answer of the reorganization step, all or nothing |
| ProjectorService.Projector.RemovePreFinality | services/chain-indexer/crosschain/projector.go:944-959 | the new state and the answer of the removal step |
| ProjectorService.Projector.Snapshot | services/chain-indexer/crosschain/projector.go:969-984 | every message exactly once, in strictly increasing order of identifier |
| ProjectorService.Projector.ReplayStage | services/chain-indexer/crosschain/projector.go:1025-1058 | each replay loop computes the replay of its stage |
| ProjectorService.ListConfigs | services/chain-indexer/crosschain/projector.go:992-996 | the configurations of a validated table, each once |
| ProjectorService.Projector.Sibling | services/chain-indexer/crosschain/projector.go:1006-1012 | validating the listed chains again always succeeds and gives an empty projector over the same chains |
| ProjectorService.Projector.BindRoutes | services/chain-indexer/crosschain/projector.go:1013-1024 | replaying the bindings reproduces the route table |
| ProjectorService.Projector.RebuildSnapshot | services/chain-indexer/crosschain/projector.go:988-1101 | before the lock: a fresh projector holding the replayed snapshot exists exactly when this one is empty and the replay succeeds, reorganizations replayed in increasing order of hashes |
| ProjectorService.Projector.InstallRebuilt | services/chain-indexer/crosschain/projector.go:1102-1111 | under the lock, in any state: the rebuilt maps are installed exactly when this projector is empty and its routes compare equal to those that were read, and otherwise nothing changes |
| ProjectorService.CompareRoutes | services/chain-indexer/crosschain/projector.go:1114-1124 | the loop compares sizes and looks every binding up on the other side, a missing one reading as empty |
| ProjectorService.Projector.RestoreSnapshot | services/chain-indexer/crosschain/projector.go:988-1112 | the new state and the answer of the restore step, replaying each reorganization once in increasing order of hashes; the state is untouched on failure |
| Rlp.DecodeIsCanonical | services/chain-indexer/projection/evmproof.go:768-865 | the decoder returns a value exactly when the input begins with that value's one encoding and the value is within the depth and item limits |
| Rlp.DecodeSound | services/chain-indexer/projection/evmproof.go:772-865 | every successful decode re-encodes to exactly the consumed bytes |
| Rlp.DecodeComplete | services/chain-indexer/projection/evmproof.go:772-865 | every value within the limits decodes from its encoding, whatever follows it |
| Rlp.DecodeIgnoresTail | services/chain-indexer/projection/evmproof.go:772-865 | success and consumed length do not depend on trailing bytes |
| Rlp.DecodeRlpDepth | services/chain-indexer/projection/evmproof.go:772-821 | the recursive decoder computes the specified decoding and terminates |
| Rlp.DecodeRlpLength | services/chain-indexer/projection/evmproof.go:823-836 | the length loop accepts exactly minimal big-endian lengths that fit |
| Rlp.DecodeRlpList | services/chain-indexer/projection/evmproof.go:838-865 | the list loop reads exactly the items of the payload |
| Rlp.RlpBytes | services/chain-indexer/projectiontest/fixture.go:200-211 | the string encoder builds the canonical encoding |
| Rlp.RlpList | services/chain-indexer/projectiontest/fixture.go:213-225 | the list encoder builds the canonical encoding |
| Rlp.RlpUint | services/chain-indexer/projection/evmproof.go:740-755 | the integer encoder builds the encoding of the minimal big-endian payload |
| Rlp.Uint64RoundTrip | services/chain-indexer/projection/evmproof.go:757-766 | an integer payload is read back exactly when it is the minimal encoding of a 64-bit integer |
| PythonRlp.DecodersAgree | tools/check_phase8_release_evidence.py:539-603 | the Go decoder returns a value exactly when the Python decoder does and no list in it exceeds the item limit |
| PythonRlp.OversizedListsDiffer | tools/check_phase8_release_evidence.py:539-603 | on the encoding of any well-nested value Python succeeds, and Go succeeds exactly within the item limit |
| PythonRlp.DecodeRlp | tools/check_phase8_release_evidence.py:539-593 | the cursor decoder computes the suffix decoding at every offset |
| Trie.CompactPathBijection | services/chain-indexer/projection/evmproof.go:716-730 | hex-prefix decoding is a bijection between flagged paths and accepted byte strings |
| Trie.CheckProofSize | services/chain-indexer/projection/evmproof.go:637-652 | the size loop accepts exactly proofs within the node, node-size and total limits |
| Trie.VerifyTrieInclusion | services/chain-indexer/projection/evmproof.go:580-635 | the walk loop computes the specified walk over the whole proof |
| Trie.AcceptedPrefixIsWhole | services/chain-indexer/projection/evmproof.go:580-635 | of two accepted proofs for one root and key neither properly extends the other |
| ReferenceTrie.InclusionSound | services/chain-indexer/projection/evmproof.go:580-635 | a proof accepted under a trie's root is the node-by-node path of that trie and the value is what is stored, for tries with embedded nodes and short of a collision with a trie node |
| ReferenceTrie.InclusionExact | services/chain-indexer/projection/evmproof.go:580-635 | the node-by-node path is accepted for exactly the stored value |
| ReferenceTrie.EmptyValueIsAccepted | services/chain-indexer/projection/evmproof.go:596-601 | a branch without a value is accepted for the empty value although nothing is stored |
| ReferenceTrie.SingleLeafAccepted | tools/build_phase8_anvil_inclusion.py:106-117 | every single-leaf proof of the builders is accepted |
| ReferenceTrie.TrieLeaf | services/chain-indexer/projectiontest/fixture.go:165-185 | the leaf builder builds the canonical leaf node, for every key and value whose node has a length that fits an int |
| PythonTrie.VerifiersAgree | tools/check_phase8_release_evidence.py:727-789 | the Go verifier accepts exactly when the Python verifier does and no node holds a list over the item limit |
| PythonReceipts.ParseEvmHeader | tools/check_phase8_release_evidence.py:623-650 | the Python parser accepts exactly the headers the Go parser accepts, with the same fields: its missing item limit never matters, because a header has at most 65536 bytes |
| PythonReceipts.VerifyAuthenticatedHeader | tools/check_phase8_release_evidence.py:653-698 | Python accepts exactly the signed headers Go accepts whose timestamp is below 2^63; from there on Go's cast to a signed integer makes its time check void |
| PythonReceipts.DecodeEvmReceipt | tools/check_phase8_release_evidence.py:792-837 | Python reads exactly the receipts Go reads within the size bound, with the same status, addresses, topics and data: a receipt that passes has no list near the item limit |
| PythonReceipts.InclusionHashOf | tools/check_phase8_release_evidence.py:840-862 | appending piece by piece, Python hashes the bytes that Go hashes for an inclusion proof |
| EvmProof.ObservationTimeCheck | services/chain-indexer/projection/evmproof.go:200-202 | the observation check means what it says exactly for timestamps below 2^63; beyond, it never rejects |
| BlockBuilder.LateStampIsAccepted | services/chain-indexer/projection/evmproof.go:200-206 | every built header stamped 2^63 or later is accepted however early it was observed, given a valid signature |
| EvmProof.CheckBlockSize | services/chain-indexer/projection/evmproof.go:654-690 | checking every partial sum accepts exactly blocks whose totals are within the limits |
| EvmProof.SortIsIdentity | services/chain-indexer/projection/evmproof.go:207-221 | on a canonical receipt list any sort by index is the identity |
| EvmProof.LogIndexIsSmall | services/chain-indexer/projection/evmproof.go:273-304 | block-global log indexes stay below 2^24, so the 32-bit conversion loses nothing |
| EvmProof.VerifyAuthenticatedBlock | services/chain-indexer/projection/evmproof.go:183-311 | a block is verified exactly when it is within limits, signed, prefix-complete, proven receipt by receipt and decodable; the records state the proven facts and the hash of the header signature, and the events are the settlements of the block |
| EvmProof.SettlementsExact | services/chain-indexer/projection/evmproof.go:274-307 | the settlement events are exactly the gateway's settlement logs in successful receipts, each under its block-global log index and with the record of its receipt |
| BlockBuilder.BuiltHeaderParses | services/chain-indexer/projectiontest/fixture.go:96-126 | a built header is read back: number, parent, both roots and timestamp |
| BlockBuilder.BuiltReceiptDecodes | services/chain-indexer/projectiontest/fixture.go:140-163 | a built receipt is read back: success bit and every log in order |
| BlockBuilder.BuiltBlockIsAccepted | services/chain-indexer/projectiontest/fixture.go:62-138 | whatever block the builder builds within the limits and signs with the trusted key is accepted with the header and logs put in |
| FinalityEvidence.HeadNumber | services/chain-indexer/projection/evmproof.go:385-409 | along an accepted confirmation path numbers grow by one over the integers; the 64-bit successor never wraps |
| FinalityEvidence.PathIsUnbroken | services/chain-indexer/projection/evmproof.go:385-409 | every header of an accepted path is authenticated, names its predecessor and was observed no earlier |
| FinalityEvidence.CheckConfirmations | services/chain-indexer/projection/evmproof.go:382-409 | the confirmation loop returns the head of exactly the unbroken paths |
| FinalityEvidence.FindLog | services/chain-indexer/projection/evmproof.go:347-381 | the log loop finds exactly the log at the expected block-global index in the target receipt; a second match cannot occur |
| FinalityEvidence.VerifyReceiptEvidence | services/chain-indexer/projection/evmproof.go:315-423 | a nil error comes exactly with acceptable evidence and always with evidence, whose log is the element at its index of all logs and whose finality head is exactly the required depth above |
| InclusionBinding.InclusionHashBinds | services/chain-indexer/projection/evmproof.go:554-578 | two accepted receipts with one inclusion hash have the same header, index, transaction, receipt and proof nodes, or Keccak collides |
| Abi.DomainAndWordsInjective | packages/phase9/typescript/payoffReference.ts:110-116 | domain-and-words encoding determines the domain and every word |
| Abi.FillWord | packages/crosschain/typescript/codec.ts:29-40 | the byte loop writes the big-endian word |
| Abi.ConcatInto | packages/crosschain/typescript/codec.ts:18-27 | the buffer loop writes the concatenation of its parts |
| Abi.EncodeDynamicArray | packages/phase9/typescript/payoffReference.ts:196-207 | the running offset yields the dynamic array encoding |
| Abi.OffsetIsExact | packages/phase9/typescript/payoffReference.ts:196-207 | every element lies exactly at its offset, for elements of any length |
| Abi.DynamicArrayInjective | packages/phase9/typescript/payoffReference.ts:196-207 | a dynamic array of dynamic elements is read back in only one way |
| Envelope.EncodeStaticLoop | services/cross-chain-coordinator/message/digest.go:495-504 | the static encoder succeeds exactly when every word does and concatenates them |
| Envelope.PayloadDeterminesAction | services/cross-chain-coordinator/message/digest.go:188-422 | equal payloads of one action type have equal typed actions, decimal amounts included |
| Envelope.MessageIdDeterminesEnvelope | services/cross-chain-coordinator/message/digest.go:77-89 | two valid envelopes with one message ID are equal in every field, or Keccak collides |
| Envelope.SealIsCanonical | services/cross-chain-coordinator/message/digest.go:92-104 | sealing yields a valid envelope with every other field unchanged and is idempotent |
| Envelope.BindThenSeal | services/cross-chain-coordinator/message/digest.go:457-471 | binding the typed action and sealing succeeds exactly for valid fields, and then yields a valid envelope that differs from the bound one only in its identifier |
| MessageEncoders.ComputeId | services/cross-chain-coordinator/message/digest.go:26-73 | an identifier is computed exactly for well-formed envelopes and is the hash of the canonical preimage |
| MessageEncoders.ComputePreimage | services/cross-chain-coordinator/message/digest.go:41-72 | the appended head and padded tag are the canonical preimage |
| MessageEncoders.PaddingsAgree | tools/check_phase8_release_evidence.py:1096-1106 | all padding formulas of the encoders agree |
| MessageEncoders.CodecAgrees | packages/crosschain/typescript/codec.ts:162-195 | whatever the coordinator accepts the TypeScript codec accepts, with the same preimage bytes |
| MessageEncoders.EvidenceAgrees | tools/check_phase8_release_evidence.py:1343-1403 | of the envelopes the coordinator accepts, the Python checker accepts exactly those without zero hashes, placeholder addresses, actions beyond a byte or a creation at the epoch, and hashes the same bytes |
| MessageEncoders.EncodersAgree | packages/crosschain/typescript/codec.ts:162-195 | for every valid envelope the codec derives the coordinator's message ID, and so does the checker exactly where it accepts |
| PythonProofs.CommitmentsAgree | tools/check_phase8_release_evidence.py:1642-1653 | Python derives the Go header commitment of a proof, and refuses exactly the headers with a zero hash |
| PythonProofs.ProofHashesAgree | tools/check_phase8_release_evidence.py:1485-1519 | Python derives the Go hash of a source proof, and refuses exactly the proofs with a zero hash |
| PayloadEncoders.PayloadEncodersAgree | packages/crosschain/typescript/codec.ts:71-160 | lock and cancellation payloads of the codec are byte for byte those of the coordinator |
| PayoffComponents.VectorOffsetsAreExact | packages/phase9/typescript/payoffReference.ts:180-219 | the array, every component and the code inside every component start exactly where their offsets say, for codes of any length |
| PayoffComponents.VectorsEncodeDifferently | packages/phase9/typescript/payoffReference.ts:180-219 | different component vectors never share an encoding |
| PayoffComponents.ComponentsDetermineDebt | packages/phase9/typescript/payoffReference.ts:137-178 | the canonical component encoding determines every amount and both beneficiaries |
| PayoffComponents.BuildComponentBeneficiaries | packages/phase9/typescript/payoffReference.ts:190-219 | the encoder builds exactly the specified vector, for exactly five valid components |
| PayoffComponents.BuildSignatureArray | tools/check_phase8_release_evidence.py:1522-1539 | the signature loop builds the dynamic array of padded signatures |
| PayoffComponents.CertificatesEncodeDifferently | tools/check_phase8_release_evidence.py:1522-1552 | a certificate tuple determines every field and every signature, however many |
| PayoffReference.ReferenceIsCanonical | packages/phase9/typescript/payoffReference.ts:246-268 | the reference encoder, with its own word and tail helpers, builds the ABI encoding of its domain and nineteen words |
| PayoffQuote.QuoteEncodersAgree | packages/phase9/typescript/payoffQuoteCodec.ts:206-233 | two separately written encoders: the reference encodes a quote if and only if the codec does and version, both times and nonce are below 2^64, and then their bytes are equal |
| PayoffQuote.ResolvedQuoteIsSound | packages/phase9/typescript/payoffQuoteCodec.ts:132-204 | a resolved quote satisfies net + credits = principal + interest + fees + penalties without overflow, and both encoders encode it to the same bytes if and only if its chain identifier is in range |
| PayoffQuote.QuoteDigestBinds | packages/phase9/typescript/payoffQuoteCodec.ts:260-281 | a validated quote digest determines the quote identity, or Keccak collides |
| AbiItems.BuildAdditivePayload | tools/check_phase9_implementation_checkpoints.py:363-380 | the payload loop succeeds exactly on distinct identities and additive kinds and sorts the union |
| AbiItems.SortIsCanonical | tools/check_phase9_implementation_checkpoints.py:353-380 | the sorted payload depends only on which items there are |
| AbiItems.AdditiveIsCanonical | tools/check_phase9_implementation_checkpoints.py:363-380 | additions to equal collections of items give the very same payload |
| Checkpoints.RunValidator | tools/check_phase9_implementation_checkpoints.py:1229-1460 | the validator's loops compute the fold of accepted packages, which must stand in table order and arrive at the source set that the registry names |
| Checkpoints.ContractsFormChains | tools/check_phase9_implementation_checkpoints.py:1324-1341 | an accepted registry gives each contract revisions 1..n in one supersession chain with growing activations, and the fold ends at its last |
| CheckpointSources.SourcesAreOverlaid | tools/check_phase9_implementation_checkpoints.py:1391-1446 | the effective sources are the baseline overlaid with every revision in order |
| CheckpointSources.SourceAt | tools/check_phase9_implementation_checkpoints.py:1391-1449 | for any path: the effective source is that of the last revision of any contract living there, which is the latest revision of its contract; a path whose contracts were never revised is as the baseline has it |
| CheckpointSources.EffectiveSources | tools/check_phase9_implementation_checkpoints.py:1391-1446 | where contracts do not share files, a contract's effective source is that of its latest revision, or the baseline's if it has none |
| CheckpointSources.UntouchedSources | tools/check_phase9_implementation_checkpoints.py:1391-1446 | files that belong to no contract are as the baseline has them |
| Checkouts.DependencyHashes | tools/check_phase9_implementation_checkpoints.py:856-861 | the hashes of exactly the files that a file reaches by imports, or a failure if one is missing |
| Checkouts.ClosureStays | tools/check_phase9_implementation_checkpoints.py:856-861 | where equal bytes resolve imports alike, an import closure is what it was if and only if none of its files changed or went missing |
| Checkouts.CheckCurrent | tools/check_phase9_implementation_checkpoints.py:1465-1505 | the final comparison: paths under the roots, implemented hashes with the baseline as fallback, aggregate, file and import closure of each latest revision, and the frozen snapshots |
| Checkouts.CurrentIsExact | tools/check_phase9_implementation_checkpoints.py:1465-1505 | a checkout passes if and only if its paths and snapshots are in place, its files are the effective sources, no latest revision was overwritten by one of another contract in the same file, and the import closure of every revised contract is the one its latest revision was taken with or collides with it; the order of the revised contracts does not matter |
| Checkouts.HelperChangeIsRefused | tools/check_phase9_implementation_checkpoints.py:1492-1496 | no checkout passes in which a file that a revised contract imported, listed as a source or not, has changed or gone, unless the closure hash collides |
| Checkouts.UniquePathsUnshadowed | tools/check_phase9_implementation_checkpoints.py:1474-1491 | where contracts do not share files, no latest revision of an accepted registry is overwritten |
| CheckpointWitnesses.SharedFilesCanShadow | tools/check_phase9_implementation_checkpoints.py:1474-1483 | two contracts sharing a file and revised A, B, A: the validator accepts the registry, the file holds A's revision and not B's latest, and no checkout passes |
| CheckpointWitnesses.LaterDependencyGoesStale | tools/check_phase9_implementation_checkpoints.py:1488-1496 | A imports B and they are revised in turn: the generator prepares B's package, the validator accepts the registry and the checkout has its effective sources, yet no checkout in which A still imports B passes, unless the closure hash collides |
| CheckpointWitnesses.OutOfOrderIsRefused | tools/check_phase9_implementation_checkpoints.py:1451-1456 | two packages that each pass by themselves are refused in the wrong order |
| CheckpointGenerator.GenerateAbi | tools/update_phase9_implementation_checkpoint.py:86-96 | the generator's loop computes the fold of additions over every package |
| CheckpointGenerator.FindOrigin | tools/update_phase9_implementation_checkpoint.py:97-108 | the search loop finds the package that holds the prior revision |
| CheckpointGenerator.CandidatesSatisfyValidator | tools/update_phase9_implementation_checkpoint.py:82-125 | for every accepted registry the generated revision number, supersession and ABI are exactly those the validator expects, and the ABI is always generated when the frozen one is well formed |
| CandidatePackage.BuildCandidates | tools/update_phase9_implementation_checkpoint.py:80-125 | the generator's loop builds one revision for each contract in the order of the definition, hashing its file, its import closure and all sources, or fails on a missing file |
| CandidatePackage.CandidateIsAccepted | tools/update_phase9_implementation_checkpoint.py:57-184 | the registry with the generated package passes the validator if and only if the definition is new, lists its contracts in baseline order and extends the active mutators, the package stands in table order, the sources that changed are exactly those of its contracts, and the reviews hold; it then arrives at the sources of the checkout; short of a collision of source-set hashes |
| CandidatePackage.PreparedTakenFrom | tools/update_phase9_implementation_checkpoint.py:82-125 | a registry extended by the generator still knows the checkout from which every latest revision was taken |
| CandidatePackage.CheckoutPasses | tools/update_phase9_implementation_checkpoint.py:210-212 | the generator's final validation of registry and checkout: after a checkout that passed, it succeeds if and only if the package is accepted, paths and snapshots are in place, and every earlier revised contract whose import closure is not what it was is listed too; short of collisions |
| CandidatePackage.StaleMeansChanged | tools/update_phase9_implementation_checkpoint.py:210-212 | where equal bytes resolve imports alike, that last condition says that every earlier revised contract with a changed file in its import closure is listed too |
| DependencyClosure.DependencyPaths | tools/check_phase9_implementation_checkpoints.py:836-853 | the worklist terminates on every import graph, fails exactly when a reachable file is missing, and otherwise finds exactly the reachable files |

## Left out

- Keccak-256, SHA-256, Ed25519 and secp256k1 internals, and the protobuf wire format: function parameters.
- Implementations of the evidence verifier: a deterministic function parameter, so a verifier whose answer changes between calls is outside the model.
- Deep copies of projections (`cloneProjection`, `cloneByteSlices`) and `Get`: values cannot be aliased, so the copies have no counterpart.
- Nil list elements in reorganization evidence and nil envelopes or source proofs in snapshot entries: every list element and every entry has them.
- Errors of deterministic marshalling: `marshal` is total.
- Instants outside Go's `time.Time` range in certificate validity: instants are unbounded integers.
- The settlement-log decoder: a function parameter; a settlement event is the log it is given, with its index and receipt record.
- PythonReceipts.VerifyAuthenticatedHeader: compares with Go for chain identifiers from 1 to 2^64 - 1 and observation times below 2^63 nanoseconds, the range of Go's clock; the two Ed25519 libraries are one function.
- MessageEncoders.CodecAgrees: the codec's `BigInt` is any function that reads canonical decimals as their value; what it does with other text is open.
- EvidenceBinding.ReorganizationHeaderBinds: fixes the chain identifier where both are byte strings, because the model's characters can be wider than Go's bytes.
- The rest of the Python checker's inclusion and certificate checks: they combine the members of PythonReceipts, PythonTrie and PythonProofs as the Go service does.
- PayoffComponents.VectorsEncodeDifferently: for encodings shorter than 2^256 bytes, the range of an ABI offset, and for codes already encoded as bytes; TextEncoder maps every lone surrogate to U+FFFD, so the text itself is determined only if it is well-formed UTF-16.
- Codec digests other than message identities and payloads (synthetic finality, recovery authorization, cancellation authorization), payoff policy and settlement route encodings: the same domain-and-words encoding that Abi.DomainAndWordsInjective covers.
- Checkpoints: the schema and baseline identity of the registry, hash formats, review texts, backlogs, Git reads and the evidence-bundle and storage hashes of a revision, which are checks of `reviewedRevision` and `reviewedPackage`; the ABI snapshots are part of the baseline.
- Checkouts.CheckCurrent: does not model the control bundle, a hash of tool files that the registry also names and the comparison also checks; the ABI and storage snapshots of the final comparison are the parameter `snapshotsFrozen`.
- CandidatePackage.BuildCandidates: does not model the failures of the evidence-bundle and storage hashes, which only prevent a package from being prepared.
- Solidity import parsing and path resolution: DependencyClosure starts from the resolved import graph and leaves out the final sort of the paths.
- The finality-policy hash, RPC, Docker, PostgreSQL, HTTP and file-writing code, release and boundary checkers, golden vectors, the money model, server skeletons and the local reversal coordinator: plumbing or easy members.
