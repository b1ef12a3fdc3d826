/** What the projector decides before it takes its lock: chain configuration,
    header commitments, certificates, depth, and the caller's evidence verifier. */
module Boundary {
  import opened ByteStrings
  import opened ByteOrder
  import opened Rlp
  import opened Abi
  import opened Envelope
  import opened Projector
  import opened ProjectorInvariant

  datatype ChainConfig = ChainConfig(
    chainId: string, coordinator: Bytes, configurationHash: Bytes, finalityPolicyHash: Bytes,
    observerAuthority: Bytes, requiredDepth: Uint64)

  predicate ValidConfig(config: ChainConfig) {
    && config.chainId != "" && |config.coordinator| == 20
    && config.configurationHash != ZERO32 && config.finalityPolicyHash != ZERO32
    && config.observerAuthority != ZERO32 && config.requiredDepth != 0
  }

  /** The authenticated verifier, deterministic, with None for an error. */
  datatype Verifier = Verifier(
    source: (Envelope, SourceProof, Option<Certificate>) -> Option<Verification>,
    execution: (Execution, SourceProof) -> Option<Verification>,
    acknowledgement: Acknowledgement -> Option<Verification>,
    reorganization: Reorganization -> Option<Verification>)

  /** Keccak-256, the deterministic serialization of evidence, the verifier and the chains. */
  datatype Context = Context(
    keccak: Hash, marshal: Reorganization -> Bytes, verifier: Verifier, chains: map<string, ChainConfig>)

  // Confirmation depth.

  /** Unsigned 64-bit addition. */
  function AddUint64(a: Uint64, b: Uint64): Uint64 {
    if a + b < UINT64_LIMIT then a + b else a + b - UINT64_LIMIT
  }

  predicate HasRequiredDepth(sourceBlock: Uint64, finalityHead: Uint64, requiredDepth: Uint64) {
    && requiredDepth != 0
    && sourceBlock <= UINT64_LIMIT - 1 - requiredDepth
    && finalityHead >= AddUint64(sourceBlock, requiredDepth)
  }

  /** The guard makes the wrapping sum the true sum, for all inputs. */
  lemma DepthIsTrueDepth(sourceBlock: Uint64, finalityHead: Uint64, requiredDepth: Uint64)
    ensures HasRequiredDepth(sourceBlock, finalityHead, requiredDepth)
            <==> 0 < requiredDepth && sourceBlock + requiredDepth <= finalityHead
  {
  }

  // Commitments.

  predicate WholeSeconds(t: Option<Timestamp>) {
    t.Some? && t.value.seconds >= 0 && t.value.nanos == 0
  }

  const OBSERVER_DOMAIN := "UNIFIED_OBSERVER_SIGNED_HEADER_V1"

  predicate CommitmentShape(p: SourceProof) {
    && |p.sourceBlockHash| == 32 && |p.finalityHeadHash| == 32
    && |p.headerAuthorityHash| == 32 && |p.finalityPolicyHash| == 32
    && WholeSeconds(p.sourceBlockTimestamp)
  }

  function HeaderWords(p: SourceProof): (words: seq<Bytes>)
    requires CommitmentShape(p)
    ensures |words| == 8 && AreWords(words)
  {
    [p.sourceBlockHash,
     UintWord(p.sourceBlockNumber),
     UintWord(p.sourceBlockTimestamp.value.seconds),
     p.finalityHeadHash,
     UintWord(p.finalityHeadNumber),
     UintWord(p.requiredDepth),
     p.headerAuthorityHash,
     p.finalityPolicyHash]
  }

  function ObserverHeaderCommitment(keccak: Hash, p: SourceProof): Option<Bytes> {
    if CommitmentShape(p)
    then Some(keccak(DomainAndWords(Ascii(OBSERVER_DOMAIN), HeaderWords(p))))
    else None
  }

  predicate ProofHashShape(p: SourceProof) {
    && CommitmentShape(p)
    && |p.transactionHash| == 32 && |p.receiptRoot| == 32 && |p.receiptProofHash| == 32 && |p.eventHash| == 32
    && |p.observerSignedHeaderCommitment| == 32 && |p.observerSignature| != 0
    && p.transactionIndex < UINT32_LIMIT && p.logIndex < UINT32_LIMIT
  }

  function ProofWords(p: SourceProof): (words: seq<Bytes>)
    requires ProofHashShape(p)
    ensures |words| == 16 && AreWords(words)
  {
    [p.sourceBlockHash,
     UintWord(p.sourceBlockNumber),
     UintWord(p.sourceBlockTimestamp.value.seconds),
     p.transactionHash,
     UintWord(p.transactionIndex),
     p.receiptRoot,
     p.receiptProofHash,
     UintWord(p.logIndex),
     p.eventHash,
     p.finalityHeadHash,
     UintWord(p.finalityHeadNumber),
     UintWord(p.requiredDepth),
     p.headerAuthorityHash,
     p.observerSignedHeaderCommitment,
     UintWord(16 * 32),
     p.finalityPolicyHash]
  }

  function ProofPreimage(p: SourceProof): Bytes
    requires ProofHashShape(p)
  {
    UintWord(32) + Concat(ProofWords(p)) + StringTail(p.observerSignature)
  }

  function SourceProofHash(keccak: Hash, p: SourceProof): Option<Bytes> {
    if ProofHashShape(p) then Some(keccak(ProofPreimage(p))) else None
  }

  // Certificates.

  /** The instant of a timestamp in nanoseconds. */
  function Instant(t: Timestamp): int {
    t.seconds * 1_000_000_000 + t.nanos
  }

  predicate CertificateShape(c: Certificate) {
    && |c.signerSetHash| == 32 && c.signerSetVersion != 0
    && 2 <= c.threshold <= 3 && c.threshold <= |c.signatures| <= 3
    && |c.certificateHash| == 32
    && c.validFrom.Some? && c.validUntil.Some? && Instant(c.validFrom.value) < Instant(c.validUntil.value)
  }

  predicate ValidSourceCertificate(keccak: Hash, p: SourceProof, c: Option<Certificate>) {
    && c.Some? && c.value.messageId == p.messageId && CertificateShape(c.value)
    && SourceProofHash(keccak, p) == Some(c.value.sourceProofHash)
  }

  // Source events.

  predicate ProofShape(p: SourceProof, requiredDepth: Uint64) {
    && p.requiredDepth == requiredDepth
    && |p.sourceContract| == 20 && |p.sourceBlockHash| == 32 && |p.transactionHash| == 32 && |p.receiptRoot| == 32
    && |p.receiptProofHash| == 32 && |p.eventHash| == 32 && |p.finalityHeadHash| == 32
    && |p.observerSignedHeaderCommitment| == 32 && |p.observerSignature| != 0
  }

  predicate SourcePolicy(e: Envelope, p: SourceProof, source: ChainConfig, destination: ChainConfig) {
    && source.coordinator == e.sourceCoordinator && source.coordinator == p.sourceContract
    && destination.coordinator == e.destinationCoordinator
    && source.finalityPolicyHash == e.sourceFinalityPolicyHash
    && destination.finalityPolicyHash == e.destinationFinalityPolicyHash
    && source.finalityPolicyHash == p.finalityPolicyHash && source.observerAuthority == p.headerAuthorityHash
  }

  function SourceCheck(ctx: Context, e: Envelope, p: SourceProof, c: Option<Certificate>): Result<Verification> {
    if !ValidEnvelope(ctx.keccak, e) || e.messageId != p.messageId || e.sourceChainId != p.sourceChainId then
      Err(Conflict)
    else if p.sourceChainId !in ctx.chains || e.destinationChainId !in ctx.chains then
      Err(UnknownChain)
    else if !SourcePolicy(e, p, ctx.chains[p.sourceChainId], ctx.chains[e.destinationChainId]) then
      Err(FinalityPolicy)
    else if !ProofShape(p, ctx.chains[p.sourceChainId].requiredDepth) then
      Err(InsufficientFinality)
    else if ObserverHeaderCommitment(ctx.keccak, p) != Some(p.observerSignedHeaderCommitment) then
      Err(Unauthenticated)
    else
      SourceVerdict(ctx, p, c, ctx.verifier.source(e, p, c))
  }

  function SourceVerdict(ctx: Context, p: SourceProof, c: Option<Certificate>, v: Option<Verification>)
    : Result<Verification>
  {
    if v.None? || v.value.hash == ZERO32 then Err(Unauthenticated)
    else if !v.value.final && c.Some? then Err(Unauthenticated)
    else if v.value.final && !ValidSourceCertificate(ctx.keccak, p, c) then Err(Unauthenticated)
    else if v.value.final && !HasRequiredDepth(p.sourceBlockNumber, p.finalityHeadNumber, p.requiredDepth) then
      Err(InsufficientFinality)
    else Ok(v.value)
  }

  // Executions and acknowledgements.

  function ExecutionShapeCheck(ctx: Context, r: Execution, p: SourceProof): Result<Done> {
    if |r.messageId| != 32 || r.messageId != p.messageId || r.destinationChainId != p.sourceChainId then
      Err(Conflict)
    else if r.destinationChainId !in ctx.chains then
      Err(UnknownChain)
    else
      var config := ctx.chains[r.destinationChainId];
      if config.coordinator != p.sourceContract || config.finalityPolicyHash != p.finalityPolicyHash
         || config.observerAuthority != p.headerAuthorityHash
      then Err(FinalityPolicy)
      else if !ProofShape(p, config.requiredDepth) then Err(Unauthenticated)
      else if ObserverHeaderCommitment(ctx.keccak, p) != Some(p.observerSignedHeaderCommitment) then Err(Unauthenticated)
      else if !HasRequiredDepth(p.sourceBlockNumber, p.finalityHeadNumber, config.requiredDepth) then
        Err(InsufficientFinality)
      else Ok(Done)
  }

  function ExecutionCheck(ctx: Context, r: Execution, p: SourceProof): Result<Bytes> {
    var v := ctx.verifier.execution(r, p);
    if v.None? || !v.value.final || v.value.hash == ZERO32 then Err(Unauthenticated) else Ok(v.value.hash)
  }

  function AcknowledgementCheck(ctx: Context, a: Acknowledgement): Result<Done> {
    if |a.messageId| != 32 || a.destinationExecutionProof.None? || a.finalityCertificate.None? then
      Err(Conflict)
    else
      var v := ctx.verifier.acknowledgement(a);
      if v.None? || !v.value.final || v.value.hash == ZERO32 then Err(Unauthenticated) else Ok(Done)
  }

  // Reorganizations.

  const EVIDENCE_DOMAIN := "UNIFIED_XCHAIN_REORGANIZATION_EVIDENCE_V1"

  const HEADER_DOMAIN := "UNIFIED_XCHAIN_REORGANIZATION_HEADER_V1"

  const MAX_AFFECTED: nat := 256

  predicate EvidenceHeaderShape(e: Reorganization) {
    && e.chainId != ""
    && |e.orphanedBlockHash| == 32 && |e.replacementBlockHash| == 32 && |e.detectedHeadHash| == 32
    && e.orphanedBlockHash != e.replacementBlockHash
    && e.blockNumber != 0 && e.detectedHeadNumber >= e.blockNumber && e.replacementBlockNumber == e.blockNumber
    && |e.replacementHeaderAuthorityHash| == 32 && |e.replacementObserverSignedHeaderCommitment| == 32
    && |e.replacementObserverSignature| != 0
    && |e.detectedHeadHeaderAuthorityHash| == 32 && |e.detectedHeadObserverSignedHeaderCommitment| == 32
    && |e.detectedHeadObserverSignature| != 0
    && |e.finalityPolicyHash| == 32 && WholeSeconds(e.detectedAt)
  }

  /** Four aligned lists, the first entry of each repeated as the anchor. */
  predicate EvidenceListsShape(e: Reorganization) {
    && 0 < |e.affectedMessageIds| <= MAX_AFFECTED
    && |e.affectedOrphanedSourceProofs| == |e.affectedMessageIds|
    && |e.affectedOrphanedEventEvidenceHashes| == |e.affectedMessageIds|
    && |e.affectedOrphanedFinalityCertificates| == |e.affectedMessageIds|
    && |e.orphanedEventEvidenceHash| == 32
    && e.orphanedSourceProof == Some(e.affectedOrphanedSourceProofs[0])
    && e.orphanedEventEvidenceHash == e.affectedOrphanedEventEvidenceHashes[0]
    && e.orphanedFinalityCertificate == Some(e.affectedOrphanedFinalityCertificates[0])
  }

  predicate AreIds(ids: seq<Bytes>) {
    forall i :: 0 <= i < |ids| ==> |ids[i]| == 32
  }

  /** The loop over the affected identifiers. */
  method CheckAffectedIds(ids: seq<Bytes>) returns (ok: bool)
    ensures ok <==> AreIds(ids) && Increasing(ids)
  {
    var previous: Option<Bytes> := None;
    for i := 0 to |ids|
      invariant AreIds(ids[..i]) && Increasing(ids[..i])
      invariant previous == if i == 0 then None else Some(ids[i - 1])
    {
      if |ids[i]| != 32 || (previous.Some? && !Less(previous.value, ids[i])) {
        return false;
      }
      previous := Some(ids[i]);
    }
    assert ids[..|ids|] == ids;
    return true;
  }

  predicate FactOk(keccak: Hash, e: Reorganization, i: nat)
    requires InRange(e, i)
  {
    var p, c := e.affectedOrphanedSourceProofs[i], e.affectedOrphanedFinalityCertificates[i];
    && |e.affectedOrphanedEventEvidenceHashes[i]| == 32
    && p.messageId == e.affectedMessageIds[i]
    && p.sourceChainId == e.chainId && p.sourceBlockNumber == e.blockNumber && p.sourceBlockHash == e.orphanedBlockHash
    && p.finalityPolicyHash == e.finalityPolicyHash
    && c.messageId == e.affectedMessageIds[i] && CertificateShape(c)
    && SourceProofHash(keccak, p) == Some(c.sourceProofHash)
  }

  predicate EvidenceOk(keccak: Hash, e: Reorganization) {
    && EvidenceHeaderShape(e) && EvidenceListsShape(e)
    && AreIds(e.affectedMessageIds) && Increasing(e.affectedMessageIds)
    && forall i :: 0 <= i < |e.affectedMessageIds| ==> FactOk(keccak, e, i)
  }

  /** The evidence without its own hash, under its domain. */
  function EvidenceBlob(ctx: Context, e: Reorganization): Bytes {
    Ascii(EVIDENCE_DOMAIN) + [0] + ctx.marshal(e.(evidenceHash := []))
  }

  function ReorganizationEvidenceHash(ctx: Context, e: Reorganization): Option<Bytes> {
    if EvidenceOk(ctx.keccak, e) then Some(ctx.keccak(EvidenceBlob(ctx, e))) else None
  }

  datatype HeaderKind = Replacement | DetectedHead

  function KindName(kind: HeaderKind): string {
    match kind
    case Replacement => "REPLACEMENT"
    case DetectedHead => "DETECTED_HEAD"
  }

  function HeaderBlock(kind: HeaderKind, e: Reorganization): (Bytes, Uint64, Bytes) {
    match kind
    case Replacement => (e.replacementBlockHash, e.replacementBlockNumber, e.replacementHeaderAuthorityHash)
    case DetectedHead => (e.detectedHeadHash, e.detectedHeadNumber, e.detectedHeadHeaderAuthorityHash)
  }

  function HeaderTail(kind: HeaderKind, e: Reorganization): Bytes {
    var (hash, number, authority) := HeaderBlock(kind, e);
    hash + UintWord(number) + e.detectedHeadHash + UintWord(e.detectedHeadNumber) + e.finalityPolicyHash + authority
  }

  /** Three length-prefixed padded strings, then static words. */
  function HeaderPreimage(kind: HeaderKind, e: Reorganization): Bytes {
    StringTail(Ascii(HEADER_DOMAIN)) + (StringTail(Ascii(KindName(kind))) + (StringTail(Ascii(e.chainId)) + HeaderTail(kind, e)))
  }

  predicate HeaderOk(kind: HeaderKind, e: Reorganization) {
    var (hash, number, authority) := HeaderBlock(kind, e);
    e.chainId != "" && |e.finalityPolicyHash| == 32 && |hash| == 32 && number != 0 && |authority| == 32
  }

  function ReorganizationHeaderCommitment(keccak: Hash, kind: HeaderKind, e: Reorganization): Option<Bytes> {
    if HeaderOk(kind, e) then Some(keccak(HeaderPreimage(kind, e))) else None
  }

  predicate EvidencePolicy(ctx: Context, e: Reorganization, config: ChainConfig) {
    && ReorganizationHeaderCommitment(ctx.keccak, Replacement, e) == Some(e.replacementObserverSignedHeaderCommitment)
    && ReorganizationHeaderCommitment(ctx.keccak, DetectedHead, e) == Some(e.detectedHeadObserverSignedHeaderCommitment)
    && config.finalityPolicyHash == e.finalityPolicyHash
    && config.observerAuthority == e.replacementHeaderAuthorityHash
    && config.observerAuthority == e.detectedHeadHeaderAuthorityHash
    && forall i :: 0 <= i < |e.affectedOrphanedSourceProofs| ==> OrphanPolicy(ctx, e.affectedOrphanedSourceProofs[i], config)
  }

  predicate OrphanPolicy(ctx: Context, p: SourceProof, config: ChainConfig) {
    && ObserverHeaderCommitment(ctx.keccak, p) == Some(p.observerSignedHeaderCommitment)
    && config.finalityPolicyHash == p.finalityPolicyHash && config.observerAuthority == p.headerAuthorityHash
    && p.requiredDepth == config.requiredDepth
  }

  function ReorganizationCheck(ctx: Context, e: Reorganization): Result<Done> {
    if ReorganizationEvidenceHash(ctx, e) != Some(e.evidenceHash) then
      Err(Conflict)
    else if e.chainId !in ctx.chains then
      Err(UnknownChain)
    else if !EvidencePolicy(ctx, e, ctx.chains[e.chainId]) then
      Err(FinalityPolicy)
    else if ctx.verifier.reorganization(e) != Some(Verification(e.evidenceHash, true)) then
      Err(Unauthenticated)
    else
      Ok(Done)
  }

  // The checks of the projector.

  function ChecksOf(ctx: Context): Checks {
    Checks(
      (e, p, c) => SourceCheck(ctx, e, p, c),
      (r, p) => ExecutionShapeCheck(ctx, r, p),
      (r, p) => ExecutionCheck(ctx, r, p),
      a => AcknowledgementCheck(ctx, a),
      e => ReorganizationCheck(ctx, e))
  }

  lemma AcceptedEvidenceIsAligned(ctx: Context, e: Reorganization)
    requires ReorganizationCheck(ctx, e).Ok?
    ensures Aligned(e)
  {
    hide EvidenceHeaderShape, EvidencePolicy, CertificateShape, SourceProofHash, EvidenceBlob, Less;
    IncreasingIsDistinct(e.affectedMessageIds);
    forall i | 0 <= i < |e.affectedMessageIds| ensures AlignedAt(e, i) {
      assert FactOk(ctx.keccak, e, i);
    }
  }

  /** The service's own checks are sane, so everything proved of sane checks holds of it. */
  lemma ChecksAreSane(ctx: Context)
    ensures Sane(ChecksOf(ctx))
  {
    hide ValidEnvelope, SourcePolicy, ProofShape, CertificateShape, SourceProofHash, ObserverHeaderCommitment,
      HasRequiredDepth, ReorganizationCheck, Aligned;
    var checks := ChecksOf(ctx);
    forall e | checks.reorganization(e).Ok? ensures Aligned(e) {
      AcceptedEvidenceIsAligned(ctx, e);
    }
  }
}
