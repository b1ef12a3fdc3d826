/** The multi-chain projector as a state machine: authenticated source events,
    executions, acknowledgements and reorganizations over messages, event
    identities and route bindings. What the service decides before it takes its
    lock is a parameter (`Checks`); every theorem here holds for any such checks
    that are sane. */
module Projector {
  import opened ByteStrings
  import opened Envelope

  datatype SourceProof = SourceProof(
    messageId: Bytes, sourceChainId: string, sourceContract: Bytes,
    sourceBlockHash: Bytes, sourceBlockNumber: Uint64, sourceBlockTimestamp: Option<Timestamp>,
    transactionHash: Bytes, transactionIndex: Uint64, receiptRoot: Bytes, receiptProofHash: Bytes,
    logIndex: Uint64, eventHash: Bytes, finalityHeadHash: Bytes, finalityHeadNumber: Uint64, requiredDepth: Uint64,
    headerAuthorityHash: Bytes, observerSignature: Bytes, finalityPolicyHash: Bytes,
    observerSignedHeaderCommitment: Bytes)

  datatype Certificate = Certificate(
    messageId: Bytes, sourceProofHash: Bytes, signerSetHash: Bytes, signerSetVersion: Uint32, threshold: Uint32,
    signatures: seq<Bytes>, validFrom: Option<Timestamp>, validUntil: Option<Timestamp>, certificateHash: Bytes)

  datatype Execution = Execution(
    messageId: Bytes, laneId: Bytes, sourceNonce: Uint64, actionType: int, target: Bytes, resultHash: Bytes,
    destinationChainId: string, transactionHash: Bytes, logIndex: Uint64, executedAt: Option<Timestamp>)

  datatype Acknowledgement = Acknowledgement(
    messageId: Bytes, executionResultHash: Bytes, destinationExecutionProof: Option<SourceProof>,
    finalityCertificate: Option<Certificate>, acknowledgedAt: Option<Timestamp>)

  datatype Reorganization = Reorganization(
    chainId: string, orphanedBlockHash: Bytes, replacementBlockHash: Bytes, detectedHeadHash: Bytes,
    blockNumber: Uint64, detectedHeadNumber: Uint64, affectedMessageIds: seq<Bytes>, evidenceHash: Bytes,
    detectedAt: Option<Timestamp>, orphanedSourceProof: Option<SourceProof>, orphanedEventEvidenceHash: Bytes,
    replacementBlockNumber: Uint64, replacementHeaderAuthorityHash: Bytes,
    replacementObserverSignedHeaderCommitment: Bytes, replacementObserverSignature: Bytes,
    detectedHeadHeaderAuthorityHash: Bytes, detectedHeadObserverSignedHeaderCommitment: Bytes,
    detectedHeadObserverSignature: Bytes, finalityPolicyHash: Bytes,
    orphanedFinalityCertificate: Option<Certificate>, affectedOrphanedSourceProofs: seq<SourceProof>,
    affectedOrphanedEventEvidenceHashes: seq<Bytes>, affectedOrphanedFinalityCertificates: seq<Certificate>)

  datatype Incident = Incident(
    incidentId: string, routeId: string, affectedMessageIds: seq<Bytes>, reasonCode: string, owner: string,
    evidenceHash: Bytes, openedAt: Option<Timestamp>, status: string)

  datatype Projection = Projection(
    messageId: Bytes, sourceChainId: string, destinationChainId: string,
    envelope: Envelope, sourceProof: SourceProof, certificate: Option<Certificate>,
    execution: Option<Execution>, executionProof: Option<SourceProof>, acknowledgement: Option<Acknowledgement>,
    sourceFinal: bool, sourceEvidenceHash: Bytes, executionEvidenceHash: Bytes,
    disputed: bool, reorganization: Option<Reorganization>, incident: Option<Incident>)

  datatype State = State(messages: map<Bytes, Projection>, events: map<string, Bytes>, routes: map<Bytes, string>)

  datatype Error = UnknownChain | FinalityPolicy | Conflict | InsufficientFinality | Unauthenticated

  datatype Result<+T> = Ok(value: T) | Err(error: Error)

  datatype Done = Done

  datatype Verification = Verification(hash: Bytes, final: bool)

  /** What is decided from the arguments and the chain configuration alone. */
  datatype Checks = Checks(
    source: (Envelope, SourceProof, Option<Certificate>) -> Result<Verification>,
    executionShape: (Execution, SourceProof) -> Result<Done>,
    execution: (Execution, SourceProof) -> Result<Bytes>,
    acknowledgement: Acknowledgement -> Result<Done>,
    reorganization: Reorganization -> Result<Done>)

  // Event identities.

  /** The textual key of one log on one chain. */
  function EventKey(chainId: string, transactionHash: Bytes, logIndex: nat): string {
    chainId + ":" + Hex(transactionHash) + ":" + Decimal(logIndex)
  }

  function KeyOf(proof: SourceProof): string {
    EventKey(proof.sourceChainId, proof.transactionHash, proof.logIndex)
  }

  lemma NoLaterColon(a: string, b: string, c: string, d: string)
    requires a + ":" + b == c + ":" + d
    requires forall i :: 0 <= i < |b| ==> b[i] != ':'
    ensures |c| <= |a|
  {
    var s := a + ":" + b;
    forall i | |a| < i < |s| ensures s[i] != ':' {
      assert s[i] == b[i - |a| - 1];
    }
    assert s[|c|] == (c + ":" + d)[|c|] == ':';
  }

  lemma LastColon(a: string, b: string, c: string, d: string)
    requires a + ":" + b == c + ":" + d
    requires (forall i :: 0 <= i < |b| ==> b[i] != ':') && (forall i :: 0 <= i < |d| ==> d[i] != ':')
    ensures a == c && b == d
  {
    NoLaterColon(a, b, c, d);
    NoLaterColon(c, d, a, b);
    assert a + (":" + b) == a + ":" + b && c + (":" + d) == c + ":" + d;
    SplitAt(a, ":" + b, c, ":" + d);
    SplitAt(":", b, ":", d);
  }

  /** The key determines the chain, the transaction and the log, whatever
      characters the chain identifier holds. */
  lemma EventKeyInjective(c1: string, t1: Bytes, i1: nat, c2: string, t2: Bytes, i2: nat)
    requires EventKey(c1, t1, i1) == EventKey(c2, t2, i2)
    ensures c1 == c2 && t1 == t2 && i1 == i2
  {
    LastColon(c1 + ":" + Hex(t1), Decimal(i1), c2 + ":" + Hex(t2), Decimal(i2));
    LastColon(c1, Hex(t1), c2, Hex(t2));
    HexInjective(t1, t2);
    DecimalInjective(i1, i2);
  }

  // Operations.

  datatype Step<+T> = Step(state: State, result: Result<T>)

  function BindRoute(s: State, routeId: string, policyHash: Bytes): Step<Done> {
    if routeId == "" || policyHash == ZERO32 then
      Step(s, Err(Conflict))
    else if policyHash in s.routes && s.routes[policyHash] != routeId then
      Step(s, Err(Conflict))
    else
      Step(s.(routes := s.routes[policyHash := routeId]), Ok(Done))
  }

  /** The fresh projection of a source event. */
  function Fresh(e: Envelope, p: SourceProof, c: Option<Certificate>, v: Verification): Projection {
    Projection(
      e.messageId, e.sourceChainId, e.destinationChainId, e, p, if v.final then c else None,
      None, None, None, v.final, v.hash, ZERO32, false, None, None)
  }

  /** A repeated source event agrees with the stored one, up to a first certificate. */
  predicate SameSource(m: Projection, e: Envelope, p: SourceProof, c: Option<Certificate>, v: Verification) {
    && m.envelope == e && m.sourceProof == p
    && (m.certificate == c || (!m.sourceFinal && m.certificate.None?))
    && m.sourceChainId == e.sourceChainId && m.destinationChainId == e.destinationChainId
    && m.sourceEvidenceHash == v.hash
  }

  function ProjectSource(checks: Checks, s: State, e: Envelope, p: SourceProof, c: Option<Certificate>)
    : Step<Projection>
  {
    match checks.source(e, p, c)
    case Err(error) => Step(s, Err(error))
    case Ok(v) => RecordSource(s, e, p, c, v)
  }

  function RecordSource(s: State, e: Envelope, p: SourceProof, c: Option<Certificate>, v: Verification)
    : Step<Projection>
  {
    var id, key := e.messageId, KeyOf(p);
    if key in s.events && s.events[key] != id then
      Step(s, Err(Conflict))
    else if id in s.messages then
      var m := s.messages[id];
      if !SameSource(m, e, p, c, v) then
        Step(s, Err(Conflict))
      else if v.final && !m.sourceFinal then
        var m' := m.(sourceFinal := true, certificate := c);
        Step(s.(messages := s.messages[id := m']), Ok(m'))
      else
        Step(s, Ok(m))
    else
      var m := Fresh(e, p, c, v);
      Step(s.(messages := s.messages[id := m], events := s.events[key := id]), Ok(m))
  }

  /** An execution result fits the envelope it claims to execute. */
  predicate ExecutionFits(e: Envelope, destinationChainId: string, r: Execution, p: SourceProof) {
    && destinationChainId == r.destinationChainId
    && r.laneId == e.laneId && r.sourceNonce == e.sourceNonce && r.actionType == e.actionType
    && r.target == e.destinationComponent
    && r.transactionHash == p.transactionHash && r.logIndex == p.logIndex
    && |r.laneId| == 32 && |r.target| == 20 && |r.resultHash| == 32 && |r.transactionHash| == 32
    && r.executedAt.Some? && r.executedAt.value.seconds >= 0 && r.executedAt.value.nanos == 0
  }

  /** What the unlocked half of an execution carries to the locked half. */
  datatype Pending = Pending(envelope: Envelope, hash: Bytes)

  function BeginExecution(checks: Checks, s: State, r: Execution, p: SourceProof): Result<Pending> {
    match checks.executionShape(r, p)
    case Err(error) => Err(error)
    case Ok(_) =>
      if r.messageId !in s.messages then
        Err(Conflict)
      else
        var original := s.messages[r.messageId];
        if !ExecutionFits(original.envelope, original.destinationChainId, r, p) then
          Err(Conflict)
        else
          match checks.execution(r, p)
          case Err(error) => Err(error)
          case Ok(hash) => Ok(Pending(original.envelope, hash))
  }

  /** The stored execution, if any, is this one. */
  predicate ExecutionCompatible(m: Projection, r: Execution, p: SourceProof, hash: Bytes) {
    && (m.execution.None? || m.execution == Some(r))
    && (m.executionProof.None? || m.executionProof == Some(p))
    && (m.executionEvidenceHash == ZERO32 || m.executionEvidenceHash == hash)
  }

  function WithExecution(m: Projection, r: Execution, p: SourceProof, hash: Bytes): Projection {
    m.(execution := Some(r), executionProof := Some(p), executionEvidenceHash := hash)
  }

  function CommitExecution(s: State, pending: Pending, r: Execution, p: SourceProof): Step<Projection> {
    var id, key := r.messageId, KeyOf(p);
    if id !in s.messages || s.messages[id].envelope != pending.envelope then
      Step(s, Err(Conflict))
    else if key in s.events && s.events[key] != id then
      Step(s, Err(Conflict))
    else if !ExecutionCompatible(s.messages[id], r, p, pending.hash) then
      Step(s, Err(Conflict))
    else
      var m := WithExecution(s.messages[id], r, p, pending.hash);
      Step(s.(messages := s.messages[id := m], events := s.events[key := id]), Ok(m))
  }

  /** Both halves without interference. */
  function ProjectExecution(checks: Checks, s: State, r: Execution, p: SourceProof): Step<Projection> {
    match BeginExecution(checks, s, r, p)
    case Err(error) => Step(s, Err(error))
    case Ok(pending) => CommitExecution(s, pending, r, p)
  }

  predicate AcknowledgementFits(m: Projection, a: Acknowledgement) {
    && m.execution.Some? && m.executionProof.Some?
    && a.executionResultHash == m.execution.value.resultHash
    && a.destinationExecutionProof == m.executionProof
    && m.executionProof.value.messageId == a.messageId
    && a.finalityCertificate.Some? && a.finalityCertificate.value.messageId == a.messageId
  }

  function ProjectAcknowledgement(checks: Checks, s: State, a: Acknowledgement): Step<Projection> {
    match checks.acknowledgement(a)
    case Err(error) => Step(s, Err(error))
    case Ok(_) =>
      var id := a.messageId;
      if id !in s.messages || !AcknowledgementFits(s.messages[id], a) then
        Step(s, Err(Conflict))
      else if s.messages[id].acknowledgement.Some? && s.messages[id].acknowledgement != Some(a) then
        Step(s, Err(Conflict))
      else
        var m := s.messages[id].(acknowledgement := Some(a));
        Step(s.(messages := s.messages[id := m]), Ok(m))
  }

  // Reorganizations.

  /** Entry `i` of the evidence describes one orphaned event. */
  predicate AlignedAt(e: Reorganization, i: nat)
    requires i < |e.affectedMessageIds| && i < |e.affectedOrphanedSourceProofs|
  {
    && |e.affectedMessageIds[i]| == 32
    && e.affectedOrphanedSourceProofs[i].messageId == e.affectedMessageIds[i]
    && e.affectedOrphanedSourceProofs[i].sourceChainId == e.chainId
    && e.affectedOrphanedSourceProofs[i].sourceBlockNumber == e.blockNumber
    && e.affectedOrphanedSourceProofs[i].sourceBlockHash == e.orphanedBlockHash
  }

  /** The shape that the evidence check guarantees. */
  predicate Aligned(e: Reorganization) {
    && 0 < |e.affectedMessageIds|
    && |e.affectedOrphanedSourceProofs| == |e.affectedMessageIds|
    && |e.affectedOrphanedEventEvidenceHashes| == |e.affectedMessageIds|
    && |e.affectedOrphanedFinalityCertificates| == |e.affectedMessageIds|
    && |e.evidenceHash| == 32
    && NoRepeats(e.affectedMessageIds)
    && forall i :: 0 <= i < |e.affectedMessageIds| ==> AlignedAt(e, i)
  }

  predicate InRange(e: Reorganization, i: nat) {
    && i < |e.affectedMessageIds| && i < |e.affectedOrphanedSourceProofs|
    && i < |e.affectedOrphanedEventEvidenceHashes| && i < |e.affectedOrphanedFinalityCertificates|
  }

  /** The final source event is the one that was orphaned. */
  predicate SourceAffected(m: Projection, e: Reorganization, i: nat)
    requires InRange(e, i)
  {
    && m.sourceFinal
    && m.sourceChainId == e.chainId
    && m.sourceProof.sourceBlockNumber == e.blockNumber
    && m.sourceProof.sourceBlockHash == e.orphanedBlockHash
    && m.sourceProof == e.affectedOrphanedSourceProofs[i]
    && m.certificate == Some(e.affectedOrphanedFinalityCertificates[i])
    && m.sourceEvidenceHash == e.affectedOrphanedEventEvidenceHashes[i]
  }

  /** The execution event is the one that was orphaned. */
  predicate ExecutionOrphaned(m: Projection, e: Reorganization, i: nat)
    requires InRange(e, i)
  {
    && m.destinationChainId == e.chainId
    && m.execution.Some? && m.executionProof.Some?
    && m.executionProof.value.sourceBlockNumber == e.blockNumber
    && m.executionProof.value.sourceBlockHash == e.orphanedBlockHash
    && m.executionProof.value == e.affectedOrphanedSourceProofs[i]
    && m.executionEvidenceHash == e.affectedOrphanedEventEvidenceHashes[i]
  }

  /** An acknowledgement, if there is one, carries the certificate that was orphaned. */
  predicate AcknowledgementNamed(m: Projection, e: Reorganization, i: nat)
    requires InRange(e, i)
  {
    m.acknowledgement.None?
    || m.acknowledgement.value.finalityCertificate == Some(e.affectedOrphanedFinalityCertificates[i])
  }

  predicate Affected(m: Projection, e: Reorganization, i: nat)
    requires InRange(e, i)
  {
    SourceAffected(m, e, i) || (ExecutionOrphaned(m, e, i) && AcknowledgementNamed(m, e, i))
  }

  function Policy(m: Projection): Bytes {
    if |m.envelope.routePolicyHash| == 32 then m.envelope.routePolicyHash else ZERO32
  }

  /** Message `i` of the evidence may be, or already is, disputed by it. */
  predicate Disputable(s: State, e: Reorganization, i: nat, policy: Bytes)
    requires InRange(e, i)
  {
    var id := e.affectedMessageIds[i];
    && id in s.messages
    && Policy(s.messages[id]) == policy
    && if s.messages[id].disputed then s.messages[id].reorganization == Some(e) else Affected(s.messages[id], e, i)
  }

  predicate AllDisputable(s: State, e: Reorganization, policy: Bytes, n: nat)
    requires n <= |e.affectedMessageIds| && n <= |e.affectedOrphanedSourceProofs|
    requires n <= |e.affectedOrphanedEventEvidenceHashes| && n <= |e.affectedOrphanedFinalityCertificates|
  {
    forall i :: 0 <= i < n ==> Disputable(s, e, i, policy)
  }

  function IncidentOf(e: Reorganization, routeId: string): Incident {
    Incident(
      "crosschain-incident:" + Hex(e.evidenceHash), routeId, e.affectedMessageIds,
      "POST_FINALITY_REORGANIZATION", "cross-chain-security", e.evidenceHash, e.detectedAt, "OPEN")
  }

  function Dispute(m: Projection, e: Reorganization, incident: Incident): Projection {
    if m.disputed then m else m.(disputed := true, reorganization := Some(e), incident := Some(incident))
  }

  function DisputeAll(messages: map<Bytes, Projection>, e: Reorganization, incident: Incident)
    : (r: map<Bytes, Projection>)
    ensures r.Keys == messages.Keys
  {
    map id | id in messages ::
      if id in e.affectedMessageIds then Dispute(messages[id], e, incident) else messages[id]
  }

  /** The policy that the first affected message fixes for all of them. */
  function LeadPolicy(s: State, e: Reorganization): Bytes {
    if e.affectedMessageIds != [] && e.affectedMessageIds[0] in s.messages
    then Policy(s.messages[e.affectedMessageIds[0]])
    else ZERO32
  }

  predicate ReorganizationApplies(s: State, e: Reorganization) {
    && |e.affectedMessageIds| <= |e.affectedOrphanedSourceProofs|
    && |e.affectedMessageIds| <= |e.affectedOrphanedEventEvidenceHashes|
    && |e.affectedMessageIds| <= |e.affectedOrphanedFinalityCertificates|
    && AllDisputable(s, e, LeadPolicy(s, e), |e.affectedMessageIds|)
    && LeadPolicy(s, e) in s.routes
    && s.routes[LeadPolicy(s, e)] != ""
  }

  /** The incident that was opened and the projections it affects, in evidence order. */
  datatype Opened = Opened(incident: Incident, affected: seq<Projection>)

  function Lookup(messages: map<Bytes, Projection>, ids: seq<Bytes>): seq<Projection>
    requires forall i :: 0 <= i < |ids| ==> ids[i] in messages
  {
    seq(|ids|, i requires 0 <= i < |ids| => messages[ids[i]])
  }

  function ProjectReorganization(checks: Checks, s: State, e: Reorganization): Step<Opened> {
    match checks.reorganization(e)
    case Err(error) => Step(s, Err(error))
    case Ok(_) =>
      if !ReorganizationApplies(s, e) then
        Step(s, Err(Conflict))
      else
        var incident := IncidentOf(e, s.routes[LeadPolicy(s, e)]);
        var messages := DisputeAll(s.messages, e, incident);
        assert forall i {:trigger e.affectedMessageIds[i]} :: 0 <= i < |e.affectedMessageIds| ==> Disputable(s, e, i, LeadPolicy(s, e));
        Step(s.(messages := messages), Ok(Opened(incident, Lookup(messages, e.affectedMessageIds))))
  }

  function RemovePreFinality(s: State, chainId: string, transactionHash: Bytes, logIndex: nat): Step<Done> {
    var key := EventKey(chainId, transactionHash, logIndex);
    if key !in s.events then
      Step(s, Err(Conflict))
    else
      var id := s.events[key];
      if id in s.messages && s.messages[id].sourceFinal then
        Step(s, Err(InsufficientFinality))
      else
        Step(s.(messages := s.messages - {id}, events := s.events - {key}), Ok(Done))
  }
}
