/** Runs that the service's own checks accept, under every hash function and
    serialization: identifiers, commitments, certificates and evidence hashes are
    derived from the context as the service derives them. */
module ServiceScenario {
  import opened ByteStrings
  import opened ByteOrder
  import opened Abi
  import opened Envelope
  import opened Projector
  import opened Boundary
  import opened Scenario
  import opened RemovalScenario

  const MARK: Bytes32 := [1] + Zeros(31)

  const OTHER: Bytes32 := [2] + Zeros(31)

  lemma MarksDiffer()
    ensures MARK != ZERO32 && OTHER != MARK
  {
    assert MARK[0] == 1 && OTHER[0] == 2 && ZERO32[0] == 0;
  }

  // The context: two chains and a verifier that accepts.

  function Chain(chainId: string): ChainConfig {
    ChainConfig(chainId, Zeros(20), MARK, MARK, MARK, 1)
  }

  function Accepting(): Verifier {
    Verifier(
      (e: Envelope, p: SourceProof, c: Option<Certificate>) => Some(Verification(MARK, c.Some?)),
      (r: Execution, p: SourceProof) => Some(Verification(MARK, true)),
      (a: Acknowledgement) => Some(Verification(MARK, true)),
      (e: Reorganization) => Some(Verification(e.evidenceHash, true)))
  }

  function Service(keccak: Hash, marshal: Reorganization -> Bytes): Context {
    Context(keccak, marshal, Accepting(), map["1" := Chain("1"), "2" := Chain("2")])
  }

  // The envelope of a message; its nonce also places its events.

  type Nonce = n: nat | 0 < n < UINT32_LIMIT witness 1

  function Action(): TypedAction {
    SatelliteUftPermanentBurned(MARK, MARK, Zeros(20), Zeros(20), Zeros(20), "1")
  }

  function Draft(n: Nonce): Envelope {
    Envelope(1, [], MARK, "1", Zeros(20), Zeros(20), "2", Zeros(20), Zeros(20), MARK, n, MARK, 15, [], [],
             Some(Timestamp(1, 0)), Some(Timestamp(2, 0)), MARK, MARK, MARK, MARK, MARK, MARK, MARK, Some(Action()))
  }

  lemma DigitsRead()
    ensures Uint256("1") == Some(1) && Uint256("2") == Some(2)
  {
    Pow256Values();
    assert DecimalValue("1") == DecimalValue("") * 10 + 1 by { assert "1"[..0] == ""; }
    assert DecimalValue("2") == DecimalValue("") * 10 + 2 by { assert "2"[..0] == ""; }
  }

  lemma DraftBinds(keccak: Hash, n: Nonce)
    ensures BindTypedAction(keccak, Draft(n)).Some? && FieldsValid(BindTypedAction(keccak, Draft(n)).value)
  {
    hide Uint256, UintWord;
    DigitsRead();
    var words := ActionWords(Action());
    assert words[1..] == [Bytes32Word(MARK), AddressArg(Zeros(20)), AddressArg(Zeros(20)), AddressArg(Zeros(20)), AmountWord("1")];
    assert words[1..][1..] == words[2..] && words[2..][1..] == words[3..] && words[3..][1..] == words[4..];
    assert words[4..][1..] == words[5..] && words[5..][1..] == [];
    assert EncodeStatic(words[5..]).Some?;
    assert EncodeStatic(words[4..]).Some?;
    assert EncodeStatic(words[3..]).Some?;
    assert EncodeStatic(words[2..]).Some?;
    assert EncodeStatic(words[1..]).Some?;
  }

  /** The sealed envelope. */
  function Sent(keccak: Hash, n: Nonce): Envelope {
    DraftBinds(keccak, n);
    BindThenSeal(keccak, Draft(n));
    Seal(keccak, BindTypedAction(keccak, Draft(n)).value).value
  }

  lemma SentIsValid(keccak: Hash, n: Nonce)
    ensures ValidEnvelope(keccak, Sent(keccak, n)) && |Sent(keccak, n).messageId| == 32
    ensures var e := Sent(keccak, n);
            && e.sourceChainId == "1" && e.destinationChainId == "2"
            && e.sourceCoordinator == e.destinationCoordinator == e.destinationComponent == Zeros(20)
            && e.sourceFinalityPolicyHash == e.destinationFinalityPolicyHash == e.routePolicyHash == e.laneId == MARK
            && e.sourceNonce == n && e.actionType == 15
  {
    hide FieldsValid, PayloadValid, Preimage, EncodeTypedAction;
    DraftBinds(keccak, n);
    BindThenSeal(keccak, Draft(n));
    var bound, sealed := BindTypedAction(keccak, Draft(n)).value, Sent(keccak, n);
    assert sealed.(messageId := []) == bound.(messageId := []);
  }

  // Proofs and certificates.

  function Unsigned(id: Bytes, n: Nonce, chainId: string): SourceProof {
    SourceProof(id, chainId, Zeros(20), MARK, 5, Some(Timestamp(1, 0)), MARK, 0, MARK, MARK, n, MARK, MARK, 9, 1, MARK, [1],
                MARK, [])
  }

  function ProofOn(keccak: Hash, n: Nonce, chainId: string): SourceProof {
    var p := Unsigned(Sent(keccak, n).messageId, n, chainId);
    p.(observerSignedHeaderCommitment := keccak(DomainAndWords(Ascii(OBSERVER_DOMAIN), HeaderWords(p))))
  }

  lemma ProofIsCommitted(keccak: Hash, n: Nonce, chainId: string)
    ensures var p := ProofOn(keccak, n, chainId);
            && ObserverHeaderCommitment(keccak, p) == Some(p.observerSignedHeaderCommitment)
            && ProofShape(p, 1) && ProofHashShape(p) && HasRequiredDepth(p.sourceBlockNumber, p.finalityHeadNumber, 1)
            && p.messageId == Sent(keccak, n).messageId && p.sourceChainId == chainId
  {
    hide DomainAndWords, Sent, UintWord, Ascii;
    var p := Unsigned(Sent(keccak, n).messageId, n, chainId);
    assert HeaderWords(p) == HeaderWords(ProofOn(keccak, n, chainId));
  }

  function Signed(keccak: Hash, n: Nonce, version: Uint32): Certificate {
    var p := ProofOn(keccak, n, "2");
    ProofIsCommitted(keccak, n, "2");
    Certificate(p.messageId, keccak(ProofPreimage(p)), MARK, version, 2, [[1], [2]],
                Some(Timestamp(1, 0)), Some(Timestamp(2, 0)), MARK)
  }

  lemma CertificateFits(keccak: Hash, n: Nonce, version: Uint32)
    requires version != 0
    ensures var c, p := Signed(keccak, n, version), ProofOn(keccak, n, "2");
            && CertificateShape(c) && c.messageId == Sent(keccak, n).messageId
            && SourceProofHash(keccak, p) == Some(c.sourceProofHash)
  {
    hide ProofOn, Sent, ProofPreimage, ProofHashShape, ProofShape;
    ProofIsCommitted(keccak, n, "2");
  }

  // The execution, the evidence and the late acknowledgement.

  function Executed(keccak: Hash, n: Nonce): Execution {
    Execution(Sent(keccak, n).messageId, MARK, n, 15, Zeros(20), MARK, "2", MARK, n, Some(Timestamp(4, 0)))
  }

  /** The leg that a nonce stands for. */
  function LegOf(keccak: Hash, n: Nonce): Leg {
    Leg(Sent(keccak, n), ProofOn(keccak, n, "1"), Executed(keccak, n), ProofOn(keccak, n, "2"), MARK)
  }

  function Ids(keccak: Hash, ns: seq<Nonce>): (ids: seq<Bytes>)
    ensures |ids| == |ns| && forall i :: 0 <= i < |ns| ==> ids[i] == Sent(keccak, ns[i]).messageId
  {
    seq(|ns|, i requires 0 <= i < |ns| => Sent(keccak, ns[i]).messageId)
  }

  function Proofs(keccak: Hash, ns: seq<Nonce>): (proofs: seq<SourceProof>)
    ensures |proofs| == |ns| && forall i :: 0 <= i < |ns| ==> proofs[i] == ProofOn(keccak, ns[i], "2")
  {
    seq(|ns|, i requires 0 <= i < |ns| => ProofOn(keccak, ns[i], "2"))
  }

  function Certificates(keccak: Hash, ns: seq<Nonce>): (certificates: seq<Certificate>)
    ensures |certificates| == |ns| && forall i :: 0 <= i < |ns| ==> certificates[i] == Signed(keccak, ns[i], 1)
  {
    seq(|ns|, i requires 0 <= i < |ns| => Signed(keccak, ns[i], 1))
  }

  /** Evidence that names the executions of these messages, before its own hash. */
  function Unhashed(keccak: Hash, ns: seq<Nonce>): Reorganization
    requires ns != []
  {
    var bare := Reorganization(
      "2", MARK, OTHER, MARK, 5, 9, Ids(keccak, ns), [], Some(Timestamp(3, 0)), Some(ProofOn(keccak, ns[0], "2")), MARK, 5,
      MARK, [], [1], MARK, [], [1], MARK, Some(Signed(keccak, ns[0], 1)), Proofs(keccak, ns), seq(|ns|, _ => MARK),
      Certificates(keccak, ns));
    bare.(replacementObserverSignedHeaderCommitment := keccak(HeaderPreimage(Replacement, bare)),
          detectedHeadObserverSignedHeaderCommitment := keccak(HeaderPreimage(DetectedHead, bare)))
  }

  function Orphaned(keccak: Hash, marshal: Reorganization -> Bytes, ns: seq<Nonce>): Reorganization
    requires ns != []
  {
    var e := Unhashed(keccak, ns);
    e.(evidenceHash := keccak(EvidenceBlob(Service(keccak, marshal), e)))
  }

  function Late(keccak: Hash, n: Nonce): Acknowledgement {
    Acknowledgement(Sent(keccak, n).messageId, MARK, Some(ProofOn(keccak, n, "2")), Some(Signed(keccak, n, 2)), None)
  }

  // Every step passes the service's checks.

  lemma SourcePasses(keccak: Hash, marshal: Reorganization -> Bytes, n: Nonce)
    ensures SourceCheck(Service(keccak, marshal), Sent(keccak, n), ProofOn(keccak, n, "1"), None) == Ok(Verification(MARK, false))
  {
    hide ValidEnvelope, ObserverHeaderCommitment, ProofHashShape;
    MarksDiffer();
    SentIsValid(keccak, n);
    ProofIsCommitted(keccak, n, "1");
    var p := ProofOn(keccak, n, "1");
    assert p.sourceContract == Zeros(20) && p.finalityPolicyHash == MARK && p.headerAuthorityHash == MARK;
  }

  lemma ExecutionPasses(keccak: Hash, marshal: Reorganization -> Bytes, n: Nonce)
    ensures ExecutionShapeCheck(Service(keccak, marshal), Executed(keccak, n), ProofOn(keccak, n, "2")) == Ok(Done)
    ensures ExecutionCheck(Service(keccak, marshal), Executed(keccak, n), ProofOn(keccak, n, "2")) == Ok(MARK)
    ensures ExecutionFits(Sent(keccak, n), "2", Executed(keccak, n), ProofOn(keccak, n, "2"))
  {
    hide ValidEnvelope, ObserverHeaderCommitment, ProofHashShape, HasRequiredDepth;
    MarksDiffer();
    SentIsValid(keccak, n);
    ProofIsCommitted(keccak, n, "2");
    var p := ProofOn(keccak, n, "2");
    assert p.sourceContract == Zeros(20) && p.finalityPolicyHash == MARK && p.headerAuthorityHash == MARK;
    assert p.transactionHash == MARK && p.logIndex == n;
  }

  lemma AcknowledgementPasses(keccak: Hash, marshal: Reorganization -> Bytes, n: Nonce)
    ensures AcknowledgementCheck(Service(keccak, marshal), Late(keccak, n)) == Ok(Done)
  {
    hide ValidEnvelope, ProofOn, Signed;
    MarksDiffer();
    SentIsValid(keccak, n);
  }

  lemma FactPasses(keccak: Hash, e: Reorganization, ns: seq<Nonce>, i: nat)
    requires InRange(e, i) && i < |ns| && e.affectedMessageIds[i] == Sent(keccak, ns[i]).messageId
    requires e.affectedOrphanedSourceProofs[i] == ProofOn(keccak, ns[i], "2")
    requires e.affectedOrphanedEventEvidenceHashes[i] == MARK
    requires e.affectedOrphanedFinalityCertificates[i] == Signed(keccak, ns[i], 1)
    requires e.chainId == "2" && e.blockNumber == 5 && e.orphanedBlockHash == MARK && e.finalityPolicyHash == MARK
    ensures FactOk(keccak, e, i)
  {
    hide Sent, SourceProofHash, CertificateShape, ProofShape, ProofHashShape, ObserverHeaderCommitment, HasRequiredDepth;
    ProofIsCommitted(keccak, ns[i], "2");
    CertificateFits(keccak, ns[i], 1);
    var p := ProofOn(keccak, ns[i], "2");
    assert p.sourceBlockNumber == 5 && p.sourceBlockHash == MARK && p.finalityPolicyHash == MARK;
  }

  lemma EvidenceShape(keccak: Hash, marshal: Reorganization -> Bytes, ns: seq<Nonce>)
    requires 0 < |ns| <= MAX_AFFECTED && Increasing(Ids(keccak, ns))
    ensures EvidenceOk(keccak, Orphaned(keccak, marshal, ns))
  {
    hide ValidEnvelope, ProofOn, Signed, HeaderPreimage, EvidenceBlob, Sent, FactOk, Increasing;
    MarksDiffer();
    var e := Orphaned(keccak, marshal, ns);
    forall i | 0 <= i < |ns| ensures |e.affectedMessageIds[i]| == 32 && FactOk(keccak, e, i) {
      SentIsValid(keccak, ns[i]);
      FactPasses(keccak, e, ns, i);
    }
  }

  lemma HeadersCommitted(keccak: Hash, marshal: Reorganization -> Bytes, ns: seq<Nonce>, kind: HeaderKind)
    requires ns != []
    ensures var e := Orphaned(keccak, marshal, ns);
            ReorganizationHeaderCommitment(keccak, kind, e)
            == Some(if kind == Replacement then e.replacementObserverSignedHeaderCommitment
                    else e.detectedHeadObserverSignedHeaderCommitment)
  {
    hide ProofOn, Signed, StringTail, UintWord, Ascii, EvidenceBlob, Ids, Proofs, Certificates;
  }

  lemma OrphansPass(keccak: Hash, marshal: Reorganization -> Bytes, n: Nonce)
    ensures OrphanPolicy(Service(keccak, marshal), ProofOn(keccak, n, "2"), Chain("2"))
  {
    hide ProofShape, ProofHashShape, HasRequiredDepth, ObserverHeaderCommitment, Sent;
    ProofIsCommitted(keccak, n, "2");
    var p := ProofOn(keccak, n, "2");
    assert p.finalityPolicyHash == MARK && p.headerAuthorityHash == MARK && p.requiredDepth == 1;
  }

  /** Evidence is accepted for any messages in increasing order of their identifiers. */
  lemma EvidencePasses(keccak: Hash, marshal: Reorganization -> Bytes, ns: seq<Nonce>)
    requires 0 < |ns| <= MAX_AFFECTED && Increasing(Ids(keccak, ns))
    ensures ReorganizationCheck(Service(keccak, marshal), Orphaned(keccak, marshal, ns)) == Ok(Done)
  {
    hide EvidenceOk, HeaderPreimage, ReorganizationHeaderCommitment, ProofOn, Signed, Sent, OrphanPolicy, Increasing;
    EvidenceShape(keccak, marshal, ns);
    HeadersCommitted(keccak, marshal, ns, Replacement);
    HeadersCommitted(keccak, marshal, ns, DetectedHead);
    var ctx, e := Service(keccak, marshal), Orphaned(keccak, marshal, ns);
    assert e.(evidenceHash := []) == Unhashed(keccak, ns);
    assert EvidenceBlob(ctx, e) == EvidenceBlob(ctx, Unhashed(keccak, ns));
    forall i | 0 <= i < |ns| ensures OrphanPolicy(ctx, e.affectedOrphanedSourceProofs[i], Chain("2")) {
      OrphansPass(keccak, marshal, ns[i]);
    }
  }

  lemma LegPasses(keccak: Hash, marshal: Reorganization -> Bytes, n: Nonce)
    ensures LegLinked(LegOf(keccak, n)) && LegAccepted(ChecksOf(Service(keccak, marshal)), LegOf(keccak, n))
    ensures LegOf(keccak, n).envelope.routePolicyHash == MARK
  {
    hide SourceCheck, ExecutionShapeCheck, ExecutionCheck, Sent, ExecutionFits, ValidEnvelope;
    MarksDiffer();
    SentIsValid(keccak, n);
    SourcePasses(keccak, marshal, n);
    ExecutionPasses(keccak, marshal, n);
    assert ProofOn(keccak, n, "2").messageId == Sent(keccak, n).messageId;
  }

  lemma EvidenceNames(keccak: Hash, marshal: Reorganization -> Bytes, ns: seq<Nonce>, i: nat)
    requires i < |ns|
    ensures NamesLeg(Orphaned(keccak, marshal, ns), i, LegOf(keccak, ns[i]))
  {
    hide ProofOn, Signed, Sent, HeaderPreimage, EvidenceBlob;
    SentIsValid(keccak, ns[i]);
  }

  lemma EvidenceIsAligned(keccak: Hash, marshal: Reorganization -> Bytes, ns: seq<Nonce>)
    requires 0 < |ns| <= MAX_AFFECTED && Increasing(Ids(keccak, ns))
    ensures Aligned(Orphaned(keccak, marshal, ns))
  {
    hide Aligned, Orphaned, Increasing, ReorganizationCheck;
    EvidencePasses(keccak, marshal, ns);
    AcceptedEvidenceIsAligned(Service(keccak, marshal), Orphaned(keccak, marshal, ns));
  }

  // One message, acknowledged late.

  function TheScript(keccak: Hash, marshal: Reorganization -> Bytes): Script {
    Script(LegOf(keccak, 7), Orphaned(keccak, marshal, [7]), Late(keccak, 7))
  }

  /** The service accepts every step of the script, whatever the hash function. */
  lemma ServiceAccepts(keccak: Hash, marshal: Reorganization -> Bytes)
    ensures Accepts(ChecksOf(Service(keccak, marshal)), TheScript(keccak, marshal))
  {
    hide LegAccepted, AcknowledgementCheck, ReorganizationCheck, LegOf, Orphaned, Late;
    LegPasses(keccak, marshal, 7);
    AcknowledgementPasses(keccak, marshal, 7);
    EvidencePasses(keccak, marshal, [7]);
  }

  lemma ScriptIsLinked(keccak: Hash, marshal: Reorganization -> Bytes)
    ensures Linked(TheScript(keccak, marshal))
  {
    hide ValidEnvelope, Sent, ProofPreimage, HeaderPreimage, EvidenceBlob, ExecutionFits, ProofOn, Aligned;
    LegPasses(keccak, marshal, 7);
    EvidenceIsAligned(keccak, marshal, [7]);
    EvidenceNames(keccak, marshal, [7], 0);
    assert Ids(keccak, [7]) == [Sent(keccak, 7).messageId];
    assert ProofOn(keccak, 7, "2").messageId == Sent(keccak, 7).messageId by { SentProof(keccak); }
    assert Signed(keccak, 7, 1).signerSetVersion != Signed(keccak, 7, 2).signerSetVersion;
  }

  lemma SentProof(keccak: Hash)
    ensures ProofOn(keccak, 7, "2").messageId == Sent(keccak, 7).messageId
  {
    hide Sent;
  }

  // Two messages, one of them removed.

  /** The two nonces in the order of their identifiers. */
  function Pair(keccak: Hash): (ns: seq<Nonce>)
    ensures |ns| == 2
  {
    if Less(Sent(keccak, 7).messageId, Sent(keccak, 8).messageId) then [7, 8] else [8, 7]
  }

  function TheTwin(keccak: Hash, marshal: Reorganization -> Bytes): Twin {
    var ns := Pair(keccak);
    Twin(LegOf(keccak, ns[0]), LegOf(keccak, ns[1]), Orphaned(keccak, marshal, ns))
  }

  lemma PairIncreases(keccak: Hash)
    requires Sent(keccak, 7).messageId != Sent(keccak, 8).messageId
    ensures Increasing(Ids(keccak, Pair(keccak))) && Pair(keccak)[0] != Pair(keccak)[1]
    ensures Sent(keccak, Pair(keccak)[0]).messageId != Sent(keccak, Pair(keccak)[1]).messageId
  {
    hide Sent, Less;
    LessTotal(Sent(keccak, 7).messageId, Sent(keccak, 8).messageId);
  }

  /** Events of different messages, or on different chains, have different keys. */
  lemma KeysDiffer(keccak: Hash, n: Nonce, chainId: string, m: Nonce, otherChain: string)
    requires n != m
    ensures KeyOf(ProofOn(keccak, n, chainId)) != KeyOf(ProofOn(keccak, m, otherChain))
  {
    hide EventKey, Sent;
    var p, q := ProofOn(keccak, n, chainId), ProofOn(keccak, m, otherChain);
    assert p.logIndex == n && q.logIndex == m;
    if KeyOf(p) == KeyOf(q) {
      EventKeyInjective(p.sourceChainId, p.transactionHash, p.logIndex, q.sourceChainId, q.transactionHash, q.logIndex);
    }
  }

  /** The two identifiers differ, or Keccak collides. */
  lemma IdentifiersDiffer(keccak: Hash)
    requires Sent(keccak, 7).messageId == Sent(keccak, 8).messageId
    ensures var e1, e2 := Sent(keccak, 7), Sent(keccak, 8);
            && FieldsValid(e1) && FieldsValid(e2)
            && (|| Collides(keccak, Preimage(e1), Preimage(e2))
                || Collides(keccak, e1.typedActionPayload, e2.typedActionPayload))
  {
    hide Sent, Preimage, FieldsValid, PayloadValid, Collides;
    SentIsValid(keccak, 7);
    SentIsValid(keccak, 8);
    MessageIdDeterminesEnvelope(keccak, Sent(keccak, 7), Sent(keccak, 8));
  }

  lemma TwinIsLinked(keccak: Hash, marshal: Reorganization -> Bytes)
    requires Sent(keccak, 7).messageId != Sent(keccak, 8).messageId
    ensures TwinLinked(TheTwin(keccak, marshal))
  {
    hide Sent, ProofOn, Aligned, Orphaned, NamesLeg, LegLinked, KeyOf, Pair, Increasing, Executed;
    var ns := Pair(keccak);
    PairIncreases(keccak);
    LegPasses(keccak, marshal, ns[0]);
    LegPasses(keccak, marshal, ns[1]);
    EvidenceIsAligned(keccak, marshal, ns);
    EvidenceNames(keccak, marshal, ns, 0);
    EvidenceNames(keccak, marshal, ns, 1);
    KeysDiffer(keccak, ns[1], "1", ns[0], "1");
    KeysDiffer(keccak, ns[1], "1", ns[0], "2");
    KeysDiffer(keccak, ns[1], "2", ns[0], "1");
    KeysDiffer(keccak, ns[1], "2", ns[0], "2");
    TwinIds(keccak, marshal);
  }

  lemma TwinIds(keccak: Hash, marshal: Reorganization -> Bytes)
    ensures var ns := Pair(keccak);
            Orphaned(keccak, marshal, ns).affectedMessageIds
            == [LegId(LegOf(keccak, ns[0])), LegId(LegOf(keccak, ns[1]))]
  {
    hide Sent, ProofOn, Executed, Signed, HeaderPreimage, EvidenceBlob, Pair;
  }

  /** The service accepts both messages, their executions and the evidence. */
  lemma ServiceAcceptsTwin(keccak: Hash, marshal: Reorganization -> Bytes)
    requires Sent(keccak, 7).messageId != Sent(keccak, 8).messageId
    ensures TwinAccepted(ChecksOf(Service(keccak, marshal)), TheTwin(keccak, marshal))
  {
    hide LegAccepted, ReorganizationCheck, LegOf, Orphaned, Pair, Increasing, Sent;
    var ns := Pair(keccak);
    PairIncreases(keccak);
    LegPasses(keccak, marshal, ns[0]);
    LegPasses(keccak, marshal, ns[1]);
    EvidencePasses(keccak, marshal, ns);
  }
}
