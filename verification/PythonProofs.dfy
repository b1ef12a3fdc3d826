/** The release checker's own hashes of source proofs and observed headers, and their
    agreement with the coordinator's. */
module PythonProofs {
  import opened ByteStrings
  import opened HexText
  import opened Rlp
  import opened Abi
  import opened MessageEncoders
  import opened Projector
  import opened Boundary

  /** A proof as the release evidence states it: integers and hexadecimal text. */
  datatype EvidenceProof = EvidenceProof(
    sourceBlockHash: string, sourceBlockNumber: int, sourceBlockTimestamp: int, transactionHash: string,
    transactionIndex: int, receiptRoot: string, receiptProofHash: string, logIndex: int, eventHash: string,
    finalityHeadHash: string, finalityHeadNumber: int, requiredDepth: int, headerAuthorityHash: string,
    observerSignature: string, finalityPolicyHash: string, observerSignedHeaderCommitment: string)

  /** Lower-case hexadecimal text of any number of bytes but none. */
  function HexBytes(text: string): (r: Option<Bytes>) {
    if |text| < 2 || |text| % 2 != 0 || FixedHex(text, (|text| - 2) / 2, true) == Some([]) then None
    else FixedHex(text, (|text| - 2) / 2, true)
  }

  function EvidenceHeaderWords(v: EvidenceProof): (words: seq<Option<Bytes>>)
    ensures |words| == 8
  {
    [NonzeroWord(v.sourceBlockHash),
     UintBelow(v.sourceBlockNumber, UINT64_LIMIT),
     UintBelow(v.sourceBlockTimestamp, UINT64_LIMIT),
     NonzeroWord(v.finalityHeadHash),
     UintBelow(v.finalityHeadNumber, UINT64_LIMIT),
     UintBelow(v.requiredDepth, UINT64_LIMIT),
     NonzeroWord(v.headerAuthorityHash),
     NonzeroWord(v.finalityPolicyHash)]
  }

  function EvidenceEventWords(v: EvidenceProof): (words: seq<Option<Bytes>>)
    ensures |words| == 9
  {
    [NonzeroWord(v.sourceBlockHash),
     UintBelow(v.sourceBlockNumber, UINT64_LIMIT),
     UintBelow(v.sourceBlockTimestamp, UINT64_LIMIT),
     NonzeroWord(v.transactionHash),
     UintBelow(v.transactionIndex, UINT32_LIMIT),
     NonzeroWord(v.receiptRoot),
     NonzeroWord(v.receiptProofHash),
     UintBelow(v.logIndex, UINT32_LIMIT),
     NonzeroWord(v.eventHash)]
  }

  function EvidenceFinalityWords(v: EvidenceProof): (words: seq<Option<Bytes>>)
    ensures |words| == 7
  {
    [NonzeroWord(v.finalityHeadHash),
     UintBelow(v.finalityHeadNumber, UINT64_LIMIT),
     UintBelow(v.requiredDepth, UINT64_LIMIT),
     NonzeroWord(v.headerAuthorityHash),
     NonzeroWord(v.observerSignedHeaderCommitment),
     UintBelow(16 * 32, UINT256_LIMIT),
     NonzeroWord(v.finalityPolicyHash)]
  }

  /** What the checker hashes for an observed header. */
  function EvidenceCommitmentPreimage(v: EvidenceProof): Option<Bytes> {
    var words, domain := EvidenceHeaderWords(v), Ascii("UNIFIED_OBSERVER_SIGNED_HEADER_V1");
    if AllSome(words) then Some(PaddedDomain(domain, Values(words), NegatedPadding(|domain|))) else None
  }

  function PaddedBytes(value: Bytes): Bytes {
    UintWord(|value|) + value + Zeros(NegatedPadding(|value|))
  }

  /** What the checker hashes for a proof: one offset, the head and the signature. */
  function EvidenceProofPreimage(v: EvidenceProof): Option<Bytes> {
    var words := EvidenceEventWords(v) + EvidenceFinalityWords(v);
    match HexBytes(v.observerSignature)
    case None => None
    case Some(signature) =>
      if AllSome(words) then Some(UintWord(32) + (Concat(Values(words)) + PaddedBytes(signature))) else None
  }

  // Agreement.

  /** The evidence states this proof. */
  predicate StatesProof(v: EvidenceProof, p: SourceProof)
    requires CommitmentShape(p)
  {
    && v.sourceBlockHash == Hex0x(p.sourceBlockHash) && v.sourceBlockNumber == p.sourceBlockNumber
    && v.sourceBlockTimestamp == p.sourceBlockTimestamp.value.seconds
    && v.transactionHash == Hex0x(p.transactionHash) && v.transactionIndex == p.transactionIndex
    && v.receiptRoot == Hex0x(p.receiptRoot) && v.receiptProofHash == Hex0x(p.receiptProofHash)
    && v.logIndex == p.logIndex && v.eventHash == Hex0x(p.eventHash)
    && v.finalityHeadHash == Hex0x(p.finalityHeadHash) && v.finalityHeadNumber == p.finalityHeadNumber
    && v.requiredDepth == p.requiredDepth && v.headerAuthorityHash == Hex0x(p.headerAuthorityHash)
    && v.observerSignature == Hex0x(p.observerSignature) && v.finalityPolicyHash == Hex0x(p.finalityPolicyHash)
    && v.observerSignedHeaderCommitment == Hex0x(p.observerSignedHeaderCommitment)
  }

  predicate NoZeroHeader(p: SourceProof) {
    && p.sourceBlockHash != ZERO32 && p.finalityHeadHash != ZERO32
    && p.headerAuthorityHash != ZERO32 && p.finalityPolicyHash != ZERO32
  }

  predicate NoZeroHash(p: SourceProof) {
    && NoZeroHeader(p)
    && p.transactionHash != ZERO32 && p.receiptRoot != ZERO32 && p.receiptProofHash != ZERO32
    && p.eventHash != ZERO32 && p.observerSignedHeaderCommitment != ZERO32
  }

  lemma BytesRead(b: Bytes)
    ensures HexBytes(Hex0x(b)) == if b == [] then None else Some(b)
  {
    FixedHexOfHex0x(b, true);
    assert |Hex0x(b)| == 2 + 2 * |b|;
  }

  lemma PaddedBytesIsTail(b: Bytes)
    ensures PaddedBytes(b) == StringTail(b)
  {
    hide UintWord;
    PaddingsAgree(|b|);
  }

  lemma HeaderWordsAgree(v: EvidenceProof, p: SourceProof)
    requires CommitmentShape(p) && StatesProof(v, p)
    ensures AllSome(EvidenceHeaderWords(v)) <==> NoZeroHeader(p)
    ensures AllSome(EvidenceHeaderWords(v)) ==> Values(EvidenceHeaderWords(v)) == HeaderWords(p)
  {
    hide UintWord, NonzeroWord, Hex0x;
    NonzeroWordReads(p.sourceBlockHash);
    NonzeroWordReads(p.finalityHeadHash);
    NonzeroWordReads(p.headerAuthorityHash);
    NonzeroWordReads(p.finalityPolicyHash);
    var w := EvidenceHeaderWords(v);
    if AllSome(w) {
      assert w[0].Some? && w[3].Some? && w[6].Some? && w[7].Some?;
    }
  }

  /** The checker derives the coordinator's header commitment, and refuses exactly the
      headers with a zero hash. */
  lemma CommitmentsAgree(keccak: Hash, v: EvidenceProof, p: SourceProof)
    requires CommitmentShape(p) && StatesProof(v, p)
    ensures EvidenceCommitmentPreimage(v).Some? <==> NoZeroHeader(p)
    ensures EvidenceCommitmentPreimage(v).Some? ==>
              ObserverHeaderCommitment(keccak, p) == Some(keccak(EvidenceCommitmentPreimage(v).value))
  {
    hide EvidenceHeaderWords, HeaderWords, UintWord, Ascii, DomainAndWords, StatesProof;
    HeaderWordsAgree(v, p);
    var domain := Ascii(OBSERVER_DOMAIN);
    PaddingsAgree(|domain|);
    PaddedDomainIsCanonical(domain, HeaderWords(p), NegatedPadding(|domain|));
  }

  lemma EventWordsAgree(v: EvidenceProof, p: SourceProof)
    requires ProofHashShape(p) && StatesProof(v, p)
    ensures AllSome(EvidenceEventWords(v)) <==>
            && p.sourceBlockHash != ZERO32 && p.transactionHash != ZERO32 && p.receiptRoot != ZERO32
            && p.receiptProofHash != ZERO32 && p.eventHash != ZERO32
    ensures AllSome(EvidenceEventWords(v)) ==> Values(EvidenceEventWords(v)) == ProofWords(p)[..9]
  {
    hide UintWord, NonzeroWord, Hex0x;
    NonzeroWordReads(p.sourceBlockHash);
    NonzeroWordReads(p.transactionHash);
    NonzeroWordReads(p.receiptRoot);
    NonzeroWordReads(p.receiptProofHash);
    NonzeroWordReads(p.eventHash);
    var w := EvidenceEventWords(v);
    if AllSome(w) {
      assert w[0].Some? && w[3].Some? && w[5].Some? && w[6].Some? && w[8].Some?;
    }
  }

  lemma FinalityWordsAgree(v: EvidenceProof, p: SourceProof)
    requires ProofHashShape(p) && StatesProof(v, p)
    ensures AllSome(EvidenceFinalityWords(v)) <==>
            && p.finalityHeadHash != ZERO32 && p.headerAuthorityHash != ZERO32
            && p.observerSignedHeaderCommitment != ZERO32 && p.finalityPolicyHash != ZERO32
    ensures AllSome(EvidenceFinalityWords(v)) ==> Values(EvidenceFinalityWords(v)) == ProofWords(p)[9..]
  {
    hide UintWord, NonzeroWord, Hex0x;
    SmallWord(16 * 32);
    NonzeroWordReads(p.finalityHeadHash);
    NonzeroWordReads(p.headerAuthorityHash);
    NonzeroWordReads(p.observerSignedHeaderCommitment);
    NonzeroWordReads(p.finalityPolicyHash);
    var w := EvidenceFinalityWords(v);
    if AllSome(w) {
      assert w[0].Some? && w[3].Some? && w[4].Some? && w[6].Some?;
    }
  }

  /** The checker derives the coordinator's proof hash, and refuses exactly the proofs with a
      zero hash. */
  lemma ProofHashesAgree(keccak: Hash, v: EvidenceProof, p: SourceProof)
    requires ProofHashShape(p) && StatesProof(v, p)
    ensures EvidenceProofPreimage(v).Some? <==> NoZeroHash(p)
    ensures EvidenceProofPreimage(v).Some? ==>
              SourceProofHash(keccak, p) == Some(keccak(EvidenceProofPreimage(v).value))
  {
    hide EvidenceEventWords, EvidenceFinalityWords, ProofWords, UintWord, HexBytes, PaddedBytes, StringTail, Hex0x;
    var a, b := EvidenceEventWords(v), EvidenceFinalityWords(v);
    EventWordsAgree(v, p);
    FinalityWordsAgree(v, p);
    BytesRead(p.observerSignature);
    PaddedBytesIsTail(p.observerSignature);
    if AllSome(a + b) {
      SomeParts(a, b);
    }
    if AllSome(a) && AllSome(b) {
      ValuesAppend(a, b);
      assert ProofWords(p)[..9] + ProofWords(p)[9..] == ProofWords(p);
      var head, tail := Concat(ProofWords(p)), StringTail(p.observerSignature);
      assert UintWord(32) + (head + tail) == UintWord(32) + head + tail;
    }
  }
}
