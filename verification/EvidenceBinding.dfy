/** What the commitments of the projector bind, and what finality therefore means. */
module EvidenceBinding {
  import opened ByteStrings
  import opened ByteOrder
  import opened Rlp
  import opened Abi
  import opened Envelope
  import opened Projector
  import opened ProjectorInvariant
  import opened RoundTrip
  import opened Restore
  import opened Boundary

  // The signed header commitment.

  /** The header fields an observer signs. */
  predicate SameHeader(p: SourceProof, q: SourceProof) {
    && p.sourceBlockHash == q.sourceBlockHash && p.sourceBlockNumber == q.sourceBlockNumber
    && p.sourceBlockTimestamp == q.sourceBlockTimestamp
    && p.finalityHeadHash == q.finalityHeadHash && p.finalityHeadNumber == q.finalityHeadNumber
    && p.requiredDepth == q.requiredDepth
    && p.headerAuthorityHash == q.headerAuthorityHash && p.finalityPolicyHash == q.finalityPolicyHash
  }

  lemma Uint64WordInjective(m: nat, n: nat)
    requires m < UINT64_LIMIT && n < UINT64_LIMIT && UintWord(m) == UintWord(n)
    ensures m == n
  {
    Pow256Values();
    UintWordInjective(m, n);
  }

  lemma HeaderWordsInjective(p: SourceProof, q: SourceProof)
    requires CommitmentShape(p) && CommitmentShape(q) && HeaderWords(p) == HeaderWords(q)
    ensures SameHeader(p, q)
  {
    hide UintWord;
    var w, v := HeaderWords(p), HeaderWords(q);
    assert w[0] == v[0] && w[1] == v[1] && w[2] == v[2] && w[3] == v[3];
    assert w[4] == v[4] && w[5] == v[5] && w[6] == v[6] && w[7] == v[7];
    Uint64WordInjective(p.sourceBlockNumber, q.sourceBlockNumber);
    Uint64WordInjective(p.finalityHeadNumber, q.finalityHeadNumber);
    Uint64WordInjective(p.requiredDepth, q.requiredDepth);
    SecondsInjective(p.sourceBlockTimestamp.value, q.sourceBlockTimestamp.value);
  }

  lemma ObserverDomainLength()
    ensures |Ascii(OBSERVER_DOMAIN)| == 33
  {
  }

  /** One signed commitment commits to one header, its finality head, depth, authority and
      policy, or Keccak collides on the two preimages. */
  lemma HeaderCommitmentBinds(keccak: Hash, p: SourceProof, q: SourceProof)
    requires ObserverHeaderCommitment(keccak, p).Some?
    requires ObserverHeaderCommitment(keccak, p) == ObserverHeaderCommitment(keccak, q)
    ensures || SameHeader(p, q)
            || Collides(keccak, DomainAndWords(Ascii(OBSERVER_DOMAIN), HeaderWords(p)),
                        DomainAndWords(Ascii(OBSERVER_DOMAIN), HeaderWords(q)))
  {
    hide HeaderWords, UintWord, DomainAndWords, Ascii;
    var domain := Ascii(OBSERVER_DOMAIN);
    ObserverDomainLength();
    Pow256Values();
    if DomainAndWords(domain, HeaderWords(p)) == DomainAndWords(domain, HeaderWords(q)) {
      DomainAndWordsInjective(domain, HeaderWords(p), domain, HeaderWords(q));
      HeaderWordsInjective(p, q);
    }
  }

  // The source proof hash.

  /** Every field of the proof that reaches the contract, the signature included. */
  predicate SameProof(p: SourceProof, q: SourceProof) {
    && SameHeader(p, q)
    && p.transactionHash == q.transactionHash && p.transactionIndex == q.transactionIndex
    && p.receiptRoot == q.receiptRoot && p.receiptProofHash == q.receiptProofHash
    && p.logIndex == q.logIndex && p.eventHash == q.eventHash
    && p.observerSignedHeaderCommitment == q.observerSignedHeaderCommitment
    && p.observerSignature == q.observerSignature
  }

  lemma ProofWordsInjective(p: SourceProof, q: SourceProof)
    requires ProofHashShape(p) && ProofHashShape(q) && ProofWords(p) == ProofWords(q)
    requires p.observerSignature == q.observerSignature
    ensures SameProof(p, q)
  {
    hide UintWord;
    var w, v := ProofWords(p), ProofWords(q);
    assert w[0] == v[0] && w[1] == v[1] && w[2] == v[2] && w[3] == v[3] && w[4] == v[4] && w[5] == v[5];
    assert w[6] == v[6] && w[7] == v[7] && w[8] == v[8] && w[9] == v[9] && w[10] == v[10] && w[11] == v[11];
    assert w[12] == v[12] && w[13] == v[13] && w[15] == v[15];
    Uint64WordInjective(p.sourceBlockNumber, q.sourceBlockNumber);
    Uint64WordInjective(p.transactionIndex, q.transactionIndex);
    Uint64WordInjective(p.logIndex, q.logIndex);
    Uint64WordInjective(p.finalityHeadNumber, q.finalityHeadNumber);
    Uint64WordInjective(p.requiredDepth, q.requiredDepth);
    SecondsInjective(p.sourceBlockTimestamp.value, q.sourceBlockTimestamp.value);
  }

  lemma ProofPreimageInjective(p: SourceProof, q: SourceProof)
    requires ProofHashShape(p) && ProofHashShape(q) && ProofPreimage(p) == ProofPreimage(q)
    requires |p.observerSignature| <= MAX_INT && |q.observerSignature| <= MAX_INT
    ensures SameProof(p, q)
  {
    hide ProofWords, UintWord, StringTail, SameProof;
    Pow256Values();
    var wp, wq := ProofWords(p), ProofWords(q);
    WordsLength(wp);
    WordsLength(wq);
    SplitAt(UintWord(32) + Concat(wp), StringTail(p.observerSignature), UintWord(32) + Concat(wq), StringTail(q.observerSignature));
    SplitAt(UintWord(32), Concat(wp), UintWord(32), Concat(wq));
    WordsInjective(wp, wq);
    assert StringTail(p.observerSignature) + [] == StringTail(q.observerSignature) + [];
    StringTailInjective(p.observerSignature, [], q.observerSignature, []);
    ProofWordsInjective(p, q);
  }

  /** The hash a certificate signs binds every field of the proof, or Keccak collides. */
  lemma SourceProofHashBinds(keccak: Hash, p: SourceProof, q: SourceProof)
    requires SourceProofHash(keccak, p).Some? && SourceProofHash(keccak, p) == SourceProofHash(keccak, q)
    requires |p.observerSignature| <= MAX_INT && |q.observerSignature| <= MAX_INT
    ensures SameProof(p, q) || Collides(keccak, ProofPreimage(p), ProofPreimage(q))
  {
    hide ProofPreimage, SameProof, ProofHashShape;
    if ProofPreimage(p) == ProofPreimage(q) {
      ProofPreimageInjective(p, q);
    }
  }

  /** A certificate is good for one event: whatever proof it is presented with, it
      certifies the same block, transaction, log and event. */
  lemma CertificateBindsEvent(keccak: Hash, p: SourceProof, q: SourceProof, c: Certificate)
    requires ValidSourceCertificate(keccak, p, Some(c)) && ValidSourceCertificate(keccak, q, Some(c))
    requires |p.observerSignature| <= MAX_INT && |q.observerSignature| <= MAX_INT
    ensures p.messageId == q.messageId
    ensures SameProof(p, q) || Collides(keccak, ProofPreimage(p), ProofPreimage(q))
  {
    hide ProofPreimage, SameProof, ProofHashShape, CertificateShape;
    SourceProofHashBinds(keccak, p, q);
  }

  // The reorganization headers.

  predicate SameReorganizationHeader(e: Reorganization, f: Reorganization, kind: HeaderKind) {
    && (IsByteText(e.chainId) && IsByteText(f.chainId) ==> e.chainId == f.chainId) && HeaderBlock(kind, e) == HeaderBlock(kind, f)
    && e.detectedHeadHash == f.detectedHeadHash && e.detectedHeadNumber == f.detectedHeadNumber
    && e.finalityPolicyHash == f.finalityPolicyHash
  }

  lemma HeaderTailInjective(kind: HeaderKind, e: Reorganization, f: Reorganization)
    requires HeaderOk(kind, e) && HeaderOk(kind, f) && HeaderTail(kind, e) == HeaderTail(kind, f)
    requires |e.detectedHeadHash| == |f.detectedHeadHash| == 32
    ensures HeaderBlock(kind, e) == HeaderBlock(kind, f)
    ensures e.detectedHeadHash == f.detectedHeadHash && e.detectedHeadNumber == f.detectedHeadNumber
    ensures e.finalityPolicyHash == f.finalityPolicyHash
  {
    hide UintWord;
    var (h1, n1, a1) := HeaderBlock(kind, e);
    var (h2, n2, a2) := HeaderBlock(kind, f);
    var w := [h1, UintWord(n1), e.detectedHeadHash, UintWord(e.detectedHeadNumber), e.finalityPolicyHash, a1];
    var v := [h2, UintWord(n2), f.detectedHeadHash, UintWord(f.detectedHeadNumber), f.finalityPolicyHash, a2];
    SixWords(h1, UintWord(n1), e.detectedHeadHash, UintWord(e.detectedHeadNumber), e.finalityPolicyHash, a1);
    SixWords(h2, UintWord(n2), f.detectedHeadHash, UintWord(f.detectedHeadNumber), f.finalityPolicyHash, a2);
    WordsInjective(w, v);
    assert w[0] == v[0] && w[1] == v[1] && w[2] == v[2] && w[3] == v[3] && w[4] == v[4] && w[5] == v[5];
    Uint64WordInjective(n1, n2);
    Uint64WordInjective(e.detectedHeadNumber, f.detectedHeadNumber);
  }

  lemma {:induction false} SixWords(a: Bytes, b: Bytes, c: Bytes, d: Bytes, e: Bytes, f: Bytes)
    ensures Concat([a, b, c, d, e, f]) == a + b + c + d + e + f
  {
    var empty: seq<Bytes> := [];
    assert Concat(empty) == [];
    ConcatSnoc(empty, a);
    ConcatSnoc([a], b);
    ConcatSnoc([a, b], c);
    ConcatSnoc([a, b, c], d);
    ConcatSnoc([a, b, c, d], e);
    ConcatSnoc([a, b, c, d, e], f);
    assert empty + [a] == [a];
    assert [a] + [b] == [a, b] && [a, b] + [c] == [a, b, c] && [a, b, c] + [d] == [a, b, c, d];
    assert [a, b, c, d] + [e] == [a, b, c, d, e] && [a, b, c, d, e] + [f] == [a, b, c, d, e, f];
    assert [] + a == a;
  }

  lemma KindNamesDiffer(kind: HeaderKind, other: HeaderKind)
    requires Ascii(KindName(kind)) == Ascii(KindName(other))
    ensures kind == other
  {
    assert |Ascii(KindName(kind))| == |KindName(kind)| && |Ascii(KindName(other))| == |KindName(other)|;
  }

  /** A header signature for one role, chain, block, head and policy is for no other. */
  lemma ReorganizationHeaderBinds(keccak: Hash, kind: HeaderKind, e: Reorganization, other: HeaderKind, f: Reorganization)
    requires ReorganizationHeaderCommitment(keccak, kind, e).Some?
    requires ReorganizationHeaderCommitment(keccak, kind, e) == ReorganizationHeaderCommitment(keccak, other, f)
    requires |e.detectedHeadHash| == |f.detectedHeadHash| == 32
    requires |e.chainId| <= MAX_INT && |f.chainId| <= MAX_INT
    ensures || (kind == other && SameReorganizationHeader(e, f, kind))
            || Collides(keccak, HeaderPreimage(kind, e), HeaderPreimage(other, f))
  {
    hide HeaderOk, HeaderTail, StringTail, Ascii;
    Pow256Values();
    if HeaderPreimage(kind, e) == HeaderPreimage(other, f) {
      var x, y := StringTail(Ascii(e.chainId)) + HeaderTail(kind, e), StringTail(Ascii(f.chainId)) + HeaderTail(other, f);
      StringTailInjective(Ascii(HEADER_DOMAIN), StringTail(Ascii(KindName(kind))) + x,
                          Ascii(HEADER_DOMAIN), StringTail(Ascii(KindName(other))) + y);
      StringTailInjective(Ascii(KindName(kind)), x, Ascii(KindName(other)), y);
      KindNamesDiffer(kind, other);
      StringTailInjective(Ascii(e.chainId), HeaderTail(kind, e), Ascii(f.chainId), HeaderTail(kind, f));
      if IsByteText(e.chainId) && IsByteText(f.chainId) {
        AsciiInjective(e.chainId, f.chainId);
      }
      HeaderTailInjective(kind, e, f);
    }
  }

  // The evidence hash.

  /** Deterministic serialization loses nothing. */
  ghost predicate MarshalInjective(ctx: Context) {
    forall e, f :: ctx.marshal(e) == ctx.marshal(f) ==> e == f
  }

  /** One evidence hash is one reorganization, or Keccak collides on the two blobs. */
  lemma EvidenceHashBinds(ctx: Context, e: Reorganization, f: Reorganization)
    requires MarshalInjective(ctx)
    requires ReorganizationCheck(ctx, e).Ok? && ReorganizationCheck(ctx, f).Ok? && e.evidenceHash == f.evidenceHash
    ensures e == f || Collides(ctx.keccak, EvidenceBlob(ctx, e), EvidenceBlob(ctx, f))
  {
    hide EvidenceOk, EvidencePolicy, Ascii;
    if EvidenceBlob(ctx, e) == EvidenceBlob(ctx, f) {
      SplitAt(Ascii(EVIDENCE_DOMAIN) + [0], ctx.marshal(e.(evidenceHash := [])),
              Ascii(EVIDENCE_DOMAIN) + [0], ctx.marshal(f.(evidenceHash := [])));
      assert e == e.(evidenceHash := []).(evidenceHash := e.evidenceHash);
      assert f == f.(evidenceHash := []).(evidenceHash := f.evidenceHash);
    }
  }

  // The durable form of evidence.

  /** The content-addressed blob of well-formed evidence whose own hash is absent or right. */
  function MarshalBlob(ctx: Context, e: Reorganization): Option<(Bytes, Bytes)> {
    match ReorganizationEvidenceHash(ctx, e)
    case None => None
    case Some(hash) =>
      if e.evidenceHash != [] && e.evidenceHash != hash then None
      else if ctx.keccak(EvidenceBlob(ctx, e)) != hash then None
      else Some((EvidenceBlob(ctx, e), hash))
  }

  /** Reads a blob back: the address first, then the bytes, then every structural check. */
  function UnmarshalBlob(ctx: Context, unmarshal: Bytes -> Option<Reorganization>, blob: Bytes, hash: Bytes)
    : Option<Reorganization>
  {
    var prefix := Ascii(EVIDENCE_DOMAIN) + [0];
    if hash == ZERO32 || |blob| < |prefix| || blob[..|prefix|] != prefix || ctx.keccak(blob) != hash then None
    else
      match unmarshal(blob[|prefix|..])
      case None => None
      case Some(bare) =>
        if bare.evidenceHash != [] then None
        else
          var e := bare.(evidenceHash := hash);
          if ReorganizationEvidenceHash(ctx, e) == Some(hash) then Some(e) else None
  }

  lemma HashIgnoresItself(ctx: Context, e: Reorganization, hash: Bytes)
    ensures ReorganizationEvidenceHash(ctx, e.(evidenceHash := hash)) == ReorganizationEvidenceHash(ctx, e)
    ensures EvidenceBlob(ctx, e.(evidenceHash := hash)) == EvidenceBlob(ctx, e)
  {
    hide CertificateShape, SourceProofHash, Less, WholeSeconds, Ascii;
    var f := e.(evidenceHash := hash);
    assert e.(evidenceHash := []) == f.(evidenceHash := []);
    if EvidenceListsShape(e) {
      assert forall i :: 0 <= i < |e.affectedMessageIds| ==> FactOk(ctx.keccak, e, i) == FactOk(ctx.keccak, f, i);
    }
  }

  /** What is written is read back, with its hash filled in. */
  lemma BlobRoundTrip(ctx: Context, unmarshal: Bytes -> Option<Reorganization>, e: Reorganization)
    requires MarshalBlob(ctx, e).Some? && MarshalBlob(ctx, e).value.1 != ZERO32
    requires unmarshal(ctx.marshal(e.(evidenceHash := []))) == Some(e.(evidenceHash := []))
    ensures var (blob, hash) := MarshalBlob(ctx, e).value;
            UnmarshalBlob(ctx, unmarshal, blob, hash) == Some(e.(evidenceHash := hash))
  {
    hide EvidenceOk, Ascii;
    var (blob, hash) := MarshalBlob(ctx, e).value;
    var prefix := Ascii(EVIDENCE_DOMAIN) + [0];
    HashIgnoresItself(ctx, e, hash);
    assert blob[..|prefix|] == prefix && blob[|prefix|..] == ctx.marshal(e.(evidenceHash := []));
  }

  /** Whatever is read back is the evidence whose canonical blob this is, or Keccak collides:
      a tampered or non-canonical blob is never accepted under another's address. */
  lemma BlobIsCanonical(ctx: Context, unmarshal: Bytes -> Option<Reorganization>, blob: Bytes, hash: Bytes)
    requires UnmarshalBlob(ctx, unmarshal, blob, hash).Some?
    ensures var e := UnmarshalBlob(ctx, unmarshal, blob, hash).value;
            && e.evidenceHash == hash && EvidenceOk(ctx.keccak, e)
            && MarshalBlob(ctx, e) == Some((EvidenceBlob(ctx, e), hash))
            && (blob == EvidenceBlob(ctx, e) || Collides(ctx.keccak, blob, EvidenceBlob(ctx, e)))
  {
    hide EvidenceOk, Ascii;
  }

  // Stored evidence.

  /** No stored evidence hashes to zero, and no two stored pieces of evidence collide. */
  ghost predicate EvidenceHashesWell(ctx: Context, s: State) {
    && (forall e :: e in Evidence(s) ==> ctx.keccak(EvidenceBlob(ctx, e)) != ZERO32)
    && (forall e, f :: e in Evidence(s) && f in Evidence(s) ==>
          !Collides(ctx.keccak, EvidenceBlob(ctx, e), EvidenceBlob(ctx, f)))
  }

  lemma StoredEvidencePassed(ctx: Context, s: State, e: Reorganization)
    requires Inv(ChecksOf(ctx), s) && e in Evidence(s)
    ensures ReorganizationCheck(ctx, e).Ok?
    ensures |e.evidenceHash| == 32 && e.evidenceHash == ctx.keccak(EvidenceBlob(ctx, e))
  {
    hide SourceOk, ExecutionOk, AcknowledgementOk, EventsOk, RoutesOk, Implicated, EvidenceOk, EvidencePolicy, EvidenceBlob;
    var id :| id in s.messages && s.messages[id].reorganization == Some(e);
    assert MessageOk(ChecksOf(ctx), s, s.messages[id]);
  }

  /** So, short of a Keccak accident, evidence hashes do tell reorganizations apart. */
  lemma EvidenceHashesAreUsable(ctx: Context, s: State)
    requires MarshalInjective(ctx) && Inv(ChecksOf(ctx), s) && EvidenceHashesWell(ctx, s)
    ensures HashesUsable(Evidence(s))
  {
    hide Inv, MarshalInjective, ReorganizationCheck, EvidenceBlob, Evidence;
    forall e | e in Evidence(s) ensures Fixed32(e.evidenceHash) != ZERO32 {
      StoredEvidencePassed(ctx, s, e);
    }
    forall e, f | e in Evidence(s) && f in Evidence(s) && Fixed32(e.evidenceHash) == Fixed32(f.evidenceHash)
      ensures e == f
    {
      StoredEvidencePassed(ctx, s, e);
      StoredEvidencePassed(ctx, s, f);
      EvidenceHashBinds(ctx, e, f);
    }
  }

  // What finality means.

  /** A final message of any reachable state: its identifier is the hash of its envelope,
      its certificate signs the hash of its own source proof, its block is confirmed at
      the configured depth, and both chains are configured with the policies it names. */
  lemma FinalityMeans(ctx: Context, s: State, id: Bytes)
    requires Inv(ChecksOf(ctx), s) && id in s.messages && s.messages[id].sourceFinal
    ensures var m := s.messages[id];
            && ValidEnvelope(ctx.keccak, m.envelope) && m.envelope.messageId == id
            && m.envelope.sourceChainId in ctx.chains && m.envelope.destinationChainId in ctx.chains
            && SourcePolicy(m.envelope, m.sourceProof, ctx.chains[m.envelope.sourceChainId],
                            ctx.chains[m.envelope.destinationChainId])
            && ValidSourceCertificate(ctx.keccak, m.sourceProof, m.certificate)
            && ObserverHeaderCommitment(ctx.keccak, m.sourceProof) == Some(m.sourceProof.observerSignedHeaderCommitment)
            && m.sourceProof.sourceBlockNumber + ctx.chains[m.envelope.sourceChainId].requiredDepth
               <= m.sourceProof.finalityHeadNumber
  {
    hide ExecutionOk, AcknowledgementOk, DisputeOk, EventsOk, RoutesOk, ValidEnvelope, SourcePolicy,
      ValidSourceCertificate, ObserverHeaderCommitment;
    var m := s.messages[id];
    assert MessageOk(ChecksOf(ctx), s, m);
    assert SourceCheck(ctx, m.envelope, m.sourceProof, m.certificate) == Ok(Verification(m.sourceEvidenceHash, true));
  }

  /** Two messages ever stored under one identifier have one envelope, or Keccak collides:
      so an execution commit never fails because its message was replaced. */
  lemma IdentifierFixesEnvelope(ctx: Context, s: State, t: State, id: Bytes)
    requires Inv(ChecksOf(ctx), s) && Inv(ChecksOf(ctx), t) && id in s.messages && id in t.messages
    ensures var e, f := s.messages[id].envelope, t.messages[id].envelope;
            && FieldsValid(e) && FieldsValid(f)
            && (|| e == f
                || Collides(ctx.keccak, Preimage(e), Preimage(f))
                || Collides(ctx.keccak, e.typedActionPayload, f.typedActionPayload))
  {
    hide Inv, Preimage, PayloadValid, FieldsValid;
    StoredEnvelopeValid(ctx, s, id);
    StoredEnvelopeValid(ctx, t, id);
    MessageIdDeterminesEnvelope(ctx.keccak, s.messages[id].envelope, t.messages[id].envelope);
  }

  lemma StoredEnvelopeValid(ctx: Context, s: State, id: Bytes)
    requires Inv(ChecksOf(ctx), s) && id in s.messages
    ensures ValidEnvelope(ctx.keccak, s.messages[id].envelope) && s.messages[id].envelope.messageId == id
  {
    hide ExecutionOk, AcknowledgementOk, DisputeOk, EventsOk, RoutesOk, ValidEnvelope, SourcePolicy, SourceVerdict,
      ObserverHeaderCommitment, ProofShape;
    var m := s.messages[id];
    assert MessageOk(ChecksOf(ctx), s, m);
    assert SourceCheck(ctx, m.envelope, m.sourceProof, m.certificate).Ok?;
  }
}
