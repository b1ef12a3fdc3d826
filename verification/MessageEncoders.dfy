/** The message-ID preimage as three programs build it: the Go coordinator, the
    TypeScript codec and the Python release checker. Where all accept an envelope,
    all build the same bytes. */
module MessageEncoders {
  import opened ByteStrings
  import opened HexText
  import opened Rlp
  import opened Abi
  import opened Envelope

  // Checked words.

  function ExactBytes(value: Bytes, length: nat): Option<Bytes> {
    if |value| == length then Some(value) else None
  }

  function UintBelow(value: int, limit: nat): Option<Bytes> {
    if 0 <= value < limit then Some(UintWord(value)) else None
  }

  function CheckedAddress(value: Bytes): Option<Bytes> {
    if |value| == 20 then Some(Zeros(12) + value) else None
  }

  predicate AllSome(words: seq<Option<Bytes>>) {
    forall i :: 0 <= i < |words| ==> words[i].Some?
  }

  function Values(words: seq<Option<Bytes>>): (values: seq<Bytes>)
    requires AllSome(words)
    ensures |values| == |words|
    ensures forall i :: 0 <= i < |words| ==> values[i] == words[i].value
  {
    seq(|words|, i requires 0 <= i < |words| => words[i].value)
  }

  // Three ways to compute the padding; `Padding` takes the complement of the remainder.

  /** From the remainder of the whole tail, length word included. */
  function RemainderPadding(n: nat): nat {
    if (32 + n) % 32 != 0 then 32 - (32 + n) % 32 else 0
  }

  /** From the negated length, as a floored remainder or as its low five bits. */
  function NegatedPadding(n: nat): nat {
    (0 - n) % 32
  }

  lemma PaddingsAgree(n: nat)
    ensures RemainderPadding(n) == NegatedPadding(n) == Padding(n)
  {
    var q, r := n / 32, n % 32;
    assert n == 32 * q + r;
    if r == 0 {
      assert 0 - n == 32 * (-q);
    } else {
      assert 0 - n == 32 * (-q - 1) + (32 - r);
    }
    NegatedRemainder(n, if r == 0 then -q else -q - 1, if r == 0 then 0 else 32 - r);
  }

  lemma NegatedRemainder(n: nat, q: int, r: nat)
    requires 0 - n == 32 * q + r && r < 32
    ensures (0 - n) % 32 == r
  {
  }

  /** A dynamic domain and static words, with the padding computed as given. */
  function PaddedDomain(domain: Bytes, words: seq<Bytes>, padding: nat): Bytes {
    UintWord((|words| + 1) * 32) + Concat(words) + (UintWord(|domain|) + domain + Zeros(padding))
  }

  lemma PaddedDomainIsCanonical(domain: Bytes, words: seq<Bytes>, padding: nat)
    requires padding == Padding(|domain|)
    ensures PaddedDomain(domain, words, padding) == DomainAndWords(domain, words)
  {
  }

  // Go.

  /** The identifier exists exactly for well-formed envelopes and is the hash of the preimage. */
  method ComputeId(keccak: Hash, e: Envelope) returns (id: Option<Bytes>)
    ensures id == ComputeMessageId(keccak, e)
  {
    hide PayloadValid, FieldsValid, Preimage;
    if !Wellformed(keccak, e, false) {
      return None;
    }
    var encoded := ComputePreimage(e);
    return Some(keccak(encoded));
  }

  /** The head is appended word by word, then the padded tag. */
  method ComputePreimage(e: Envelope) returns (encoded: Bytes)
    requires FieldsValid(e)
    ensures encoded == Preimage(e)
  {
    hide UintWord, Uint256, DomainAndWords, Ascii;
    var identity := UintWord(e.schemaVersion) + e.protocolId + UintWord(Uint256(e.sourceChainId).value)
      + AddressWord(e.sourceCoordinator) + AddressWord(e.sourceComponent)
      + UintWord(Uint256(e.destinationChainId).value)
      + AddressWord(e.destinationCoordinator) + AddressWord(e.destinationComponent)
      + e.laneId + UintWord(e.sourceNonce) + e.aggregateId;
    var causality := UintWord(Uint64Of(e.actionType)) + e.payloadHash
      + UintWord(e.createdAt.value.seconds) + UintWord(e.expiresAt.value.seconds)
      + e.routePolicyHash + e.adapterSetPolicyHash + e.sourceFinalityPolicyHash + e.destinationFinalityPolicyHash
      + e.correlationId + e.causationMessageId + e.supersededMessageId;
    var tag := Ascii(MESSAGE_DOMAIN);
    var tail := UintWord(|tag|) + tag;
    var remainder := |tail| % 32;
    if remainder != 0 {
      tail := tail + Zeros(32 - remainder);
    } else {
      tail := tail + Zeros(0);
    }
    encoded := UintWord(23 * 32) + (identity + causality) + tail;
    HeadIsWords(e, identity, causality);
    PaddingsAgree(|tag|);
    PaddedDomainIsCanonical(tag, PreimageWords(e), RemainderPadding(|tag|));
  }

  lemma {:induction false} ElevenWords(w: seq<Bytes>)
    requires |w| == 11
    ensures Concat(w) == w[0] + w[1] + w[2] + w[3] + w[4] + w[5] + w[6] + w[7] + w[8] + w[9] + w[10]
  {
    hide Concat;
    FirstWords(w, 11);
    FirstWords(w, 10);
    FirstWords(w, 9);
    FirstWords(w, 8);
    FirstWords(w, 7);
    FirstWords(w, 6);
    FirstWords(w, 5);
    FirstWords(w, 4);
    FirstWords(w, 3);
    FirstWords(w, 2);
    FirstWords(w, 1);
    NoWords(w);
    assert [] + w[0] == w[0];
    assert w[..11] == w;
  }

  lemma NoWords(w: seq<Bytes>)
    ensures Concat(w[..0]) == []
  {
  }

  lemma FirstWords(w: seq<Bytes>, n: nat)
    requires 0 < n <= |w|
    ensures Concat(w[..n]) == Concat(w[..n - 1]) + w[n - 1]
  {
    assert w[..n] == w[..n - 1] + [w[n - 1]];
    ConcatSnoc(w[..n - 1], w[n - 1]);
  }

  lemma HeadIsWords(e: Envelope, identity: Bytes, causality: Bytes)
    requires FieldsValid(e)
    requires var w := IdentityWords(e);
             identity == w[0] + w[1] + w[2] + w[3] + w[4] + w[5] + w[6] + w[7] + w[8] + w[9] + w[10]
    requires var w := CausalityWords(e);
             causality == w[0] + w[1] + w[2] + w[3] + w[4] + w[5] + w[6] + w[7] + w[8] + w[9] + w[10]
    ensures identity + causality == Concat(PreimageWords(e)) && |PreimageWords(e)| == 22
  {
    hide UintWord, Uint256, FieldsValid, IdentityWords, CausalityWords, Concat;
    WordCounts(e);
    ElevenWords(IdentityWords(e));
    ElevenWords(CausalityWords(e));
    ConcatAppend(IdentityWords(e), CausalityWords(e));
  }

  lemma WordCounts(e: Envelope)
    requires FieldsValid(e)
    ensures |IdentityWords(e)| == 11 && |CausalityWords(e)| == 11
  {
  }

  lemma ConcatAppend(a: seq<Bytes>, b: seq<Bytes>)
    ensures Concat(a + b) == Concat(a) + Concat(b)
  {
    ConcatSplit(a + b, |a|);
    assert (a + b)[..|a|] == a && (a + b)[|a|..] == b;
  }

  // TypeScript.

  /** How the codec reads a chain identifier: the value of a canonical decimal, and
      whatever it does elsewhere. */
  ghost predicate ReadsDecimals(bigInt: string -> Option<int>) {
    forall s :: Uint256(s).Some? ==> bigInt(s) == Some(Uint256(s).value)
  }

  function ChainWord(bigInt: string -> Option<int>, chainId: string): Option<Bytes> {
    if bigInt(chainId).Some? then UintBelow(bigInt(chainId).value, UINT256_LIMIT) else None
  }

  function CodecIdentityWords(bigInt: string -> Option<int>, e: Envelope): seq<Option<Bytes>> {
    [UintBelow(e.schemaVersion, UINT256_LIMIT),
     ExactBytes(e.protocolId, 32),
     ChainWord(bigInt, e.sourceChainId),
     CheckedAddress(e.sourceCoordinator),
     CheckedAddress(e.sourceComponent),
     ChainWord(bigInt, e.destinationChainId),
     CheckedAddress(e.destinationCoordinator),
     CheckedAddress(e.destinationComponent),
     ExactBytes(e.laneId, 32),
     UintBelow(e.sourceNonce, UINT256_LIMIT),
     ExactBytes(e.aggregateId, 32)]
  }

  function CodecCausalityWords(e: Envelope): seq<Option<Bytes>>
    requires e.createdAt.Some? && e.expiresAt.Some?
  {
    [UintBelow(e.actionType, UINT256_LIMIT),
     ExactBytes(e.payloadHash, 32),
     UintBelow(e.createdAt.value.seconds, UINT256_LIMIT),
     UintBelow(e.expiresAt.value.seconds, UINT256_LIMIT),
     ExactBytes(e.routePolicyHash, 32),
     ExactBytes(e.adapterSetPolicyHash, 32),
     ExactBytes(e.sourceFinalityPolicyHash, 32),
     ExactBytes(e.destinationFinalityPolicyHash, 32),
     ExactBytes(e.correlationId, 32),
     ExactBytes(e.causationMessageId, 32),
     ExactBytes(e.supersededMessageId, 32)]
  }

  /** The codec validates nothing but presence, widths and ranges. */
  function CodecPreimage(bigInt: string -> Option<int>, e: Envelope): Option<Bytes> {
    if e.createdAt.None? || e.expiresAt.None? then None
    else
      var words := CodecIdentityWords(bigInt, e) + CodecCausalityWords(e);
      var domain := Ascii(MESSAGE_DOMAIN);
      if AllSome(words) then Some(PaddedDomain(domain, Values(words), Padding(|domain|))) else None
  }

  lemma SmallWord(n: nat)
    requires n < UINT64_LIMIT
    ensures UintBelow(n, UINT256_LIMIT) == Some(UintWord(n))
  {
    Pow256Values();
  }

  lemma CodecIdentity(bigInt: string -> Option<int>, e: Envelope)
    requires FieldsValid(e) && ReadsDecimals(bigInt)
    ensures AllSome(CodecIdentityWords(bigInt, e)) && Values(CodecIdentityWords(bigInt, e)) == IdentityWords(e)
  {
    hide UintWord, Uint256, UintBelow;
    SmallWord(e.schemaVersion);
    SmallWord(e.sourceNonce);
    ChainWordReads(bigInt, e.sourceChainId);
    ChainWordReads(bigInt, e.destinationChainId);
  }

  lemma ChainWordReads(bigInt: string -> Option<int>, chainId: string)
    requires ReadsDecimals(bigInt) && Uint256(chainId).Some?
    ensures ChainWord(bigInt, chainId) == Some(UintWord(Uint256(chainId).value))
  {
  }

  lemma CodecCausality(e: Envelope)
    requires FieldsValid(e) && 0 <= e.actionType < UINT64_LIMIT
    ensures AllSome(CodecCausalityWords(e)) && Values(CodecCausalityWords(e)) == CausalityWords(e)
  {
    hide UintWord, Uint256, UintBelow;
    SmallWord(e.actionType);
    SmallWord(e.createdAt.value.seconds);
    SmallWord(e.expiresAt.value.seconds);
  }

  lemma ValuesAppend(a: seq<Option<Bytes>>, b: seq<Option<Bytes>>)
    requires AllSome(a) && AllSome(b)
    ensures AllSome(a + b) && Values(a + b) == Values(a) + Values(b)
  {
  }

  /** Whatever envelope the coordinator accepts, the codec accepts, and their preimages
      are the same bytes. */
  lemma CodecAgrees(bigInt: string -> Option<int>, e: Envelope)
    requires FieldsValid(e) && 0 <= e.actionType < UINT64_LIMIT && ReadsDecimals(bigInt)
    ensures CodecPreimage(bigInt, e) == Some(Preimage(e))
  {
    hide UintWord, Uint256, CodecIdentityWords, CodecCausalityWords, IdentityWords, CausalityWords, Ascii, DomainAndWords,
      ReadsDecimals;
    CodecIdentity(bigInt, e);
    CodecCausality(e);
    ValuesAppend(CodecIdentityWords(bigInt, e), CodecCausalityWords(e));
    var domain := Ascii(MESSAGE_DOMAIN);
    PaddingsAgree(|domain|);
    PaddedDomainIsCanonical(domain, PreimageWords(e), Padding(|domain|));
  }

  // Python.

  /** The envelope as the release evidence states it: integers and hexadecimal text. */
  datatype EvidenceEnvelope = EvidenceEnvelope(
    schemaVersion: int, protocolId: string, sourceChainId: int, sourceCoordinator: string, sourceComponent: string,
    destinationChainId: int, destinationCoordinator: string, destinationComponent: string, laneId: string,
    sourceNonce: int, aggregateId: string, actionOrdinal: int, payloadHash: string, createdAt: int, expiresAt: int,
    routePolicyHash: string, adapterSetPolicyHash: string, sourceFinalityPolicyHash: string,
    destinationFinalityPolicyHash: string, correlationId: string, causationMessageId: string, supersededMessageId: string)

  function PositiveWord(value: int, limit: nat): Option<Bytes> {
    if value < 1 then None else UintBelow(value, limit)
  }

  /** A 32-byte word that must not be zero. */
  function NonzeroWord(text: string): Option<Bytes> {
    match FixedHex(text, 32, true)
    case None => None
    case Some(b) => if b == ZERO32 then None else Some(b)
  }

  predicate IsPlaceholder(address: Bytes) {
    (forall i, j :: 0 <= i < |address| && 0 <= j < |address| ==> address[i] == address[j])
    || FromBigEndian(address) <= 0xffff
  }

  function RealAddressWord(text: string): Option<Bytes> {
    match FixedHex(text, 20, true)
    case None => None
    case Some(b) => if IsPlaceholder(b) then None else Some(Zeros(12) + b)
  }

  const UINT8_LIMIT: nat := 256

  function EvidenceIdentityWords(v: EvidenceEnvelope): seq<Option<Bytes>> {
    [PositiveWord(v.schemaVersion, UINT32_LIMIT),
     NonzeroWord(v.protocolId),
     PositiveWord(v.sourceChainId, UINT256_LIMIT),
     RealAddressWord(v.sourceCoordinator),
     RealAddressWord(v.sourceComponent),
     PositiveWord(v.destinationChainId, UINT256_LIMIT),
     RealAddressWord(v.destinationCoordinator),
     RealAddressWord(v.destinationComponent),
     NonzeroWord(v.laneId),
     PositiveWord(v.sourceNonce, UINT64_LIMIT),
     NonzeroWord(v.aggregateId)]
  }

  function EvidenceCausalityWords(v: EvidenceEnvelope): seq<Option<Bytes>> {
    [PositiveWord(v.actionOrdinal, UINT8_LIMIT),
     NonzeroWord(v.payloadHash),
     PositiveWord(v.createdAt, UINT64_LIMIT),
     PositiveWord(v.expiresAt, UINT64_LIMIT),
     NonzeroWord(v.routePolicyHash),
     NonzeroWord(v.adapterSetPolicyHash),
     NonzeroWord(v.sourceFinalityPolicyHash),
     NonzeroWord(v.destinationFinalityPolicyHash),
     NonzeroWord(v.correlationId),
     FixedHex(v.causationMessageId, 32, true),
     FixedHex(v.supersededMessageId, 32, true)]
  }

  function EvidencePreimage(v: EvidenceEnvelope): Option<Bytes> {
    var words := EvidenceIdentityWords(v) + EvidenceCausalityWords(v);
    var domain := Ascii(MESSAGE_DOMAIN);
    if AllSome(words) then Some(PaddedDomain(domain, Values(words), NegatedPadding(|domain|))) else None
  }

  /** The evidence states this envelope. */
  predicate States(v: EvidenceEnvelope, e: Envelope)
    requires FieldsValid(e)
  {
    && v.schemaVersion == e.schemaVersion && v.protocolId == Hex0x(e.protocolId)
    && v.sourceChainId == Uint256(e.sourceChainId).value && v.destinationChainId == Uint256(e.destinationChainId).value
    && v.sourceCoordinator == Hex0x(e.sourceCoordinator) && v.sourceComponent == Hex0x(e.sourceComponent)
    && v.destinationCoordinator == Hex0x(e.destinationCoordinator)
    && v.destinationComponent == Hex0x(e.destinationComponent)
    && v.laneId == Hex0x(e.laneId) && v.sourceNonce == e.sourceNonce && v.aggregateId == Hex0x(e.aggregateId)
    && v.actionOrdinal == e.actionType && v.payloadHash == Hex0x(e.payloadHash)
    && v.createdAt == e.createdAt.value.seconds && v.expiresAt == e.expiresAt.value.seconds
    && v.routePolicyHash == Hex0x(e.routePolicyHash) && v.adapterSetPolicyHash == Hex0x(e.adapterSetPolicyHash)
    && v.sourceFinalityPolicyHash == Hex0x(e.sourceFinalityPolicyHash)
    && v.destinationFinalityPolicyHash == Hex0x(e.destinationFinalityPolicyHash)
    && v.correlationId == Hex0x(e.correlationId) && v.causationMessageId == Hex0x(e.causationMessageId)
    && v.supersededMessageId == Hex0x(e.supersededMessageId)
  }

  lemma NonzeroWordReads(b: Bytes)
    requires |b| == 32
    ensures NonzeroWord(Hex0x(b)) == if b == ZERO32 then None else Some(b)
  {
    FixedHexOfHex0x(b, true);
  }

  lemma RealAddressReads(b: Bytes)
    requires |b| == 20
    ensures RealAddressWord(Hex0x(b)) == if IsPlaceholder(b) then None else Some(AddressWord(b))
  {
    FixedHexOfHex0x(b, true);
  }

  /** What the checker refuses beyond the coordinator: zero hashes and placeholder addresses
      of the identity, */
  predicate RealIdentity(e: Envelope) {
    && e.protocolId != ZERO32 && e.laneId != ZERO32 && e.aggregateId != ZERO32
    && !IsPlaceholder(e.sourceCoordinator) && !IsPlaceholder(e.sourceComponent)
    && !IsPlaceholder(e.destinationCoordinator) && !IsPlaceholder(e.destinationComponent)
  }

  /** and zero hashes, actions beyond a byte and a creation at the epoch. */
  predicate RealCausality(e: Envelope) {
    && 0 < e.actionType < UINT8_LIMIT && e.createdAt.Some? && 0 < e.createdAt.value.seconds
    && e.payloadHash != ZERO32 && e.routePolicyHash != ZERO32 && e.adapterSetPolicyHash != ZERO32
    && e.sourceFinalityPolicyHash != ZERO32 && e.destinationFinalityPolicyHash != ZERO32 && e.correlationId != ZERO32
  }

  lemma EvidenceIdentity(v: EvidenceEnvelope, e: Envelope)
    requires FieldsValid(e) && States(v, e)
    ensures AllSome(EvidenceIdentityWords(v)) <==> RealIdentity(e)
    ensures AllSome(EvidenceIdentityWords(v)) ==> Values(EvidenceIdentityWords(v)) == IdentityWords(e)
  {
    hide UintWord, Uint256, NonzeroWord, RealAddressWord, Hex0x, AddressWord, IsPlaceholder;
    ChainInRange(e.sourceChainId);
    ChainInRange(e.destinationChainId);
    var w := EvidenceIdentityWords(v);
    if AllSome(w) {
      assert w[1].Some? && w[3].Some? && w[4].Some? && w[6].Some? && w[7].Some? && w[8].Some? && w[10].Some?;
    }
    NonzeroWordReads(e.protocolId);
    RealAddressReads(e.sourceCoordinator);
    RealAddressReads(e.sourceComponent);
    RealAddressReads(e.destinationCoordinator);
    RealAddressReads(e.destinationComponent);
    NonzeroWordReads(e.laneId);
    NonzeroWordReads(e.aggregateId);
  }

  lemma EvidenceCausality(v: EvidenceEnvelope, e: Envelope)
    requires FieldsValid(e) && States(v, e)
    ensures AllSome(EvidenceCausalityWords(v)) <==> RealCausality(e)
    ensures AllSome(EvidenceCausalityWords(v)) ==> Values(EvidenceCausalityWords(v)) == CausalityWords(e)
  {
    hide UintWord, Uint256, NonzeroWord, FixedHex, Hex0x;
    var w := EvidenceCausalityWords(v);
    if AllSome(w) {
      assert w[0].Some? && w[1].Some? && w[2].Some? && w[3].Some? && w[4].Some?;
      assert w[5].Some? && w[6].Some? && w[7].Some? && w[8].Some?;
    }
    NonzeroWordReads(e.payloadHash);
    NonzeroWordReads(e.routePolicyHash);
    NonzeroWordReads(e.adapterSetPolicyHash);
    NonzeroWordReads(e.sourceFinalityPolicyHash);
    NonzeroWordReads(e.destinationFinalityPolicyHash);
    NonzeroWordReads(e.correlationId);
    FixedHexOfHex0x(e.causationMessageId, true);
    FixedHexOfHex0x(e.supersededMessageId, true);
  }

  lemma ChainInRange(chainId: string)
    requires Uint256(chainId).Some?
    ensures 0 < Uint256(chainId).value < UINT256_LIMIT
  {
  }

  /** Of the envelopes the coordinator accepts, the release checker accepts exactly those
      without zero hashes, placeholder addresses, actions beyond a byte or a creation at the
      epoch, and it hashes the same bytes. */
  lemma EvidenceAgrees(v: EvidenceEnvelope, e: Envelope)
    requires FieldsValid(e) && States(v, e)
    ensures EvidencePreimage(v) == if RealIdentity(e) && RealCausality(e) then Some(Preimage(e)) else None
  {
    hide UintWord, Uint256, EvidenceIdentityWords, EvidenceCausalityWords, IdentityWords, CausalityWords, Ascii,
      DomainAndWords, FieldsValid, States, RealIdentity, RealCausality;
    var a, b := EvidenceIdentityWords(v), EvidenceCausalityWords(v);
    EvidenceIdentity(v, e);
    EvidenceCausality(v, e);
    if AllSome(a + b) {
      SomeParts(a, b);
    }
    if AllSome(a) && AllSome(b) {
      ValuesAppend(a, b);
    }
    var domain := Ascii(MESSAGE_DOMAIN);
    PaddingsAgree(|domain|);
    PaddedDomainIsCanonical(domain, PreimageWords(e), NegatedPadding(|domain|));
  }

  lemma SomeParts(a: seq<Option<Bytes>>, b: seq<Option<Bytes>>)
    requires AllSome(a + b)
    ensures AllSome(a) && AllSome(b)
  {
    forall i | 0 <= i < |a| ensures a[i].Some? {
      assert (a + b)[i] == a[i];
    }
    forall i | 0 <= i < |b| ensures b[i].Some? {
      assert (a + b)[|a| + i] == b[i];
    }
  }

  // All three.

  lemma ActionIsSmall(keccak: Hash, e: Envelope)
    requires Wellformed(keccak, e, false)
    ensures 0 < e.actionType < UINT64_LIMIT
  {
    hide FieldsValid, ActionWords;
  }

  /** Coordinator, codec and, where it accepts, checker derive one message ID. */
  lemma EncodersAgree(keccak: Hash, bigInt: string -> Option<int>, v: EvidenceEnvelope, e: Envelope)
    requires ValidEnvelope(keccak, e) && ReadsDecimals(bigInt) && States(v, e)
    ensures CodecPreimage(bigInt, e) == Some(Preimage(e)) && keccak(Preimage(e)) == e.messageId
    ensures EvidencePreimage(v) == if RealIdentity(e) && RealCausality(e) then Some(Preimage(e)) else None
  {
    hide FieldsValid, PayloadValid, States, CodecPreimage, EvidencePreimage, Preimage, ReadsDecimals, RealIdentity,
      RealCausality;
    ActionIsSmall(keccak, e);
    CodecAgrees(bigInt, e);
    EvidenceAgrees(v, e);
  }
}
