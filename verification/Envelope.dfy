/** Cross-chain message envelopes: the typed-action payload, the message ID over
    the ABI preimage, validation and sealing. A message ID determines its whole
    envelope up to a hash collision. */
module Envelope {
  import opened ByteStrings
  import opened Abi

  type Uint32 = n: int | 0 <= n < UINT32_LIMIT

  type Uint64 = n: int | 0 <= n < UINT64_LIMIT

  type Int64 = n: int | -0x8000_0000_0000_0000 <= n < 0x8000_0000_0000_0000

  datatype Timestamp = Timestamp(seconds: Int64, nanos: int)

  /** The one-of of economic actions, one constructor for each action type that
      has a frozen ABI payload. */
  datatype TypedAction =
    | CanonicalUftLock(
        lockId: Bytes, loanId: Bytes, canonicalToken: Bytes, homeBridgeHub: Bytes, wrappedToken: Bytes,
        destinationRecipient: Bytes, amount: string)
    | WrappedUftMinted(
        loanId: Bytes, lockId: Bytes, homeLoanAccount: Bytes, borrower: Bytes, lender: Bytes, wrappedToken: Bytes,
        amount: string, policyHash: Bytes)
    | WrappedUftBurned(
        burnId: Bytes, backingRoutePolicyHash: Bytes, canonicalToken: Bytes, homeBridgeHub: Bytes,
        wrappedToken: Bytes, recipient: Bytes, amount: string)
    | CanonicalUftReleased(
        burnId: Bytes, canonicalToken: Bytes, recipient: Bytes, amount: string, wrappedBurnMessageId: Bytes)
    | SatelliteCollateralLocked(
        loanId: Bytes, collateralId: Bytes, homeLoanAccount: Bytes, borrower: Bytes, lender: Bytes,
        collateralToken: Bytes, amount: string, policyHash: Bytes)
    | HomeDisbursementAuthorized(
        loanId: Bytes, fundingLockId: Bytes, homeLoanAccount: Bytes, borrower: Bytes, lender: Bytes,
        wrappedToken: Bytes, amount: string, policyHash: Bytes)
    | SatelliteDisbursementSettled(
        loanId: Bytes, fundingLockId: Bytes, homeLoanAccount: Bytes, borrower: Bytes, lender: Bytes,
        wrappedToken: Bytes, amount: string, policyHash: Bytes)
    | SatelliteRepaymentBurned(
        burnId: Bytes, loanId: Bytes, paymentId: Bytes, backingRoutePolicyHash: Bytes, canonicalToken: Bytes,
        homeBridgeHub: Bytes, wrappedToken: Bytes, lender: Bytes, amount: string)
    | HomeCollateralReleaseAuthorized(
        loanId: Bytes, collateralId: Bytes, homeLoanAccount: Bytes, borrower: Bytes, lender: Bytes,
        collateralToken: Bytes, amount: string, policyHash: Bytes)
    | SatelliteCollateralReleased(
        loanId: Bytes, collateralId: Bytes, homeLoanAccount: Bytes, borrower: Bytes, lender: Bytes,
        collateralToken: Bytes, amount: string, policyHash: Bytes)
    | LoanCancellationRequested(
        cancellationId: Bytes, loanId: Bytes, fundingLockId: Bytes, disbursementMessageId: Bytes,
        disbursementTombstoneHash: Bytes, homeLoanAccount: Bytes, lender: Bytes, wrappedToken: Bytes,
        amount: string, policyHash: Bytes, reasonCode: Bytes)
    | SatelliteFundingCancelled(
        cancellationId: Bytes, loanId: Bytes, fundingLockId: Bytes, disbursementMessageId: Bytes,
        disbursementTombstoneHash: Bytes, escrowBurnResultHash: Bytes, homeLoanAccount: Bytes, lender: Bytes,
        wrappedToken: Bytes, amount: string, policyHash: Bytes)
    | SatelliteUftPermanentBurned(
        burnId: Bytes, backingRoutePolicyHash: Bytes, canonicalToken: Bytes, homeBridgeHub: Bytes,
        wrappedToken: Bytes, amount: string)

  datatype Envelope = Envelope(
    schemaVersion: Uint32,
    messageId: Bytes,
    protocolId: Bytes,
    sourceChainId: string,
    sourceCoordinator: Bytes,
    sourceComponent: Bytes,
    destinationChainId: string,
    destinationCoordinator: Bytes,
    destinationComponent: Bytes,
    laneId: Bytes,
    sourceNonce: Uint64,
    aggregateId: Bytes,
    actionType: int,
    typedActionPayload: Bytes,
    payloadHash: Bytes,
    createdAt: Option<Timestamp>,
    expiresAt: Option<Timestamp>,
    routePolicyHash: Bytes,
    adapterSetPolicyHash: Bytes,
    sourceFinalityPolicyHash: Bytes,
    destinationFinalityPolicyHash: Bytes,
    correlationId: Bytes,
    causationMessageId: Bytes,
    supersededMessageId: Bytes,
    typedAction: Option<TypedAction>)

  // Typed-action payloads.

  /** One static ABI argument before its width is checked. */
  datatype Word = Bytes32Word(bytes: Bytes) | AddressArg(bytes: Bytes) | AmountWord(digits: string)

  /** A canonical positive decimal below 2^256, as its value. */
  function Uint256(value: string): Option<nat> {
    if value != "" && AllDigits(value) then
      var n := DecimalValue(value);
      if 0 < n < UINT256_LIMIT && Decimal(n) == value then Some(n) else None
    else
      None
  }

  function EncodeWord(word: Word): (r: Option<Bytes>)
    ensures r.Some? ==> |r.value| == 32
  {
    match word
    case Bytes32Word(b) => if |b| == 32 then Some(b) else None
    case AddressArg(b) => if |b| == 20 then Some(AddressWord(b)) else None
    case AmountWord(digits) => if Uint256(digits).Some? then Some(UintWord(Uint256(digits).value)) else None
  }

  function EncodeStatic(words: seq<Word>): (r: Option<Bytes>)
    ensures r.Some? ==> |r.value| == 32 * |words|
  {
    if words == [] then
      Some([])
    else
      match (EncodeWord(words[0]), EncodeStatic(words[1..]))
      case (Some(first), Some(rest)) => Some(first + rest)
      case _ => None
  }

  method EncodeStaticLoop(words: seq<Word>) returns (r: Option<Bytes>)
    ensures r == EncodeStatic(words)
  {
    var encoded: Bytes := [];
    assert words[0..] == words;
    assert EncodeStatic(words).Some? ==> [] + EncodeStatic(words).value == EncodeStatic(words).value;
    for i := 0 to |words|
      invariant EncodeStatic(words) == Prefixed(encoded, EncodeStatic(words[i..]))
    {
      assert words[i..][1..] == words[i + 1..];
      var word := EncodeWord(words[i]);
      if word.None? {
        return None;
      }
      PrefixedStep(encoded, word.value, EncodeStatic(words[i + 1..]));
      encoded := encoded + word.value;
    }
    assert encoded + [] == encoded;
    return Some(encoded);
  }

  ghost function Prefixed(prefix: Bytes, r: Option<Bytes>): Option<Bytes> {
    if r.None? then None else Some(prefix + r.value)
  }

  lemma PrefixedStep(prefix: Bytes, word: Bytes, r: Option<Bytes>)
    ensures Prefixed(prefix, Prefixed(word, r)) == Prefixed(prefix + word, r)
  {
    if r.Some? {
      assert prefix + (word + r.value) == prefix + word + r.value;
    }
  }

  function LoanWords(
    loanId: Bytes, operationId: Bytes, homeLoan: Bytes, borrower: Bytes, lender: Bytes, asset: Bytes,
    amount: string, policyHash: Bytes): seq<Word>
  {
    [Bytes32Word(loanId), Bytes32Word(operationId), AddressArg(homeLoan), AddressArg(borrower), AddressArg(lender),
     AddressArg(asset), AmountWord(amount), Bytes32Word(policyHash)]
  }

  /** The action type that each payload belongs to. */
  function Ordinal(action: TypedAction): (n: nat)
    ensures 1 <= n <= 15
  {
    match action
    case CanonicalUftLock(_, _, _, _, _, _, _) => 1
    case WrappedUftMinted(_, _, _, _, _, _, _, _) => 2
    case WrappedUftBurned(_, _, _, _, _, _, _) => 3
    case CanonicalUftReleased(_, _, _, _, _) => 4
    case SatelliteCollateralLocked(_, _, _, _, _, _, _, _) => 5
    case HomeDisbursementAuthorized(_, _, _, _, _, _, _, _) => 6
    case SatelliteDisbursementSettled(_, _, _, _, _, _, _, _) => 7
    case SatelliteRepaymentBurned(_, _, _, _, _, _, _, _, _) => 8
    case HomeCollateralReleaseAuthorized(_, _, _, _, _, _, _, _) => 9
    case SatelliteCollateralReleased(_, _, _, _, _, _, _, _) => 10
    case LoanCancellationRequested(_, _, _, _, _, _, _, _, _, _, _) => 12
    case SatelliteFundingCancelled(_, _, _, _, _, _, _, _, _, _, _) => 14
    case SatelliteUftPermanentBurned(_, _, _, _, _, _) => 15
  }

  /** The static arguments of each payload in ABI order. */
  function ActionWords(action: TypedAction): seq<Word> {
    match action
    case CanonicalUftLock(lockId, loanId, token, hub, wrapped, recipient, amount) =>
      [Bytes32Word(lockId), Bytes32Word(loanId), AddressArg(token), AddressArg(hub), AddressArg(wrapped),
       AddressArg(recipient), AmountWord(amount)]
    case WrappedUftMinted(loanId, lockId, home, borrower, lender, wrapped, amount, policy) =>
      LoanWords(loanId, lockId, home, borrower, lender, wrapped, amount, policy)
    case WrappedUftBurned(burnId, route, token, hub, wrapped, recipient, amount) =>
      [Bytes32Word(burnId), Bytes32Word(route), AddressArg(token), AddressArg(hub), AddressArg(wrapped),
       AddressArg(recipient), AmountWord(amount)]
    case CanonicalUftReleased(burnId, token, recipient, amount, burnMessage) =>
      [Bytes32Word(burnId), AddressArg(token), AddressArg(recipient), AmountWord(amount), Bytes32Word(burnMessage)]
    case SatelliteCollateralLocked(loanId, collateral, home, borrower, lender, token, amount, policy) =>
      LoanWords(loanId, collateral, home, borrower, lender, token, amount, policy)
    case HomeDisbursementAuthorized(loanId, funding, home, borrower, lender, wrapped, amount, policy) =>
      LoanWords(loanId, funding, home, borrower, lender, wrapped, amount, policy)
    case SatelliteDisbursementSettled(loanId, funding, home, borrower, lender, wrapped, amount, policy) =>
      LoanWords(loanId, funding, home, borrower, lender, wrapped, amount, policy)
    case SatelliteRepaymentBurned(burnId, loanId, payment, route, token, hub, wrapped, lender, amount) =>
      [Bytes32Word(burnId), Bytes32Word(loanId), Bytes32Word(payment), Bytes32Word(route), AddressArg(token),
       AddressArg(hub), AddressArg(wrapped), AddressArg(lender), AmountWord(amount)]
    case HomeCollateralReleaseAuthorized(loanId, collateral, home, borrower, lender, token, amount, policy) =>
      LoanWords(loanId, collateral, home, borrower, lender, token, amount, policy)
    case SatelliteCollateralReleased(loanId, collateral, home, borrower, lender, token, amount, policy) =>
      LoanWords(loanId, collateral, home, borrower, lender, token, amount, policy)
    case LoanCancellationRequested(id, loanId, funding, message, tombstone, home, lender, wrapped, amount, policy, reason) =>
      [Bytes32Word(id), Bytes32Word(loanId), Bytes32Word(funding), Bytes32Word(message), Bytes32Word(tombstone),
       AddressArg(home), AddressArg(lender), AddressArg(wrapped), AmountWord(amount), Bytes32Word(policy),
       Bytes32Word(reason)]
    case SatelliteFundingCancelled(id, loanId, funding, message, tombstone, burn, home, lender, wrapped, amount, policy) =>
      [Bytes32Word(id), Bytes32Word(loanId), Bytes32Word(funding), Bytes32Word(message), Bytes32Word(tombstone),
       Bytes32Word(burn), AddressArg(home), AddressArg(lender), AddressArg(wrapped), AmountWord(amount),
       Bytes32Word(policy)]
    case SatelliteUftPermanentBurned(burnId, route, token, hub, wrapped, amount) =>
      [Bytes32Word(burnId), Bytes32Word(route), AddressArg(token), AddressArg(hub), AddressArg(wrapped),
       AmountWord(amount)]
  }

  /** The canonical payload, when the action type and the one-of agree. */
  function EncodeTypedAction(e: Envelope): Option<Bytes> {
    if e.typedAction.None? || Ordinal(e.typedAction.value) != e.actionType then
      None
    else
      EncodeStatic(ActionWords(e.typedAction.value))
  }

  // Injectivity of payloads.

  lemma Uint256Injective(s: string, t: string)
    requires Uint256(s).Some? && Uint256(s) == Uint256(t)
    ensures s == t
  {
  }

  ghost predicate SameKind(a: Word, b: Word) {
    (a.Bytes32Word? <==> b.Bytes32Word?) && (a.AddressArg? <==> b.AddressArg?)
  }

  lemma EncodeWordInjective(a: Word, b: Word)
    requires SameKind(a, b) && EncodeWord(a).Some? && EncodeWord(a) == EncodeWord(b)
    ensures a == b
  {
    match a
    case Bytes32Word(_) =>
    case AddressArg(x) => AddressWordInjective(x, b.bytes);
    case AmountWord(s) =>
      UintWordInjective(Uint256(s).value, Uint256(b.digits).value);
      Uint256Injective(s, b.digits);
  }

  ghost predicate SameShape(ws: seq<Word>, vs: seq<Word>) {
    |ws| == |vs| && forall i :: 0 <= i < |ws| ==> SameKind(ws[i], vs[i])
  }

  lemma {:induction false} EncodeStaticInjective(ws: seq<Word>, vs: seq<Word>)
    requires SameShape(ws, vs) && EncodeStatic(ws).Some? && EncodeStatic(ws) == EncodeStatic(vs)
    ensures ws == vs
  {
    if ws != [] {
      SplitAt(EncodeWord(ws[0]).value, EncodeStatic(ws[1..]).value, EncodeWord(vs[0]).value, EncodeStatic(vs[1..]).value);
      EncodeWordInjective(ws[0], vs[0]);
      EncodeStaticInjective(ws[1..], vs[1..]);
      assert ws == [ws[0]] + ws[1..] && vs == [vs[0]] + vs[1..];
    }
  }

  lemma ActionShape(a: TypedAction, b: TypedAction)
    requires Ordinal(a) == Ordinal(b)
    ensures SameShape(ActionWords(a), ActionWords(b))
  {
  }

  lemma ActionWordsInjective(a: TypedAction, b: TypedAction)
    requires Ordinal(a) == Ordinal(b) && ActionWords(a) == ActionWords(b)
    ensures a == b
  {
    var ws, vs := ActionWords(a), ActionWords(b);
    assert ws[0] == vs[0] && ws[1] == vs[1] && ws[2] == vs[2] && ws[3] == vs[3] && ws[4] == vs[4];
    if |ws| > 5 {
      assert ws[5] == vs[5];
    }
    if |ws| > 6 {
      assert ws[6] == vs[6];
    }
    if |ws| > 7 {
      assert ws[7] == vs[7];
    }
    if |ws| > 8 {
      assert ws[8] == vs[8];
    }
    if |ws| > 9 {
      assert ws[9] == vs[9] && ws[10] == vs[10];
    }
  }

  /** Under one action type a payload determines the action, decimal amounts included. */
  lemma PayloadDeterminesAction(e1: Envelope, e2: Envelope)
    requires e1.actionType == e2.actionType
    requires EncodeTypedAction(e1).Some? && EncodeTypedAction(e1) == EncodeTypedAction(e2)
    ensures e1.typedAction == e2.typedAction
  {
    var a, b := e1.typedAction.value, e2.typedAction.value;
    ActionShape(a, b);
    EncodeStaticInjective(ActionWords(a), ActionWords(b));
    ActionWordsInjective(a, b);
  }

  // Validation and identity.

  predicate WidthsValid(e: Envelope) {
    && |e.protocolId| == 32 && |e.laneId| == 32 && |e.aggregateId| == 32 && |e.payloadHash| == 32
    && |e.routePolicyHash| == 32 && |e.adapterSetPolicyHash| == 32
    && |e.sourceFinalityPolicyHash| == 32 && |e.destinationFinalityPolicyHash| == 32
    && |e.correlationId| == 32 && |e.causationMessageId| == 32 && |e.supersededMessageId| == 32
    && |e.sourceCoordinator| == 20 && |e.sourceComponent| == 20
    && |e.destinationCoordinator| == 20 && |e.destinationComponent| == 20
  }

  predicate TimesValid(e: Envelope) {
    && e.createdAt.Some? && e.expiresAt.Some?
    && e.createdAt.value.nanos == 0 && e.expiresAt.value.nanos == 0
    && e.createdAt.value.seconds >= 0
    && e.expiresAt.value.seconds > e.createdAt.value.seconds
  }

  predicate FieldsValid(e: Envelope) {
    && e.schemaVersion != 0 && e.sourceNonce != 0 && e.actionType != 0
    && WidthsValid(e)
    && Uint256(e.sourceChainId).Some? && Uint256(e.destinationChainId).Some?
    && TimesValid(e)
  }

  predicate PayloadValid(keccak: Hash, e: Envelope) {
    && EncodeTypedAction(e) == Some(e.typedActionPayload)
    && keccak(e.typedActionPayload) == e.payloadHash
  }

  /** Everything but the message ID itself. */
  predicate Wellformed(keccak: Hash, e: Envelope, requireId: bool) {
    && (|e.messageId| == 32 || (!requireId && e.messageId == []))
    && FieldsValid(e)
    && PayloadValid(keccak, e)
  }

  const MESSAGE_DOMAIN := "UNIFIED_XCHAIN_MESSAGE_V1"

  /** The 22 words after the domain. */
  function PreimageWords(e: Envelope): seq<Bytes>
    requires FieldsValid(e)
  {
    IdentityWords(e) + CausalityWords(e)
  }

  function IdentityWords(e: Envelope): seq<Bytes>
    requires FieldsValid(e)
  {
    [UintWord(e.schemaVersion),
     e.protocolId,
     UintWord(Uint256(e.sourceChainId).value),
     AddressWord(e.sourceCoordinator),
     AddressWord(e.sourceComponent),
     UintWord(Uint256(e.destinationChainId).value),
     AddressWord(e.destinationCoordinator),
     AddressWord(e.destinationComponent),
     e.laneId,
     UintWord(e.sourceNonce),
     e.aggregateId]
  }

  function CausalityWords(e: Envelope): seq<Bytes>
    requires FieldsValid(e)
  {
    [UintWord(Uint64Of(e.actionType)),
     e.payloadHash,
     UintWord(e.createdAt.value.seconds),
     UintWord(e.expiresAt.value.seconds),
     e.routePolicyHash,
     e.adapterSetPolicyHash,
     e.sourceFinalityPolicyHash,
     e.destinationFinalityPolicyHash,
     e.correlationId,
     e.causationMessageId,
     e.supersededMessageId]
  }

  /** The unsigned conversion of a signed enumeration value. */
  function Uint64Of(n: int): nat {
    if 0 <= n < UINT64_LIMIT then n else n % UINT64_LIMIT
  }

  function Preimage(e: Envelope): Bytes
    requires FieldsValid(e)
  {
    DomainAndWords(Ascii(MESSAGE_DOMAIN), PreimageWords(e))
  }

  function ComputeMessageId(keccak: Hash, e: Envelope): Option<Bytes32> {
    if Wellformed(keccak, e, false) then Some(keccak(Preimage(e))) else None
  }

  predicate ValidEnvelope(keccak: Hash, e: Envelope) {
    Wellformed(keccak, e, true) && ComputeMessageId(keccak, e) == Some(e.messageId)
  }

  // A message ID determines its envelope.

  lemma WordsDetermineIdentity(e1: Envelope, e2: Envelope)
    requires FieldsValid(e1) && FieldsValid(e2) && IdentityWords(e1) == IdentityWords(e2)
    ensures e1.schemaVersion == e2.schemaVersion && e1.protocolId == e2.protocolId
    ensures e1.sourceChainId == e2.sourceChainId && e1.destinationChainId == e2.destinationChainId
    ensures e1.sourceCoordinator == e2.sourceCoordinator && e1.sourceComponent == e2.sourceComponent
    ensures e1.destinationCoordinator == e2.destinationCoordinator
    ensures e1.destinationComponent == e2.destinationComponent
    ensures e1.laneId == e2.laneId && e1.sourceNonce == e2.sourceNonce && e1.aggregateId == e2.aggregateId
  {
    Pow256Values();
    var w, v := IdentityWords(e1), IdentityWords(e2);
    assert w[0] == v[0] && w[1] == v[1] && w[2] == v[2] && w[3] == v[3] && w[4] == v[4] && w[5] == v[5];
    assert w[6] == v[6] && w[7] == v[7] && w[8] == v[8] && w[9] == v[9] && w[10] == v[10];
    UintWordInjective(e1.schemaVersion, e2.schemaVersion);
    UintWordInjective(Uint256(e1.sourceChainId).value, Uint256(e2.sourceChainId).value);
    UintWordInjective(Uint256(e1.destinationChainId).value, Uint256(e2.destinationChainId).value);
    Uint256Injective(e1.sourceChainId, e2.sourceChainId);
    Uint256Injective(e1.destinationChainId, e2.destinationChainId);
    AddressWordInjective(e1.sourceCoordinator, e2.sourceCoordinator);
    AddressWordInjective(e1.sourceComponent, e2.sourceComponent);
    AddressWordInjective(e1.destinationCoordinator, e2.destinationCoordinator);
    AddressWordInjective(e1.destinationComponent, e2.destinationComponent);
    UintWordInjective(e1.sourceNonce, e2.sourceNonce);
  }

  lemma WordsDetermineCausality(e1: Envelope, e2: Envelope)
    requires FieldsValid(e1) && FieldsValid(e2) && CausalityWords(e1) == CausalityWords(e2)
    requires 0 <= e1.actionType < UINT64_LIMIT && 0 <= e2.actionType < UINT64_LIMIT
    ensures e1.actionType == e2.actionType && e1.payloadHash == e2.payloadHash
    ensures e1.createdAt == e2.createdAt && e1.expiresAt == e2.expiresAt
    ensures e1.routePolicyHash == e2.routePolicyHash && e1.adapterSetPolicyHash == e2.adapterSetPolicyHash
    ensures e1.sourceFinalityPolicyHash == e2.sourceFinalityPolicyHash
    ensures e1.destinationFinalityPolicyHash == e2.destinationFinalityPolicyHash
    ensures e1.correlationId == e2.correlationId && e1.causationMessageId == e2.causationMessageId
    ensures e1.supersededMessageId == e2.supersededMessageId
  {
    Pow256Values();
    var w, v := CausalityWords(e1), CausalityWords(e2);
    assert w[0] == v[0] && w[1] == v[1] && w[2] == v[2] && w[3] == v[3] && w[4] == v[4] && w[5] == v[5];
    assert w[6] == v[6] && w[7] == v[7] && w[8] == v[8] && w[9] == v[9] && w[10] == v[10];
    assert e1.actionType == e2.actionType by {
      UintWordInjective(e1.actionType, e2.actionType);
    }
    SecondsInjective(e1.createdAt.value, e2.createdAt.value);
    SecondsInjective(e1.expiresAt.value, e2.expiresAt.value);
  }

  lemma SecondsInjective(t: Timestamp, u: Timestamp)
    requires t.seconds >= 0 && u.seconds >= 0 && t.nanos == u.nanos
    requires UintWord(t.seconds) == UintWord(u.seconds)
    ensures t == u
  {
    Pow256Values();
    UintWordInjective(t.seconds, u.seconds);
  }

  /** An envelope without its ID and its payload. */
  function Bare(e: Envelope): Envelope {
    e.(messageId := [], typedActionPayload := [], typedAction := None)
  }

  lemma PreimageDeterminesFields(e1: Envelope, e2: Envelope)
    requires FieldsValid(e1) && FieldsValid(e2) && Preimage(e1) == Preimage(e2)
    requires 0 <= e1.actionType < UINT64_LIMIT && 0 <= e2.actionType < UINT64_LIMIT
    ensures Bare(e1) == Bare(e2)
  {
    PreimageSplit(e1, e2);
    WordsDetermineIdentity(e1, e2);
    WordsDetermineCausality(e1, e2);
  }

  lemma WordWidths(e: Envelope)
    requires FieldsValid(e)
    ensures AreWords(PreimageWords(e)) && |PreimageWords(e)| == 22
  {
    assert AreWords(IdentityWords(e)) && AreWords(CausalityWords(e));
  }

  lemma PreimageSplit(e1: Envelope, e2: Envelope)
    requires FieldsValid(e1) && FieldsValid(e2) && Preimage(e1) == Preimage(e2)
    ensures IdentityWords(e1) == IdentityWords(e2) && CausalityWords(e1) == CausalityWords(e2)
  {
    Pow256Values();
    assert |Ascii(MESSAGE_DOMAIN)| < UINT64_LIMIT;
    WordWidths(e1);
    WordWidths(e2);
    DomainAndWordsInjective(Ascii(MESSAGE_DOMAIN), PreimageWords(e1), Ascii(MESSAGE_DOMAIN), PreimageWords(e2));
    assert PreimageWords(e1)[..11] == IdentityWords(e1) && PreimageWords(e2)[..11] == IdentityWords(e2);
    assert PreimageWords(e1)[11..] == CausalityWords(e1) && PreimageWords(e2)[11..] == CausalityWords(e2);
  }

  /** The identity: valid envelopes with one message ID are equal in every field,
      or their preimages or their payloads collide. */
  lemma MessageIdDeterminesEnvelope(keccak: Hash, e1: Envelope, e2: Envelope)
    requires ValidEnvelope(keccak, e1) && ValidEnvelope(keccak, e2)
    requires e1.messageId == e2.messageId
    ensures || e1 == e2
            || Collides(keccak, Preimage(e1), Preimage(e2))
            || Collides(keccak, e1.typedActionPayload, e2.typedActionPayload)
  {
    if Preimage(e1) == Preimage(e2) && !Collides(keccak, e1.typedActionPayload, e2.typedActionPayload) {
      PreimageDeterminesFields(e1, e2);
      SamePayload(keccak, e1, e2);
    }
  }

  lemma SamePayload(keccak: Hash, e1: Envelope, e2: Envelope)
    requires Bare(e1) == Bare(e2) && e1.messageId == e2.messageId
    requires PayloadValid(keccak, e1) && PayloadValid(keccak, e2)
    requires !Collides(keccak, e1.typedActionPayload, e2.typedActionPayload)
    ensures e1 == e2
  {
    assert e1.actionType == Bare(e1).actionType && e1.payloadHash == Bare(e1).payloadHash;
    PayloadDeterminesAction(e1, e2);
    assert e1 == Bare(e1).(messageId := e1.messageId, typedActionPayload := e1.typedActionPayload,
                           typedAction := e1.typedAction);
  }

  // Sealing.

  function Seal(keccak: Hash, e: Envelope): Option<Envelope> {
    match ComputeMessageId(keccak, e.(messageId := []))
    case None => None
    case Some(id) => Some(e.(messageId := id))
  }

  function BindTypedAction(keccak: Hash, e: Envelope): Option<Envelope> {
    match EncodeTypedAction(e)
    case None => None
    case Some(encoded) => Some(e.(typedActionPayload := encoded, payloadHash := keccak(encoded)))
  }

  lemma PreimageIgnoresId(e: Envelope, id: Bytes)
    requires FieldsValid(e)
    ensures FieldsValid(e.(messageId := id)) && Preimage(e.(messageId := id)) == Preimage(e)
  {
  }

  /** Sealing changes only the ID, always yields a valid envelope, and is
      idempotent; an envelope is valid exactly when sealing leaves it alone. */
  lemma SealIsCanonical(keccak: Hash, e: Envelope)
    ensures Seal(keccak, e).Some? ==>
              var s := Seal(keccak, e).value;
              && s.(messageId := []) == e.(messageId := [])
              && ValidEnvelope(keccak, s)
              && Seal(keccak, s) == Some(s)
    ensures ValidEnvelope(keccak, e) <==> Seal(keccak, e) == Some(e)
  {
    var blank := e.(messageId := []);
    assert EncodeTypedAction(blank) == EncodeTypedAction(e);
    if FieldsValid(e) {
      PreimageIgnoresId(e, []);
    }
    if Seal(keccak, e).Some? {
      var s := Seal(keccak, e).value;
      assert EncodeTypedAction(s) == EncodeTypedAction(e);
      assert s.(messageId := []) == blank;
      PreimageIgnoresId(blank, s.messageId);
      assert blank.(messageId := s.messageId) == s;
    }
  }

  /** Binding the payload and sealing succeeds exactly on envelopes whose other
      fields and typed action are valid, and then yields a valid envelope that
      differs from the bound one in its ID alone. */
  lemma BindThenSeal(keccak: Hash, e: Envelope)
    requires BindTypedAction(keccak, e).Some?
    ensures var bound := BindTypedAction(keccak, e).value;
            && bound.typedAction == e.typedAction
            && PayloadValid(keccak, bound)
            && (Seal(keccak, bound).Some? <==> FieldsValid(bound))
            && (FieldsValid(bound) ==>
                  && ValidEnvelope(keccak, Seal(keccak, bound).value)
                  && Seal(keccak, bound).value.(messageId := []) == bound.(messageId := []))
  {
    hide ValidEnvelope, Preimage;
    SealIsCanonical(keccak, BindTypedAction(keccak, e).value);
    var bound := BindTypedAction(keccak, e).value;
    assert EncodeTypedAction(bound) == EncodeTypedAction(e);
    var blank := bound.(messageId := []);
    assert EncodeTypedAction(blank) == EncodeTypedAction(bound);
  }
}
