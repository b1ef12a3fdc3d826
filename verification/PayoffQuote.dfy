/** Payoff quote identities: the codec that resolves a wire quote and the reference
    encoder build one preimage, the payoff equation holds exactly, and a quote
    digest determines the identity it was computed from. */
module PayoffQuote {
  import opened ByteStrings
  import opened HexText
  import opened Abi
  import opened Envelope
  import opened MessageEncoders
  import opened PayoffReference

  const QUOTE_DOMAIN := "UNIFIED_PAYOFF_QUOTE_V1"

  // The codec's helpers.

  function ExactUint(value: int, limit: nat): Option<nat> {
    if 0 <= value < limit then Some(value) else None
  }

  /** Every integer is encoded as 256 bits; smaller limits are checked before. */
  function QuoteUint(value: int): Option<Bytes> {
    match ExactUint(value, UINT256_LIMIT)
    case None => None
    case Some(n) => Some(UintWord(n))
  }

  function QuoteAddress(value: Bytes): Option<Bytes> {
    match ExactBytes(value, 20)
    case None => None
    case Some(address) => Some(AddressWord(address))
  }

  function DebtWords(q: QuoteIdentity): (words: seq<Option<Bytes>>)
    ensures |words| == 10
  {
    [QuoteAddress(q.payoffQuoteEngine),
     QuoteUint(q.chainId),
     ExactBytes(q.loanId, 32),
     QuoteAddress(q.loanAccount),
     ExactBytes(q.policyHash, 32),
     QuoteUint(q.debtStateVersion),
     QuoteUint(q.principal),
     QuoteUint(q.accruedInterest),
     QuoteUint(q.fees),
     QuoteUint(q.penalties)]
  }

  function SettlementWords(q: QuoteIdentity): (words: seq<Option<Bytes>>)
    ensures |words| == 9
  {
    [QuoteUint(q.credits),
     ExactBytes(q.componentBeneficiaryHash, 32),
     QuoteUint(q.netPayoff),
     ExactBytes(q.settlementAssetId, 32),
     QuoteAddress(q.settlementToken),
     ExactBytes(q.settlementRouteHash, 32),
     QuoteUint(q.issuedAt),
     QuoteUint(q.validUntil),
     QuoteUint(q.quoteNonce)]
  }

  function CodecQuotePreimage(q: QuoteIdentity): Option<Bytes> {
    var words := DebtWords(q) + SettlementWords(q);
    var domain := Ascii(QUOTE_DOMAIN);
    if AllSome(words) then Some(PaddedDomain(domain, Values(words), NegatedPadding(|domain|))) else None
  }

  // Codec and reference.

  predicate Small(q: QuoteIdentity) {
    && 0 <= q.debtStateVersion < UINT64_LIMIT && 0 <= q.issuedAt < UINT64_LIMIT
    && 0 <= q.validUntil < UINT64_LIMIT && 0 <= q.quoteNonce < UINT64_LIMIT
  }

  /** One integer word: the two helpers agree but for the limit. */
  lemma UintWordsAgree(value: int, limit: nat)
    requires limit <= UINT256_LIMIT
    ensures UintArgument(value, limit) == if 0 <= value < limit then QuoteUint(value) else None
  {
    hide UintWord;
  }

  lemma AddressesAgree(value: Bytes)
    ensures AddressArgument(value) == QuoteAddress(value)
  {
    AddressArgumentIsWord(value);
  }

  lemma BytesAgree(value: Bytes, length: nat)
    ensures BytesArgument(value, length) == ExactBytes(value, length)
  {
  }

  lemma FirstWordsAgree(q: QuoteIdentity)
    requires Small(q)
    ensures ReferenceWords(q)[..10] == DebtWords(q)
  {
    hide UintArgument, QuoteUint, AddressArgument, QuoteAddress, BytesArgument, ExactBytes;
    Pow256Values();
    AddressesAgree(q.payoffQuoteEngine);
    AddressesAgree(q.loanAccount);
    BytesAgree(q.loanId, 32);
    BytesAgree(q.policyHash, 32);
    WideUint(q.chainId);
    WideUint(q.principal);
    WideUint(q.accruedInterest);
    WideUint(q.fees);
    WideUint(q.penalties);
    UintWordsAgree(q.debtStateVersion, UINT64_LIMIT);
  }

  lemma LastWordsAgree(q: QuoteIdentity)
    requires Small(q)
    ensures ReferenceWords(q)[10..] == SettlementWords(q)
  {
    hide UintArgument, QuoteUint, AddressArgument, QuoteAddress, BytesArgument, ExactBytes;
    Pow256Values();
    AddressesAgree(q.settlementToken);
    BytesAgree(q.componentBeneficiaryHash, 32);
    BytesAgree(q.settlementAssetId, 32);
    BytesAgree(q.settlementRouteHash, 32);
    WideUint(q.credits);
    WideUint(q.netPayoff);
    UintWordsAgree(q.issuedAt, UINT64_LIMIT);
    UintWordsAgree(q.validUntil, UINT64_LIMIT);
    UintWordsAgree(q.quoteNonce, UINT64_LIMIT);
  }

  /** Word by word, where the reference's narrower limits allow. */
  lemma SmallWordsAgree(q: QuoteIdentity)
    requires Small(q)
    ensures ReferenceWords(q) == DebtWords(q) + SettlementWords(q)
  {
    hide ReferenceWords, DebtWords, SettlementWords;
    FirstWordsAgree(q);
    LastWordsAgree(q);
    assert ReferenceWords(q) == ReferenceWords(q)[..10] + ReferenceWords(q)[10..];
  }

  lemma AcceptedIsSmall(q: QuoteIdentity)
    requires AllSome(ReferenceWords(q))
    ensures Small(q)
  {
    hide UintWord, AddressArgument, BytesArgument;
    var words := ReferenceWords(q);
    assert words[5].Some? && words[16].Some? && words[17].Some? && words[18].Some?;
  }

  lemma WideUint(value: int)
    ensures UintArgument(value, UINT256_LIMIT) == QuoteUint(value)
  {
    hide UintWord;
  }

  /** The reference encodes exactly what the codec encodes with a version, times and a nonce
      below 2^64, and then the bytes are the same. */
  lemma QuoteEncodersAgree(q: QuoteIdentity)
    ensures ReferencePreimage(q).Some? <==> CodecQuotePreimage(q).Some? && Small(q)
    ensures ReferencePreimage(q).Some? ==> ReferencePreimage(q) == CodecQuotePreimage(q)
  {
    hide ReferenceWords, ReferencePreimage, DebtWords, SettlementWords, DomainAndWords, Ascii, AllSome, Small, Padding,
      NegatedPadding, UintWord;
    if Small(q) {
      SmallWordsAgree(q);
    } else if AllSome(ReferenceWords(q)) {
      AcceptedIsSmall(q);
    }
    ReferenceIsCanonical(q);
    SameDomain();
    var domain := Ascii(QUOTE_DOMAIN);
    PaddingsAgree(|domain|);
    if AllSome(DebtWords(q) + SettlementWords(q)) {
      PaddedDomainIsCanonical(domain, Values(DebtWords(q) + SettlementWords(q)), NegatedPadding(|domain|));
    }
  }

  lemma SameDomain()
    ensures Ascii(QUOTE_DOMAIN) == Ascii(REFERENCE_DOMAIN)
  {
  }

  // Wire quotes.

  datatype Money = Money(assetId: Option<string>, units: string)

  datatype DebtSnapshot = DebtSnapshot(
    loanId: Option<string>, loanAccountId: Option<string>,
    principal: Option<Money>, accruedInterest: Option<Money>, capitalizedInterest: Option<Money>,
    fees: Option<Money>, penalties: Option<Money>, recoverableCosts: Option<Money>, credits: Option<Money>,
    debtStateVersion: int)

  datatype Quote = Quote(
    quoteId: Option<string>, loanId: Option<string>, debt: Option<DebtSnapshot>,
    grossPayoff: Option<Money>, credits: Option<Money>, netPayoff: Option<Money>,
    componentAmounts: seq<Option<Money>>, issuedAt: Option<Timestamp>, validUntil: Option<Timestamp>,
    quotePolicyHash: Option<Bytes>, componentBeneficiaryHash: Bytes, settlementRouteHash: Bytes,
    quoteNonce: int, quoteDigest: Bytes)

  /** What the codec trusts rather than reads from the quote. */
  datatype Authority = Authority(engineHex: string, chainId: int, assetValue: string, assetIdHex: string, tokenHex: string)

  /** A canonical unsigned decimal below 2^256 of the trusted asset. */
  function MoneyUnits(money: Option<Money>, assetValue: string): (r: Option<nat>)
    ensures r.Some? ==> r.value < UINT256_LIMIT
  {
    if money.None? || money.value.assetId != Some(assetValue) then None
    else
      var units := money.value.units;
      if units != "" && AllDigits(units) && Decimal(DecimalValue(units)) == units && DecimalValue(units) < UINT256_LIMIT
      then Some(DecimalValue(units))
      else None
  }

  function WholeTime(t: Option<Timestamp>): (r: Option<nat>)
    ensures r.Some? ==> r.value < UINT64_LIMIT
  {
    if t.Some? && t.value.nanos == 0 && 0 <= t.value.seconds < UINT64_LIMIT then Some(t.value.seconds) else None
  }

  datatype Amounts = Amounts(principal: nat, accruedInterest: nat, fees: nat, penalties: nat, credits: nat, netPayoff: nat)

  /** The amounts of a quote whose payoff equation holds. */
  function ResolveAmounts(quote: Quote, debt: DebtSnapshot, asset: string): (r: Option<Amounts>)
    ensures r.Some? ==> AmountsOk(r.value)
  {
    var principal, interest := MoneyUnits(debt.principal, asset), MoneyUnits(debt.accruedInterest, asset);
    var capitalized, fees := MoneyUnits(debt.capitalizedInterest, asset), MoneyUnits(debt.fees, asset);
    var penalties, costs := MoneyUnits(debt.penalties, asset), MoneyUnits(debt.recoverableCosts, asset);
    var credits := MoneyUnits(debt.credits, asset);
    if principal.None? || interest.None? || capitalized.None? || fees.None? || penalties.None? || costs.None? || credits.None?
    then None
    else if capitalized.value != 0 || costs.value != 0 then None
    else
      var gross, quoted, net :=
        MoneyUnits(quote.grossPayoff, asset), MoneyUnits(quote.credits, asset), MoneyUnits(quote.netPayoff, asset);
      if gross.None? || quoted.None? || net.None? then None
      else if gross.value != principal.value + interest.value + fees.value + penalties.value
              || quoted.value != credits.value
      then None
      else if credits.value > gross.value || net.value != gross.value - credits.value then None
      else Some(Amounts(principal.value, interest.value, fees.value, penalties.value, credits.value, net.value))
  }

  /** The payoff equation, exact and without overflow. */
  predicate AmountsOk(a: Amounts) {
    && a.netPayoff + a.credits == a.principal + a.accruedInterest + a.fees + a.penalties
    && a.principal + a.accruedInterest + a.fees + a.penalties < UINT256_LIMIT
  }

  predicate ComponentsPriced(quote: Quote, asset: string) {
    forall i :: 0 <= i < |quote.componentAmounts| ==> MoneyUnits(quote.componentAmounts[i], asset).Some?
  }

  function ResolveQuote(quote: Quote, authority: Authority): Option<QuoteIdentity> {
    if quote.loanId.None? || quote.debt.None? || quote.loanId != quote.debt.value.loanId then None
    else
      var debt := quote.debt.value;
      match ResolveAmounts(quote, debt, authority.assetValue)
      case None => None
      case Some(amounts) =>
        if !ComponentsPriced(quote, authority.assetValue) then None
        else ResolveIdentity(quote, debt, authority, amounts)
  }

  function ResolveIdentity(quote: Quote, debt: DebtSnapshot, authority: Authority, a: Amounts): Option<QuoteIdentity>
    requires quote.loanId.Some?
  {
    var issuedAt, validUntil := WholeTime(quote.issuedAt), WholeTime(quote.validUntil);
    if issuedAt.None? || validUntil.None? || validUntil.value <= issuedAt.value then None
    else if debt.loanAccountId.None? || quote.quotePolicyHash.None? then None
    else
      var engine, loan := FixedHex("0x" + authority.engineHex, 20, false), FixedHex(quote.loanId.value, 32, false);
      var account, asset := FixedHex(debt.loanAccountId.value, 20, false), FixedHex("0x" + authority.assetIdHex, 32, false);
      var token := FixedHex("0x" + authority.tokenHex, 20, false);
      if engine.None? || loan.None? || account.None? || asset.None? || token.None? then None
      else if |quote.quotePolicyHash.value| != 32 || |quote.componentBeneficiaryHash| != 32
              || |quote.settlementRouteHash| != 32 then None
      else if !(0 <= debt.debtStateVersion < UINT64_LIMIT) || !(0 <= quote.quoteNonce < UINT64_LIMIT) then None
      else
        Some(QuoteIdentity(
          engine.value, authority.chainId, loan.value, account.value, quote.quotePolicyHash.value, debt.debtStateVersion,
          a.principal, a.accruedInterest, a.fees, a.penalties, a.credits, quote.componentBeneficiaryHash, a.netPayoff,
          asset.value, token.value, quote.settlementRouteHash, issuedAt.value, validUntil.value, quote.quoteNonce))
  }

  /** A quote is good when its digest and its identifier are both the hash of its preimage. */
  function ValidateQuote(keccak: Hash, quote: Quote, authority: Authority): Option<Bytes> {
    match ResolveQuote(quote, authority)
    case None => None
    case Some(q) =>
      if CodecQuotePreimage(q).None? then None
      else
        var digest := keccak(CodecQuotePreimage(q).value);
        if quote.quoteDigest != digest || quote.quoteId.None? then None
        else if FixedHex(quote.quoteId.value, 32, false) == Some(digest) then Some(digest) else None
  }

  // Every resolved quote.

  predicate IdentityOk(q: QuoteIdentity) {
    && Small(q)
    && q.netPayoff + q.credits == q.principal + q.accruedInterest + q.fees + q.penalties
    && 0 <= q.principal && 0 <= q.accruedInterest && 0 <= q.fees && 0 <= q.penalties && 0 <= q.credits && 0 <= q.netPayoff
    && q.principal + q.accruedInterest + q.fees + q.penalties < UINT256_LIMIT
    && q.issuedAt < q.validUntil
    && |q.payoffQuoteEngine| == 20 && |q.loanAccount| == 20 && |q.settlementToken| == 20
    && |q.loanId| == 32 && |q.policyHash| == 32 && |q.componentBeneficiaryHash| == 32
    && |q.settlementAssetId| == 32 && |q.settlementRouteHash| == 32
  }

  /** Net payoff and credits are exactly principal, interest, fees and penalties, with no
      overflow, and the two encoders give the same bytes, for every chain number that fits. */
  lemma ResolvedQuoteIsSound(quote: Quote, authority: Authority)
    requires ResolveQuote(quote, authority).Some?
    ensures IdentityOk(ResolveQuote(quote, authority).value)
    ensures CodecQuotePreimage(ResolveQuote(quote, authority).value)
            == ReferencePreimage(ResolveQuote(quote, authority).value)
    ensures ReferencePreimage(ResolveQuote(quote, authority).value).Some? <==> 0 <= authority.chainId < UINT256_LIMIT
  {
    hide MoneyUnits, FixedHex, ResolveAmounts, ReferencePreimage, CodecQuotePreimage;
    var q := ResolveQuote(quote, authority).value;
    QuoteEncodersAgree(q);
    SoundIdentityEncodes(q);
  }

  lemma SoundIdentityEncodes(q: QuoteIdentity)
    requires IdentityOk(q)
    ensures CodecQuotePreimage(q).Some? <==> 0 <= q.chainId < UINT256_LIMIT
  {
    hide UintWord, Ascii, PaddedDomain;
    Pow256Values();
    var a, b := DebtWords(q), SettlementWords(q);
    assert AllSome(b);
    assert a[1].Some? <==> 0 <= q.chainId < UINT256_LIMIT;
    if a[1].Some? {
      assert AllSome(a);
      ValuesAppend(a, b);
    } else {
      assert (a + b)[1] == a[1];
    }
  }

  // The digest determines the identity.

  lemma DebtWordsInjective(q: QuoteIdentity, r: QuoteIdentity)
    requires AllSome(DebtWords(q)) && DebtWords(q) == DebtWords(r)
    ensures q.payoffQuoteEngine == r.payoffQuoteEngine && q.chainId == r.chainId && q.loanId == r.loanId
    ensures q.loanAccount == r.loanAccount && q.policyHash == r.policyHash && q.debtStateVersion == r.debtStateVersion
    ensures q.principal == r.principal && q.accruedInterest == r.accruedInterest
    ensures q.fees == r.fees && q.penalties == r.penalties
  {
    hide QuoteUint, QuoteAddress;
    var w, v := DebtWords(q), DebtWords(r);
    assert w[0] == v[0] && w[1] == v[1] && w[2] == v[2] && w[3] == v[3] && w[4] == v[4];
    assert w[5] == v[5] && w[6] == v[6] && w[7] == v[7] && w[8] == v[8] && w[9] == v[9];
    assert w[0].Some? && w[1].Some? && w[2].Some? && w[3].Some? && w[4].Some?;
    assert w[5].Some? && w[6].Some? && w[7].Some? && w[8].Some? && w[9].Some?;
    QuoteAddressInjective(q.payoffQuoteEngine, r.payoffQuoteEngine);
    QuoteAddressInjective(q.loanAccount, r.loanAccount);
    QuoteUintInjective(q.chainId, r.chainId);
    QuoteUintInjective(q.debtStateVersion, r.debtStateVersion);
    QuoteUintInjective(q.principal, r.principal);
    QuoteUintInjective(q.accruedInterest, r.accruedInterest);
    QuoteUintInjective(q.fees, r.fees);
    QuoteUintInjective(q.penalties, r.penalties);
  }

  lemma SettlementWordsInjective(q: QuoteIdentity, r: QuoteIdentity)
    requires AllSome(SettlementWords(q))
    requires SettlementWords(q) == SettlementWords(r)
    ensures q.credits == r.credits && q.componentBeneficiaryHash == r.componentBeneficiaryHash
    ensures q.netPayoff == r.netPayoff && q.settlementAssetId == r.settlementAssetId
    ensures q.settlementToken == r.settlementToken && q.settlementRouteHash == r.settlementRouteHash
    ensures q.issuedAt == r.issuedAt && q.validUntil == r.validUntil && q.quoteNonce == r.quoteNonce
  {
    hide QuoteUint, QuoteAddress;
    var w, v := SettlementWords(q), SettlementWords(r);
    assert w[0] == v[0] && w[1] == v[1] && w[2] == v[2] && w[3] == v[3] && w[4] == v[4];
    assert w[5] == v[5] && w[6] == v[6] && w[7] == v[7] && w[8] == v[8];
    assert w[0].Some? && w[1].Some? && w[2].Some? && w[3].Some? && w[4].Some?;
    assert w[5].Some? && w[6].Some? && w[7].Some? && w[8].Some?;
    QuoteAddressInjective(q.settlementToken, r.settlementToken);
    QuoteUintInjective(q.credits, r.credits);
    QuoteUintInjective(q.netPayoff, r.netPayoff);
    QuoteUintInjective(q.issuedAt, r.issuedAt);
    QuoteUintInjective(q.validUntil, r.validUntil);
    QuoteUintInjective(q.quoteNonce, r.quoteNonce);
  }

  lemma QuoteUintInjective(m: int, n: int)
    requires QuoteUint(m).Some? && QuoteUint(m) == QuoteUint(n)
    ensures m == n
  {
    hide UintWord;
    UintWordInjective(m, n);
  }

  lemma QuoteAddressInjective(a: Bytes, b: Bytes)
    requires QuoteAddress(a).Some? && QuoteAddress(a) == QuoteAddress(b)
    ensures a == b
  {
    AddressWordInjective(a, b);
  }

  lemma DebtWordsWidth(q: QuoteIdentity)
    requires AllSome(DebtWords(q))
    ensures AreWords(Values(DebtWords(q)))
  {
    hide UintWord;
  }

  lemma SettlementWordsWidth(q: QuoteIdentity)
    requires AllSome(SettlementWords(q))
    ensures AreWords(Values(SettlementWords(q)))
  {
    hide UintWord;
  }

  lemma WordsOfQuote(q: QuoteIdentity)
    ensures var words := DebtWords(q) + SettlementWords(q);
            |words| == 19 && (AllSome(words) ==> AreWords(Values(words)))
  {
    hide QuoteUint, QuoteAddress, ExactBytes;
    var a, b := DebtWords(q), SettlementWords(q);
    if AllSome(a + b) {
      SomeParts(a, b);
      ValuesAppend(a, b);
      DebtWordsWidth(q);
      SettlementWordsWidth(q);
    }
  }

  lemma QuotePreimageInjective(q: QuoteIdentity, r: QuoteIdentity)
    requires CodecQuotePreimage(q).Some? && CodecQuotePreimage(q) == CodecQuotePreimage(r)
    ensures q == r
  {
    hide DebtWords, SettlementWords, DomainAndWords, Ascii, UintWord;
    var wq := DebtWords(q) + SettlementWords(q);
    var wr := DebtWords(r) + SettlementWords(r);
    var domain := Ascii(QUOTE_DOMAIN);
    WordsOfQuote(q);
    WordsOfQuote(r);
    PaddingsAgree(|domain|);
    PaddedDomainIsCanonical(domain, Values(wq), NegatedPadding(|domain|));
    PaddedDomainIsCanonical(domain, Values(wr), NegatedPadding(|domain|));
    Pow256Values();
    DomainAndWordsInjective(domain, Values(wq), domain, Values(wr));
    ValuesInjective(wq, wr);
    QuoteParts(q, r);
  }

  lemma ValuesInjective(a: seq<Option<Bytes>>, b: seq<Option<Bytes>>)
    requires AllSome(a) && AllSome(b) && Values(a) == Values(b)
    ensures a == b
  {
    assert |a| == |Values(a)| == |Values(b)| == |b|;
    forall i | 0 <= i < |a| ensures a[i] == b[i] {
      assert Values(a)[i] == Values(b)[i];
    }
  }

  lemma QuoteParts(q: QuoteIdentity, r: QuoteIdentity)
    requires var words := DebtWords(q) + SettlementWords(q);
             AllSome(words) && words == DebtWords(r) + SettlementWords(r)
    ensures q == r
  {
    hide QuoteUint, QuoteAddress, ExactBytes;
    var a, b := DebtWords(q), SettlementWords(q);
    var c, d := DebtWords(r), SettlementWords(r);
    SomeParts(a, b);
    assert |a| == |c| == 10;
    SplitAt(a, b, c, d);
    DebtWordsInjective(q, r);
    SettlementWordsInjective(q, r);
  }

  /** One validated quote digest is one quote identity, or Keccak collides. */
  lemma QuoteDigestBinds(keccak: Hash, quote: Quote, other: Quote, authority: Authority)
    requires ValidateQuote(keccak, quote, authority).Some?
    requires ValidateQuote(keccak, quote, authority) == ValidateQuote(keccak, other, authority)
    ensures ResolveQuote(quote, authority).Some? && ResolveQuote(other, authority).Some?
    ensures CodecQuotePreimage(ResolveQuote(quote, authority).value).Some?
            && CodecQuotePreimage(ResolveQuote(other, authority).value).Some?
    ensures || ResolveQuote(quote, authority) == ResolveQuote(other, authority)
            || Collides(keccak, CodecQuotePreimage(ResolveQuote(quote, authority).value).value,
                        CodecQuotePreimage(ResolveQuote(other, authority).value).value)
  {
    hide ResolveQuote, CodecQuotePreimage, FixedHex;
    var q, r := ResolveQuote(quote, authority).value, ResolveQuote(other, authority).value;
    if CodecQuotePreimage(q) == CodecQuotePreimage(r) {
      QuotePreimageInjective(q, r);
    }
  }
}
