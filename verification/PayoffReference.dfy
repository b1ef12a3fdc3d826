/** The reference encoder of payoff quote identities, with its own word helpers. */
module PayoffReference {
  import opened ByteStrings
  import opened Rlp
  import opened Abi
  import opened MessageEncoders

  datatype QuoteIdentity = QuoteIdentity(
    payoffQuoteEngine: Bytes, chainId: int, loanId: Bytes, loanAccount: Bytes, policyHash: Bytes,
    debtStateVersion: int, principal: int, accruedInterest: int, fees: int, penalties: int, credits: int,
    componentBeneficiaryHash: Bytes, netPayoff: int, settlementAssetId: Bytes, settlementToken: Bytes,
    settlementRouteHash: Bytes, issuedAt: int, validUntil: int, quoteNonce: int)

  // Helpers.

  function BytesArgument(value: Bytes, length: nat): (r: Option<Bytes>)
    ensures r.Some? ==> |r.value| == length
  {
    if |value| != length then None else Some(value)
  }

  /** Every integer is encoded under a limit of its own. */
  function UintArgument(value: int, limit: nat): (r: Option<Bytes>)
    ensures r.Some? ==> |r.value| == 32
  {
    if value < 0 || value >= limit then None else Some(UintWord(value))
  }

  function AddressArgument(value: Bytes): (r: Option<Bytes>)
    ensures r.Some? ==> |r.value| == 32
  {
    match BytesArgument(value, 20)
    case None => None
    case Some(address) =>
      ConcatTwo(Zeros(12), address);
      Some(Concat([Zeros(12), address]))
  }

  function Tail(text: Bytes): Option<Bytes> {
    match UintArgument(|text|, UINT256_LIMIT)
    case None => None
    case Some(length) => Some(Concat([length, text, Zeros(NegatedPadding(|text|))]))
  }

  predicate AllWords(words: seq<Option<Bytes>>) {
    forall i :: 0 <= i < |words| ==> words[i].Some? && |words[i].value| == 32
  }

  /** One concatenation: the offset, the checked words, the tail of the domain. */
  function DomainAndStaticWords(domain: Bytes, words: seq<Option<Bytes>>): Option<Bytes> {
    if !AllWords(words) then None
    else
      match (UintArgument((|words| + 1) * 32, UINT256_LIMIT), Tail(domain))
      case (Some(offset), Some(tail)) => Some(Concat([offset] + Values(words) + [tail]))
      case _ => None
  }

  // The quote.

  const REFERENCE_DOMAIN := "UNIFIED_PAYOFF_QUOTE_V1"

  function ReferenceWords(q: QuoteIdentity): (words: seq<Option<Bytes>>)
    ensures |words| == 19
  {
    [AddressArgument(q.payoffQuoteEngine),
     UintArgument(q.chainId, UINT256_LIMIT),
     BytesArgument(q.loanId, 32),
     AddressArgument(q.loanAccount),
     BytesArgument(q.policyHash, 32),
     UintArgument(q.debtStateVersion, UINT64_LIMIT),
     UintArgument(q.principal, UINT256_LIMIT),
     UintArgument(q.accruedInterest, UINT256_LIMIT),
     UintArgument(q.fees, UINT256_LIMIT),
     UintArgument(q.penalties, UINT256_LIMIT),
     UintArgument(q.credits, UINT256_LIMIT),
     BytesArgument(q.componentBeneficiaryHash, 32),
     UintArgument(q.netPayoff, UINT256_LIMIT),
     BytesArgument(q.settlementAssetId, 32),
     AddressArgument(q.settlementToken),
     BytesArgument(q.settlementRouteHash, 32),
     UintArgument(q.issuedAt, UINT64_LIMIT),
     UintArgument(q.validUntil, UINT64_LIMIT),
     UintArgument(q.quoteNonce, UINT64_LIMIT)]
  }

  function ReferencePreimage(q: QuoteIdentity): Option<Bytes> {
    DomainAndStaticWords(Ascii(REFERENCE_DOMAIN), ReferenceWords(q))
  }

  // The encoding is the canonical one.

  lemma ConcatAround(first: Bytes, parts: seq<Bytes>, last: Bytes)
    ensures Concat([first] + parts + [last]) == first + Concat(parts) + last
  {
    ConcatSnoc([first] + parts, last);
    assert ([first] + parts)[1..] == parts;
  }

  lemma TailIsCanonical(text: Bytes)
    requires |text| < UINT256_LIMIT
    ensures Tail(text) == Some(StringTail(text))
  {
    hide UintWord, Padding, NegatedPadding;
    PaddingsAgree(|text|);
    ThreeParts(UintWord(|text|), text, Zeros(Padding(|text|)));
  }

  lemma ThreeParts(a: Bytes, b: Bytes, c: Bytes)
    ensures Concat([a, b, c]) == a + b + c
  {
    assert [a, b, c] == [a] + [b] + [c];
    ConcatAround(a, [b], c);
    assert Concat([b]) == b by { assert [b][1..] == []; assert b + [] == b; }
  }

  /** Where every word encodes, the reference builds abi.encode of the domain and the words. */
  lemma DomainAndStaticWordsIsCanonical(domain: Bytes, words: seq<Option<Bytes>>)
    requires AllWords(words) && (|words| + 1) * 32 < UINT256_LIMIT && |domain| < UINT256_LIMIT
    ensures DomainAndStaticWords(domain, words) == Some(DomainAndWords(domain, Values(words)))
  {
    hide UintWord, StringTail, Tail;
    TailIsCanonical(domain);
    ConcatAround(UintWord((|words| + 1) * 32), Values(words), StringTail(domain));
  }

  lemma AddressArgumentIsWord(value: Bytes)
    ensures AddressArgument(value) == if |value| == 20 then Some(AddressWord(value)) else None
  {
    ConcatTwo(Zeros(12), value);
  }

  /** Every word that encodes is 32 bytes long. */
  lemma ReferenceWordsWidth(q: QuoteIdentity)
    ensures AllWords(ReferenceWords(q)) <==> AllSome(ReferenceWords(q))
  {
    hide UintArgument, AddressArgument, BytesArgument, UintWord, Concat;
    var words := ReferenceWords(q);
    forall i | 0 <= i < 19 && words[i].Some? ensures |words[i].value| == 32 {
      assert i < 10 || 10 <= i;
    }
  }

  lemma ReferenceIsCanonical(q: QuoteIdentity)
    ensures ReferencePreimage(q)
            == if AllSome(ReferenceWords(q)) then Some(DomainAndWords(Ascii(REFERENCE_DOMAIN), Values(ReferenceWords(q))))
               else None
  {
    hide ReferenceWords, DomainAndWords, Ascii, AllSome;
    Pow256Values();
    ReferenceWordsWidth(q);
    if AllWords(ReferenceWords(q)) {
      assert AllSome(ReferenceWords(q));
      DomainAndStaticWordsIsCanonical(Ascii(REFERENCE_DOMAIN), ReferenceWords(q));
    }
  }
}
