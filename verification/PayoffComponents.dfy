/** Dynamic ABI vectors: payoff components and certificate signatures. Each is read
    back in only one way, and every offset points exactly at what it names. */
module PayoffComponents {
  import opened ByteStrings
  import opened Rlp
  import opened Abi

  /** One payoff component, its obligation code as UTF-8. */
  datatype Component = Component(kind: int, amount: int, beneficiary: Bytes, obligationCode: Bytes)

  const KIND_LIMIT: nat := 256

  const CODE_OFFSET: nat := 128

  predicate ComponentOk(c: Component) {
    && 0 <= c.kind < KIND_LIMIT && 0 <= c.amount < UINT256_LIMIT
    && |c.beneficiary| == 20 && |c.obligationCode| < UINT256_LIMIT
  }

  function ComponentHead(c: Component): (words: seq<Bytes>)
    requires ComponentOk(c)
    ensures |words| == 4 && AreWords(words)
  {
    [UintWord(c.kind), UintWord(c.amount), AddressWord(c.beneficiary), UintWord(CODE_OFFSET)]
  }

  function EncodeComponent(c: Component): Bytes
    requires ComponentOk(c)
  {
    Concat(ComponentHead(c)) + StringTail(c.obligationCode)
  }

  /** The code of a component starts exactly where its fourth word says. */
  lemma CodeOffsetIsExact(c: Component)
    requires ComponentOk(c)
    ensures |EncodeComponent(c)| >= CODE_OFFSET && EncodeComponent(c)[96..CODE_OFFSET] == UintWord(CODE_OFFSET)
    ensures EncodeComponent(c)[CODE_OFFSET..] == StringTail(c.obligationCode)
  {
    hide UintWord, StringTail;
    var head := ComponentHead(c);
    WordsLength(head);
    WordsLength(head[..3]);
    ConcatFits(head, 3);
    assert head[..4] == head;
  }

  lemma EncodeComponentInjective(c: Component, d: Component)
    requires ComponentOk(c) && ComponentOk(d) && EncodeComponent(c) == EncodeComponent(d)
    ensures c == d
  {
    hide ComponentHead, StringTail;
    WordsLength(ComponentHead(c));
    WordsLength(ComponentHead(d));
    SplitAt(Concat(ComponentHead(c)), StringTail(c.obligationCode), Concat(ComponentHead(d)), StringTail(d.obligationCode));
    WordsInjective(ComponentHead(c), ComponentHead(d));
    assert StringTail(c.obligationCode) + [] == StringTail(d.obligationCode) + [];
    StringTailInjective(c.obligationCode, [], d.obligationCode, []);
    HeadDetermines(c, d);
  }

  lemma HeadDetermines(c: Component, d: Component)
    requires ComponentOk(c) && ComponentOk(d) && ComponentHead(c) == ComponentHead(d)
    ensures c.kind == d.kind && c.amount == d.amount && c.beneficiary == d.beneficiary
  {
    hide UintWord;
    Pow256Values();
    var w, v := ComponentHead(c), ComponentHead(d);
    assert w[0] == v[0] && w[1] == v[1] && w[2] == v[2];
    UintWordInjective(c.kind, d.kind);
    UintWordInjective(c.amount, d.amount);
    AddressWordInjective(c.beneficiary, d.beneficiary);
  }

  // The vector.

  predicate AllOk(components: seq<Component>) {
    forall i :: 0 <= i < |components| ==> ComponentOk(components[i])
  }

  function EncodeAll(components: seq<Component>): (encoded: seq<Bytes>)
    requires AllOk(components)
    ensures |encoded| == |components|
    ensures forall i :: 0 <= i < |components| ==> encoded[i] == EncodeComponent(components[i])
  {
    seq(|components|, i requires 0 <= i < |components| => EncodeComponent(components[i]))
  }

  const COMPONENTS_DOMAIN := "UNIFIED_PAYOFF_COMPONENT_BENEFICIARIES_V1"

  const VECTOR_LENGTH: nat := 5

  function ArrayStart(): nat {
    64 + |StringTail(Ascii(COMPONENTS_DOMAIN))|
  }

  function VectorEncoding(components: seq<Component>): Bytes
    requires AllOk(components)
  {
    UintWord(64) + UintWord(ArrayStart()) + StringTail(Ascii(COMPONENTS_DOMAIN)) + DynamicArray(EncodeAll(components))
  }

  /** Exactly five components, each within its ranges. */
  function EncodeComponentBeneficiaries(components: seq<Component>): Option<Bytes> {
    if |components| == VECTOR_LENGTH && AllOk(components) then Some(VectorEncoding(components)) else None
  }

  /** The encoder as it runs, with its running offset. */
  method BuildComponentBeneficiaries(components: seq<Component>) returns (r: Option<Bytes>)
    ensures r == EncodeComponentBeneficiaries(components)
  {
    hide EncodeComponent, ComponentOk, UintWord, StringTail, Ascii;
    if |components| != VECTOR_LENGTH {
      return None;
    }
    var encoded: seq<Bytes> := [];
    for i := 0 to |components|
      invariant |encoded| == i && AllOk(components[..i])
      invariant forall k :: 0 <= k < i ==> ComponentOk(components[k]) && encoded[k] == EncodeComponent(components[k])
    {
      if !ComponentOk(components[i]) {
        return None;
      }
      encoded := encoded + [EncodeComponent(components[i])];
    }
    assert components[..|components|] == components;
    assert encoded == EncodeAll(components);
    var arrayTail := EncodeDynamicArray(encoded);
    var domainTail := StringTail(Ascii(COMPONENTS_DOMAIN));
    return Some(UintWord(64) + UintWord(64 + |domainTail|) + domainTail + arrayTail);
  }

  /** The array starts exactly where the second offset says, component `i` exactly where its
      own offset says, and its code exactly where the offset inside the component says, for
      obligation codes of any length. */
  lemma VectorOffsetsAreExact(components: seq<Component>, i: nat)
    requires AllOk(components) && i < |components|
    ensures |VectorEncoding(components)| >= ArrayStart()
    ensures VectorEncoding(components)[ArrayStart()..] == DynamicArray(EncodeAll(components))
    ensures var start := ElementStart(EncodeAll(components), i);
            && Offsets(EncodeAll(components), |components|)[i] == UintWord(start)
            && start + |EncodeComponent(components[i])| <= |ArrayBody(EncodeAll(components))|
            && ArrayBody(EncodeAll(components))[start..start + |EncodeComponent(components[i])|]
               == EncodeComponent(components[i])
    ensures var encoded := EncodeComponent(components[i]);
            && |encoded| >= CODE_OFFSET && encoded[96..CODE_OFFSET] == UintWord(CODE_OFFSET)
            && encoded[CODE_OFFSET..] == StringTail(components[i].obligationCode)
  {
    hide EncodeComponent, ComponentOk, UintWord, StringTail, DynamicArray, ArrayBody, Ascii;
    var head := UintWord(64) + UintWord(ArrayStart()) + StringTail(Ascii(COMPONENTS_DOMAIN));
    assert |head| == ArrayStart();
    assert (head + DynamicArray(EncodeAll(components)))[|head|..] == DynamicArray(EncodeAll(components));
    OffsetIsExact(EncodeAll(components), i);
    CodeOffsetIsExact(components[i]);
  }

  lemma {:induction false} EncodeAllInjective(xs: seq<Component>, ys: seq<Component>)
    requires AllOk(xs) && AllOk(ys) && EncodeAll(xs) == EncodeAll(ys)
    ensures xs == ys
  {
    hide EncodeComponent, ComponentOk;
    assert |xs| == |EncodeAll(xs)| == |EncodeAll(ys)| == |ys|;
    forall i | 0 <= i < |xs| ensures xs[i] == ys[i] {
      assert EncodeAll(xs)[i] == EncodeAll(ys)[i];
      EncodeComponentInjective(xs[i], ys[i]);
    }
  }

  /** Different component vectors never share an encoding. */
  lemma VectorsEncodeDifferently(xs: seq<Component>, ys: seq<Component>)
    requires EncodeComponentBeneficiaries(xs).Some?
    requires EncodeComponentBeneficiaries(xs) == EncodeComponentBeneficiaries(ys)
    requires |EncodeComponentBeneficiaries(xs).value| < UINT256_LIMIT
    ensures xs == ys
  {
    hide ComponentOk, UintWord, StringTail, DynamicArray, EncodeAll, Ascii;
    var head := UintWord(64) + UintWord(ArrayStart()) + StringTail(Ascii(COMPONENTS_DOMAIN));
    SplitAt(head, DynamicArray(EncodeAll(xs)), head, DynamicArray(EncodeAll(ys)));
    DynamicArrayInjective(EncodeAll(xs), EncodeAll(ys));
    EncodeAllInjective(xs, ys);
  }

  // The five canonical components.

  datatype Debt = Debt(
    principal: int, accruedInterest: int, fees: int, penalties: int, credits: int,
    lenderBeneficiary: Bytes, feePenaltyBeneficiary: Bytes)

  function CanonicalComponents(d: Debt): seq<Component> {
    [Component(1, d.principal, d.lenderBeneficiary, Ascii("PRINCIPAL")),
     Component(2, d.accruedInterest, d.lenderBeneficiary, Ascii("ACCRUED_INTEREST")),
     Component(4, d.fees, d.feePenaltyBeneficiary, Ascii("FEE")),
     Component(5, d.penalties, d.feePenaltyBeneficiary, Ascii("PENALTY")),
     Component(7, d.credits, d.feePenaltyBeneficiary, Ascii("FEE_PENALTY_CREDIT"))]
  }

  /** The component hash input determines every amount and both beneficiaries. */
  lemma ComponentsDetermineDebt(d: Debt, f: Debt)
    requires EncodeComponentBeneficiaries(CanonicalComponents(d)).Some?
    requires EncodeComponentBeneficiaries(CanonicalComponents(d)) == EncodeComponentBeneficiaries(CanonicalComponents(f))
    requires |EncodeComponentBeneficiaries(CanonicalComponents(d)).value| < UINT256_LIMIT
    ensures d == f
  {
    hide EncodeComponentBeneficiaries, Ascii;
    VectorsEncodeDifferently(CanonicalComponents(d), CanonicalComponents(f));
    var x, y := CanonicalComponents(d), CanonicalComponents(f);
    assert x[0] == y[0] && x[1] == y[1] && x[2] == y[2] && x[3] == y[3] && x[4] == y[4];
  }

  // Certificates with any number of signatures.

  datatype SignedCertificate = SignedCertificate(
    messageId: Bytes, sourceProofHash: Bytes, signerSetHash: Bytes, signerSetVersion: int, signatures: seq<Bytes>)

  predicate CertificateOk(c: SignedCertificate) {
    && |c.messageId| == 32 && |c.sourceProofHash| == 32 && |c.signerSetHash| == 32
    && 0 <= c.signerSetVersion < UINT32_LIMIT
    && forall i :: 0 <= i < |c.signatures| ==> 0 < |c.signatures[i]| < UINT256_LIMIT
  }

  function SignatureTails(signatures: seq<Bytes>): (tails: seq<Bytes>)
    ensures |tails| == |signatures|
    ensures forall i :: 0 <= i < |signatures| ==> tails[i] == StringTail(signatures[i])
  {
    seq(|signatures|, i requires 0 <= i < |signatures| => StringTail(signatures[i]))
  }

  function CertificateHead(c: SignedCertificate): (words: seq<Bytes>)
    requires CertificateOk(c)
    ensures |words| == 5 && AreWords(words)
  {
    [c.messageId, c.sourceProofHash, c.signerSetHash, UintWord(c.signerSetVersion), UintWord(5 * 32)]
  }

  function CertificateEncoding(c: SignedCertificate): Bytes
    requires CertificateOk(c)
  {
    Concat(CertificateHead(c)) + DynamicArray(SignatureTails(c.signatures))
  }

  lemma SignatureTailsInjective(xs: seq<Bytes>, ys: seq<Bytes>)
    requires forall i :: 0 <= i < |xs| ==> |xs[i]| < UINT256_LIMIT
    requires forall i :: 0 <= i < |ys| ==> |ys[i]| < UINT256_LIMIT
    requires SignatureTails(xs) == SignatureTails(ys)
    ensures xs == ys
  {
    hide StringTail;
    assert |xs| == |SignatureTails(xs)| == |SignatureTails(ys)| == |ys|;
    forall i | 0 <= i < |xs| ensures xs[i] == ys[i] {
      assert SignatureTails(xs)[i] == SignatureTails(ys)[i];
      assert StringTail(xs[i]) + [] == StringTail(ys[i]) + [];
      StringTailInjective(xs[i], [], ys[i], []);
    }
  }

  lemma CertificateHeadInjective(c: SignedCertificate, d: SignedCertificate)
    requires CertificateOk(c) && CertificateOk(d) && CertificateHead(c) == CertificateHead(d)
    ensures c.messageId == d.messageId && c.sourceProofHash == d.sourceProofHash
    ensures c.signerSetHash == d.signerSetHash && c.signerSetVersion == d.signerSetVersion
  {
    hide UintWord;
    Pow256Values();
    var w, v := CertificateHead(c), CertificateHead(d);
    assert w[0] == v[0] && w[1] == v[1] && w[2] == v[2] && w[3] == v[3];
    UintWordInjective(c.signerSetVersion, d.signerSetVersion);
  }

  /** A certificate tuple determines every field and every signature, however many. */
  lemma CertificatesEncodeDifferently(c: SignedCertificate, d: SignedCertificate)
    requires CertificateOk(c) && CertificateOk(d) && CertificateEncoding(c) == CertificateEncoding(d)
    requires |CertificateEncoding(c)| < UINT256_LIMIT
    ensures c == d
  {
    hide CertificateHead, DynamicArray, SignatureTails;
    WordsLength(CertificateHead(c));
    WordsLength(CertificateHead(d));
    SplitAt(Concat(CertificateHead(c)), DynamicArray(SignatureTails(c.signatures)),
            Concat(CertificateHead(d)), DynamicArray(SignatureTails(d.signatures)));
    WordsInjective(CertificateHead(c), CertificateHead(d));
    CertificateHeadInjective(c, d);
    DynamicArrayInjective(SignatureTails(c.signatures), SignatureTails(d.signatures));
    SignatureTailsInjective(c.signatures, d.signatures);
  }

  /** The encoder as it runs: offsets and tails accumulate side by side. */
  method BuildSignatureArray(signatures: seq<Bytes>) returns (encoded: Bytes)
    ensures encoded == DynamicArray(SignatureTails(signatures))
  {
    hide StringTail, UintWord;
    var tails: seq<Bytes> := [];
    var offsets: seq<Bytes> := [];
    ghost var all := SignatureTails(signatures);
    var nextOffset := 32 * |signatures|;
    for i := 0 to |signatures|
      invariant tails == all[..i] && offsets == Offsets(all, i) && nextOffset == ElementStart(all, i)
    {
      var tail := StringTail(signatures[i]);
      assert all[..i + 1] == all[..i] + [tail];
      TotalSnoc(all, i);
      offsets := offsets + [UintWord(nextOffset)];
      tails := tails + [tail];
      nextOffset := nextOffset + |tail|;
    }
    assert all[..|all|] == all;
    var head := AppendAll(offsets);
    var body := AppendAll(tails);
    encoded := UintWord(|signatures|) + (head + body);
  }
}
