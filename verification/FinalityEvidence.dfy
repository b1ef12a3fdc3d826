/** Receipt evidence: one log of an authenticated block together with a signed
    confirmation path of exactly the required depth. */
module FinalityEvidence {
  import opened ByteStrings
  import opened HexText
  import opened EvmProof

  /** Lower-case 0x-prefixed text of the given number of bytes. */
  predicate CanonicalHex(value: string, size: nat) {
    IsFixedHex(value, size, true)
  }

  // The confirmation path.

  /** How a signed header is authenticated: as a block without receipts. */
  function Authenticator(env: Env, chainId: nat, coordinator: string, authority: Bytes)
    : SignedHeader -> Option<Header>
  {
    (signed: SignedHeader) =>
      if BlockAcceptable(env, chainId, coordinator, authority, Block(signed, [])) then
        CheckSigned(env, chainId, authority, signed)
      else
        None
  }

  /** One link: 64-bit successor number, parent hash, observation time. */
  predicate Link(previous: Header, previousAt: int, next: Header, nextAt: int) {
    && nextAt >= previousAt
    && next.number == (previous.number + 1) % UINT64_LIMIT
    && next.parentHash == previous.hash
  }

  /** The header at the end of an unbroken confirmation path, if the path is unbroken. */
  function Head(
    authenticate: SignedHeader -> Option<Header>, previous: Header, previousAt: int, headers: seq<SignedHeader>)
    : Option<Header>
    decreases |headers|
  {
    if headers == [] then
      Some(previous)
    else
      match authenticate(headers[0])
      case None => None
      case Some(next) =>
        if Link(previous, previousAt, next, headers[0].observedAt) then
          Head(authenticate, next, headers[0].observedAt, headers[1..])
        else
          None
  }

  /** Along an accepted path every number is one more than the last over the
      integers: a block number is never zero, so the 64-bit successor never wraps. */
  lemma {:induction false} HeadNumber(
      authenticate: SignedHeader -> Option<Header>, previous: Header, previousAt: int, headers: seq<SignedHeader>)
    requires Head(authenticate, previous, previousAt, headers).Some?
    ensures Head(authenticate, previous, previousAt, headers).value.number == previous.number + |headers|
    decreases |headers|
  {
    if headers != [] {
      HeadNumber(authenticate, authenticate(headers[0]).value, headers[0].observedAt, headers[1..]);
    }
  }

  /** Every header of an accepted path is authenticated, names its predecessor's
      hash, carries the next number and was observed no earlier. */
  lemma {:induction false} PathIsUnbroken(
      authenticate: SignedHeader -> Option<Header>, previous: Header, previousAt: int, headers: seq<SignedHeader>,
      i: nat)
    requires i < |headers|
    requires Head(authenticate, previous, previousAt, headers).Some?
    ensures
      var before := if i == 0 then Some(previous) else authenticate(headers[i - 1]);
      var here := authenticate(headers[i]);
      && before.Some? && here.Some?
      && here.value.number == previous.number + i + 1
      && here.value.parentHash == before.value.hash
      && headers[i].observedAt >= (if i == 0 then previousAt else headers[i - 1].observedAt)
    decreases |headers|
  {
    if i > 0 {
      PathIsUnbroken(authenticate, authenticate(headers[0]).value, headers[0].observedAt, headers[1..], i - 1);
    }
  }

  method CheckConfirmations(
    env: Env, chainId: nat, coordinator: string, authority: Bytes,
    header: Header, observedAt: int, headers: seq<SignedHeader>) returns (head: Option<Header>)
    ensures head == Head(Authenticator(env, chainId, coordinator, authority), header, observedAt, headers)
  {
    ghost var authenticate := Authenticator(env, chainId, coordinator, authority);
    var previous: Header, previousAt: int := header, observedAt;
    assert headers[0..] == headers;
    for index := 0 to |headers|
      invariant Head(authenticate, header, observedAt, headers)
             == Head(authenticate, previous, previousAt, headers[index..])
    {
      var signed := headers[index];
      assert headers[index..][1..] == headers[index + 1..];
      if signed.observedAt < previousAt {
        return None;
      }
      var next := AuthenticateHeader(env, chainId, coordinator, authority, signed);
      if next.None?
         || next.value.number != (previous.number + 1) % UINT64_LIMIT
         || next.value.parentHash != previous.hash
      {
        return None;
      }
      previous, previousAt := next.value, signed.observedAt;
    }
    return Some(previous);
  }

  method AuthenticateHeader(env: Env, chainId: nat, coordinator: string, authority: Bytes, signed: SignedHeader)
    returns (header: Option<Header>)
    ensures header == Authenticator(env, chainId, coordinator, authority)(signed)
  {
    var verified := VerifyAuthenticatedBlock(env, chainId, coordinator, authority, Block(signed, []), []);
    return if verified.None? then None else Some(verified.value.0);
  }

  // The expected log.

  predicate LogMatches(log: Log, expected: ExpectedLog) {
    log.address == expected.address && log.topics == expected.topics && log.data == expected.data
  }

  /** The log at the expected block-global index lies in the last receipt, that
      receipt succeeded, and the log is the expected one. */
  predicate LogPresent(receipts: seq<ReceiptProof>, expected: ExpectedLog) {
    && receipts != []
    && Succeeded(receipts[|receipts| - 1])
    && |AllLogs(receipts[..|receipts| - 1])| <= expected.logIndex < |AllLogs(receipts)|
    && LogMatches(AllLogs(receipts)[expected.logIndex], expected)
  }

  /** Walking all logs in order, as the service does, finds exactly that log. The
      running index passes each value once, so a second match cannot occur. */
  method FindLog(receipts: seq<ReceiptProof>, targetIndex: nat, expected: ExpectedLog) returns (found: Option<Log>)
    requires targetIndex + 1 == |receipts|
    requires forall i :: 0 <= i < |receipts| ==> DecodeReceipt(receipts[i].receiptRlp).Some?
    ensures found.Some? <==> LogPresent(receipts, expected)
    ensures found.Some? ==> found.value == AllLogs(receipts)[expected.logIndex]
  {
    var globalLogIndex := 0;
    found := None;
    for index := 0 to |receipts|
      invariant globalLogIndex == |AllLogs(receipts[..index])|
      invariant index < |receipts| ==> found.None?
      invariant index == |receipts| ==> (found.Some? <==> LogPresent(receipts, expected))
      invariant index == |receipts| && found.Some? ==> found.value == AllLogs(receipts)[expected.logIndex]
    {
      ghost var before, upto := receipts[..index], receipts[..index + 1];
      assert upto[..index] == before;
      assert AllLogs(upto) == AllLogs(before) + LogsOf(receipts[index]);
      if index == targetIndex {
        assert upto == receipts;
        found := ScanLogs(LogsOf(receipts[index]), Succeeded(receipts[index]), globalLogIndex, expected);
      }
      globalLogIndex := globalLogIndex + |LogsOf(receipts[index])|;
    }
    assert receipts[..|receipts|] == receipts;
  }

  method ScanLogs(logs: seq<Log>, succeeded: bool, start: nat, expected: ExpectedLog) returns (found: Option<Log>)
    ensures found.Some? <==>
            && succeeded
            && start <= expected.logIndex < start + |logs|
            && LogMatches(logs[expected.logIndex - start], expected)
    ensures found.Some? ==> found.value == logs[expected.logIndex - start]
  {
    found := None;
    for i := 0 to |logs|
      invariant found.Some? <==>
                && succeeded
                && start <= expected.logIndex < start + i
                && LogMatches(logs[expected.logIndex - start], expected)
      invariant found.Some? ==> found.value == logs[expected.logIndex - start]
    {
      if start + i == expected.logIndex && succeeded && LogMatches(logs[i], expected) {
        // A second match would be rejected here; there is none.
        assert found.None?;
        found := Some(logs[i]);
      }
    }
  }

  // The evidence.

  predicate WellPosed(
    coordinator: string, block: Block, confirmations: seq<SignedHeader>, targetIndex: nat, requiredDepth: nat,
    expected: ExpectedLog)
  {
    && requiredDepth != 0 && |confirmations| == requiredDepth
    && targetIndex + 1 == |block.receipts|
    && CanonicalHex(expected.address, 20) && expected.address == coordinator
    && expected.topics != [] && forall i :: 0 <= i < |expected.topics| ==> CanonicalHex(expected.topics[i], 32)
  }

  predicate EvidenceAcceptable(
    env: Env, chainId: nat, coordinator: string, authority: Bytes, block: Block,
    confirmations: seq<SignedHeader>, targetIndex: nat, requiredDepth: nat, expected: ExpectedLog)
  {
    && WellPosed(coordinator, block, confirmations, targetIndex, requiredDepth, expected)
    && BlockAcceptable(env, chainId, coordinator, authority, block)
    && LogPresent(block.receipts, expected)
    && var header := CheckSigned(env, chainId, authority, block.signed).value;
       var authenticate := Authenticator(env, chainId, coordinator, authority);
       Head(authenticate, header, block.signed.observedAt, confirmations).Some?
  }

  /** The evidence carries the header's own facts, the hash of this very inclusion proof,
      and the hash of the last confirmation. */
  predicate StatesHeader(
    env: Env, chainId: nat, coordinator: string, authority: Bytes, block: Block, confirmations: seq<SignedHeader>,
    e: Evidence)
    requires ParseHeader(env.keccak, block.signed.headerRlp).Some?
  {
    var header := ParseHeader(env.keccak, block.signed.headerRlp).value;
    var head := Head(Authenticator(env, chainId, coordinator, authority), header, block.signed.observedAt, confirmations);
    && e.blockTimestamp == header.timestamp && e.receiptsRoot == header.receiptsRoot
    && e.transactionIndex < |block.receipts|
    && e.inclusionProofHash == InclusionHash(env.keccak, header, block.receipts[e.transactionIndex])
    && head.Some? && e.finalityHeadHash == head.value.hash
  }

  /** The outcome of a call: an error, or a nil error with possibly empty evidence. */
  datatype Outcome = Outcome(failed: bool, evidence: Option<Evidence>)

  /** A call succeeds exactly when the evidence is acceptable, a nil error always
      comes with evidence, and the evidence states the proven facts: the log is
      the element at its index of the block's logs in transaction order, the
      index fits 32 bits, and the finality head is exactly the required number
      of blocks above the receipt's block. */
  method VerifyReceiptEvidence(
    env: Env, chainId: nat, coordinator: string, authority: Bytes, block: Block, sorted: seq<ReceiptProof>,
    confirmations: seq<SignedHeader>, targetIndex: nat, requiredDepth: nat, expected: ExpectedLog)
    returns (r: Outcome)
    requires SortOf(block.receipts, sorted)
    ensures !r.failed <==>
            EvidenceAcceptable(env, chainId, coordinator, authority, block, confirmations, targetIndex, requiredDepth,
                               expected)
    ensures !r.failed <==> r.evidence.Some?
    ensures r.evidence.Some? ==>
              var e := r.evidence.value;
              && ParseHeader(env.keccak, block.signed.headerRlp).Some?
              && e.blockHash == env.keccak(block.signed.headerRlp)
              && e.blockNumber == ParseHeader(env.keccak, block.signed.headerRlp).value.number
              && e.transactionIndex == targetIndex
              && e.transactionHash == env.keccak(block.receipts[targetIndex].transactionRlp)
              && e.logIndex == expected.logIndex < UINT32_LIMIT
              && e.log == AllLogs(block.receipts)[e.logIndex] && LogMatches(e.log, expected)
              && e.finalityHeadNumber == e.blockNumber + requiredDepth
              && StatesHeader(env, chainId, coordinator, authority, block, confirmations, e)
  {
    if !WellPosed(coordinator, block, confirmations, targetIndex, requiredDepth, expected) {
      return Outcome(true, None);
    }
    var verified := VerifyAuthenticatedBlock(env, chainId, coordinator, authority, block, sorted);
    if verified.None? || targetIndex >= |verified.value.1| {
      return Outcome(verified.None?, None);
    }
    var (header, records, _) := verified.value;
    AllDecode(env, coordinator, header, block.receipts);
    var log := FindLog(block.receipts, targetIndex, expected);
    if log.None? {
      return Outcome(true, None);
    }
    var head := CheckConfirmations(
      env, chainId, coordinator, authority, header, block.signed.observedAt, confirmations);
    if head.None? {
      return Outcome(true, None);
    }
    HeadNumber(Authenticator(env, chainId, coordinator, authority), header, block.signed.observedAt, confirmations);
    LogIndexIsSmall(block.receipts);
    var target := records[targetIndex];
    return Outcome(false, Some(Evidence(
      target.transactionHash, target.transactionIndex, target.blockHash, target.blockNumber, header.timestamp,
      target.receiptsRoot, target.inclusionProofHash, head.value.hash, head.value.number,
      log.value, expected.logIndex)));
  }

  lemma AllDecode(env: Env, gateway: string, header: Header, receipts: seq<ReceiptProof>)
    requires AllAcceptable(env, gateway, header, receipts)
    ensures forall i :: 0 <= i < |receipts| ==> DecodeReceipt(receipts[i].receiptRlp).Some?
  {
    forall i | 0 <= i < |receipts|
      ensures DecodeReceipt(receipts[i].receiptRlp).Some?
    {
      AcceptableAt(env, gateway, header, receipts, i);
    }
  }
}
