/** Authenticated EVM blocks: header and receipt decoding, the signed and
    prefix-complete block check, and the receipt evidence with its confirmation
    path (Ethereum Yellow Paper, section 4.3; EIP-2718, "Receipts"). */
module EvmProof {
  import opened ByteStrings
  import opened Rlp
  import opened Trie

  const MAX_HEADER_RLP_BYTES: nat := 0x1_0000
  const MAX_TRANSACTION_BYTES: nat := 0x10_0000
  const MAX_RECEIPT_BYTES: nat := 0x40_0000
  const MAX_RECEIPTS_PER_BLOCK: nat := 4096
  const MAX_BLOCK_PROOF_BYTES: nat := 0x200_0000
  const MAX_BLOCK_INPUT_BYTES: nat := 0x400_0000
  const MAX_RECEIPT_LOGS: nat := 4096
  const MAX_LOG_TOPICS: nat := 16
  const NANOS_PER_SECOND: nat := 1_000_000_000

  datatype HeaderFields = Header(
    number: nat, hash: Bytes32, parentHash: Bytes, transactionsRoot: Bytes, receiptsRoot: Bytes, timestamp: nat)

  /** Numbers and timestamps that the parser accepts: positive and 64 bits wide. */
  type Header = h: HeaderFields | 0 < h.number < UINT64_LIMIT && 0 < h.timestamp < UINT64_LIMIT
    witness Header(1, ZERO32, [], [], [], 1)

  datatype Log = Log(address: string, topics: seq<string>, data: Bytes)

  datatype ReceiptProof = ReceiptProof(
    transactionIndex: nat,
    transactionRlp: Bytes, transactionProofNodes: seq<Bytes>,
    receiptRlp: Bytes, receiptProofNodes: seq<Bytes>)

  /** `observedAt` counts nanoseconds since the Unix epoch. */
  datatype SignedHeader = SignedHeader(headerRlp: Bytes, observedAt: int, signature: Bytes)

  datatype Block = Block(signed: SignedHeader, receipts: seq<ReceiptProof>)

  datatype VerifiedReceipt = VerifiedReceipt(
    transactionHash: Bytes32, receiptPayloadHash: Bytes32, succeeded: bool, transactionIndex: nat,
    blockNumber: nat, blockHash: Bytes32, receiptsRoot: Bytes, inclusionProofHash: Bytes32,
    headerSignatureHash: Bytes32)

  /** A settlement log of the gateway as handed to the decoder, with its block-global index. */
  datatype Settlement = Settlement(log: Log, logIndex: nat, receipt: VerifiedReceipt)

  datatype ExpectedLog = ExpectedLog(address: string, topics: seq<string>, data: Bytes, logIndex: nat)

  datatype Evidence = Evidence(
    transactionHash: Bytes32, transactionIndex: nat, blockHash: Bytes32, blockNumber: nat, blockTimestamp: nat,
    receiptsRoot: Bytes, inclusionProofHash: Bytes32, finalityHeadHash: Bytes32, finalityHeadNumber: nat,
    log: Log, logIndex: nat)

  /** Foreign code: the hash, signature verification, and the settlement decoder. */
  datatype Env = Env(
    keccak: Hash,
    ed25519Verify: (Bytes, Bytes, Bytes) -> bool,
    settlementTopic: string,
    settlementDecodes: Log -> bool)

  // Decoding.

  function ParseHeader(keccak: Hash, encoded: Bytes): (r: Option<Header>)
    ensures r.Some? ==>
              && r.value.hash == keccak(encoded)
              && |r.value.transactionsRoot| == 32 && |r.value.receiptsRoot| == 32
  {
    if |encoded| == 0 || |encoded| > MAX_HEADER_RLP_BYTES then
      None
    else
      match DecodeWhole(encoded)
      case None => None
      case Some(value) =>
        if !value.List? || |value.list| < 12 then None else HeaderOf(keccak, encoded, value.list)
  }

  function HeaderOf(keccak: Hash, encoded: Bytes, list: seq<Value>): (r: Option<Header>)
    requires |list| >= 12
    ensures r.Some? ==>
              && r.value.hash == keccak(encoded)
              && |r.value.transactionsRoot| == 32 && |r.value.receiptsRoot| == 32
  {
    var parent, transactionsRoot, receiptsRoot, number, timestamp := list[0], list[4], list[5], list[8], list[11];
    if parent.List? || transactionsRoot.List? || receiptsRoot.List? || number.List? || timestamp.List? then
      None
    else if |parent.payload| != 32 || |transactionsRoot.payload| != 32 || |receiptsRoot.payload| != 32 then
      None
    else
      match (PositiveUint64(number.payload), PositiveUint64(timestamp.payload))
      case (Some(n), Some(t)) =>
        Some(Header(n, keccak(encoded), parent.payload, transactionsRoot.payload, receiptsRoot.payload, t))
      case _ => None
  }

  function PositiveUint64(payload: Bytes): (r: Option<nat>)
    ensures r.Some? ==> 0 < r.value < UINT64_LIMIT
  {
    match Uint64(payload)
    case None => None
    case Some(n) =>
      Uint64RoundTrip(payload, n);
      if n == 0 then None else Some(n)
  }

  function DecodeTopics(topics: seq<Value>): (r: Option<seq<string>>)
    ensures r.Some? ==> |r.value| == |topics|
  {
    if topics == [] then
      Some([])
    else if topics[0].List? || |topics[0].payload| != 32 then
      None
    else
      match DecodeTopics(topics[1..])
      case None => None
      case Some(rest) => Some([Hex0x(topics[0].payload)] + rest)
  }

  function DecodeLog(encoded: Value): Option<Log> {
    if !encoded.List? || |encoded.list| != 3 then
      None
    else
      var address, topics, data := encoded.list[0], encoded.list[1], encoded.list[2];
      if address.List? || |address.payload| != 20 || !topics.List? || |topics.list| > MAX_LOG_TOPICS
         || data.List? || |data.payload| > MAX_RECEIPT_BYTES
      then
        None
      else
        match DecodeTopics(topics.list)
        case None => None
        case Some(decoded) => Some(Log(Hex0x(address.payload), decoded, data.payload))
  }

  function DecodeLogs(encoded: seq<Value>): (r: Option<seq<Log>>)
    ensures r.Some? ==> |r.value| == |encoded|
  {
    if encoded == [] then
      Some([])
    else
      match (DecodeLog(encoded[0]), DecodeLogs(encoded[1..]))
      case (Some(log), Some(rest)) => Some([log] + rest)
      case _ => None
  }

  /** The success bit and the logs of a post-Byzantium receipt, typed or not. */
  function DecodeReceipt(encoded: Bytes): (r: Option<(bool, seq<Log>)>)
    ensures r.Some? ==> |r.value.1| <= MAX_RECEIPT_LOGS && (!r.value.0 ==> r.value.1 == [])
  {
    if encoded == [] then
      None
    else
      var payload := if 0 < encoded[0] < 0x80 then encoded[1..] else encoded;
      match DecodeWhole(payload)
      case None => None
      case Some(value) =>
        if !value.List? || |value.list| != 4 then None
        else ReceiptFields(value.list[0], value.list[1], value.list[2], value.list[3])
  }

  function ReceiptFields(status: Value, gas: Value, bloom: Value, logs: Value): (r: Option<(bool, seq<Log>)>)
    ensures r.Some? ==> |r.value.1| <= MAX_RECEIPT_LOGS && (!r.value.0 ==> r.value.1 == [])
  {
    if status.List? || gas.List? || Uint64(gas.payload).None? || bloom.List? || |bloom.payload| != 256 then
      None
    else if status.payload != [] && status.payload != [1] then
      None
    else if !logs.List? || |logs.list| > MAX_RECEIPT_LOGS then
      None
    else
      var succeeded := status.payload == [1];
      if !succeeded && |logs.list| != 0 then
        None
      else
        match DecodeLogs(logs.list)
        case None => None
        case Some(decoded) => Some((succeeded, decoded))
  }

  // Signed headers.

  function SigningPreimage(env: Env, chainId: nat, signed: SignedHeader): Bytes
    requires signed.observedAt >= 0
  {
    Ascii("UNIFIED_EVM_HEADER_AUTHORITY_V1") + [0]
    + BigEndian(chainId, 8) + BigEndian(signed.observedAt, 8) + env.keccak(signed.headerRlp)
  }

  /** The cast of an unsigned timestamp to a signed 64-bit integer. */
  function ToInt64(n: nat): int
    requires n < UINT64_LIMIT
  {
    if n <= MAX_INT then n else n - UINT64_LIMIT
  }

  /** A header with a valid authority signature, observed no earlier than its timestamp. */
  function CheckSigned(env: Env, chainId: nat, authority: Bytes, signed: SignedHeader): (r: Option<Header>)
    ensures r.Some? ==> r == ParseHeader(env.keccak, signed.headerRlp)
  {
    if |authority| != 32 || |signed.signature| != 64 || signed.observedAt <= 0 || chainId == 0 then
      None
    else
      match ParseHeader(env.keccak, signed.headerRlp)
      case None => None
      case Some(header) =>
        if signed.observedAt / NANOS_PER_SECOND < ToInt64(header.timestamp) then
          None
        else if !env.ed25519Verify(authority, env.keccak(SigningPreimage(env, chainId, signed)), signed.signature) then
          None
        else
          Some(header)
  }

  /** The observation-time check means what it says exactly for timestamps below
      2^63; from there on the cast is negative and the check never rejects. */
  lemma ObservationTimeCheck(timestamp: nat, observedAt: int)
    requires timestamp < UINT64_LIMIT && observedAt > 0
    ensures timestamp <= MAX_INT ==>
              (observedAt / NANOS_PER_SECOND < ToInt64(timestamp) <==> observedAt < timestamp * NANOS_PER_SECOND)
    ensures timestamp > MAX_INT ==> !(observedAt / NANOS_PER_SECOND < ToInt64(timestamp))
  {
  }

  // Blocks.

  function InputBytes(receipts: seq<ReceiptProof>): nat {
    if receipts == [] then 0
    else |receipts[0].transactionRlp| + |receipts[0].receiptRlp| + ProofBytes(receipts[..1]) + InputBytes(receipts[1..])
  }

  function ProofBytes(receipts: seq<ReceiptProof>): nat {
    if receipts == [] then 0
    else TotalLength(receipts[0].transactionProofNodes) + TotalLength(receipts[0].receiptProofNodes)
         + ProofBytes(receipts[1..])
  }

  predicate ValidBlockSize(block: Block) {
    && |block.receipts| <= MAX_RECEIPTS_PER_BLOCK
    && |block.signed.headerRlp| + |block.signed.signature| + InputBytes(block.receipts) <= MAX_BLOCK_INPUT_BYTES
    && ProofBytes(block.receipts) <= MAX_BLOCK_PROOF_BYTES
  }

  /** The running totals of one list of proof nodes, each addition guarded by its limit. */
  method AddNodes(nodes: seq<Bytes>, inputBytes: nat, proofBytes: nat) returns (ok: bool, input: nat, proofs: nat)
    requires inputBytes <= MAX_BLOCK_INPUT_BYTES && proofBytes <= MAX_BLOCK_PROOF_BYTES
    ensures ok <==> inputBytes + TotalLength(nodes) <= MAX_BLOCK_INPUT_BYTES
                    && proofBytes + TotalLength(nodes) <= MAX_BLOCK_PROOF_BYTES
    ensures ok ==> input == inputBytes + TotalLength(nodes) && proofs == proofBytes + TotalLength(nodes)
  {
    input, proofs := inputBytes, proofBytes;
    for i := 0 to |nodes|
      invariant input <= MAX_BLOCK_INPUT_BYTES && proofs <= MAX_BLOCK_PROOF_BYTES
      invariant input + TotalLength(nodes[i..]) == inputBytes + TotalLength(nodes)
      invariant proofs + TotalLength(nodes[i..]) == proofBytes + TotalLength(nodes)
    {
      assert nodes[i..][1..] == nodes[i + 1..];
      if |nodes[i]| > MAX_BLOCK_PROOF_BYTES - proofs || |nodes[i]| > MAX_BLOCK_INPUT_BYTES - input {
        return false, input, proofs;
      }
      input, proofs := input + |nodes[i]|, proofs + |nodes[i]|;
    }
    return true, input, proofs;
  }

  /** Checking every partial sum against its limit is checking the totals. */
  method CheckBlockSize(block: Block) returns (ok: bool)
    ensures ok == ValidBlockSize(block)
  {
    hide InputBytes, ProofBytes, TotalLength;
    NoReceiptBytes();
    if |block.receipts| > MAX_RECEIPTS_PER_BLOCK {
      return false;
    }
    if |block.signed.headerRlp| > MAX_BLOCK_INPUT_BYTES
       || |block.signed.signature| > MAX_BLOCK_INPUT_BYTES - |block.signed.headerRlp|
    {
      return false;
    }
    ghost var start := |block.signed.headerRlp| + |block.signed.signature|;
    var input: nat, proofs: nat := |block.signed.headerRlp| + |block.signed.signature|, 0;
    for i := 0 to |block.receipts|
      invariant input <= MAX_BLOCK_INPUT_BYTES && proofs <= MAX_BLOCK_PROOF_BYTES
      invariant input + InputBytes(block.receipts[i..]) == start + InputBytes(block.receipts)
      invariant proofs + ProofBytes(block.receipts[i..]) == ProofBytes(block.receipts)
    {
      var receipt := block.receipts[i];
      ReceiptBytes(block.receipts, i);
      if |receipt.transactionRlp| > MAX_BLOCK_INPUT_BYTES - input
         || |receipt.receiptRlp| > MAX_BLOCK_INPUT_BYTES - input - |receipt.transactionRlp|
      {
        return false;
      }
      input := input + |receipt.transactionRlp| + |receipt.receiptRlp|;
      var within: bool;
      within, input, proofs := AddNodes(receipt.transactionProofNodes, input, proofs);
      if !within {
        return false;
      }
      within, input, proofs := AddNodes(receipt.receiptProofNodes, input, proofs);
      if !within {
        return false;
      }
    }
    assert block.receipts[|block.receipts|..] == [];
    return true;
  }

  lemma NoReceiptBytes()
    ensures InputBytes([]) == 0 && ProofBytes([]) == 0
  {
  }

  lemma ReceiptBytes(receipts: seq<ReceiptProof>, i: nat)
    requires i < |receipts|
    ensures var nodes := TotalLength(receipts[i].transactionProofNodes) + TotalLength(receipts[i].receiptProofNodes);
            && ProofBytes(receipts[i..]) == nodes + ProofBytes(receipts[i + 1..])
            && InputBytes(receipts[i..])
               == |receipts[i].transactionRlp| + |receipts[i].receiptRlp| + nodes + InputBytes(receipts[i + 1..])
  {
    assert receipts[i..][1..] == receipts[i + 1..];
    assert receipts[i..][..1] == [receipts[i]];
    assert [receipts[i]][1..] == [];
    assert ProofBytes([receipts[i]])
           == TotalLength(receipts[i].transactionProofNodes) + TotalLength(receipts[i].receiptProofNodes) + ProofBytes([]);
  }

  predicate Canonical(receipts: seq<ReceiptProof>) {
    forall i :: 0 <= i < |receipts| ==> receipts[i].transactionIndex == i
  }

  /** The transaction and the receipt are proven at one index under the header's roots. */
  predicate ProvenReceipt(keccak: Hash, header: Header, proof: ReceiptProof) {
    && 0 < |proof.transactionRlp| <= MAX_TRANSACTION_BYTES
    && 0 < |proof.receiptRlp| <= MAX_RECEIPT_BYTES
    && Included(keccak, header.transactionsRoot, EncodeUint(proof.transactionIndex), proof.transactionRlp,
                proof.transactionProofNodes)
    && Included(keccak, header.receiptsRoot, EncodeUint(proof.transactionIndex), proof.receiptRlp,
                proof.receiptProofNodes)
  }

  function Chunk(value: Bytes): Bytes {
    BigEndian(|value|, 8) + value
  }

  function Chunks(values: seq<Bytes>): Bytes {
    if values == [] then [] else Chunk(values[0]) + Chunks(values[1..])
  }

  /** What the inclusion hash covers: no counts separate the two node lists. */
  function InclusionPreimage(header: Header, proof: ReceiptProof): Bytes {
    Ascii("UNIFIED_EVM_TRANSACTION_RECEIPT_INCLUSION_V1") + [0]
    + Chunk(Ascii(Hex0x(header.hash)))
    + BigEndian(proof.transactionIndex, 8)
    + Chunks(Items(proof))
  }

  function Items(proof: ReceiptProof): seq<Bytes> {
    [proof.transactionRlp] + proof.transactionProofNodes + [proof.receiptRlp] + proof.receiptProofNodes
  }

  function InclusionHash(keccak: Hash, header: Header, proof: ReceiptProof): Bytes32 {
    keccak(InclusionPreimage(header, proof))
  }

  function RecordOf(keccak: Hash, header: Header, signatureHash: Bytes32, proof: ReceiptProof): VerifiedReceipt {
    VerifiedReceipt(
      keccak(proof.transactionRlp), keccak(proof.receiptRlp), Succeeded(proof), proof.transactionIndex,
      header.number, header.hash, header.receiptsRoot, InclusionHash(keccak, header, proof), signatureHash)
  }

  predicate IsSettlement(env: Env, gateway: string, succeeded: bool, log: Log) {
    succeeded && log.address == gateway && log.topics != [] && log.topics[0] == env.settlementTopic
  }

  /** A settlement log of the gateway must decode; other logs are passed over. */
  predicate LogAcceptable(env: Env, gateway: string, succeeded: bool, log: Log) {
    IsSettlement(env, gateway, succeeded, log) ==> env.settlementDecodes(log)
  }

  predicate Succeeded(proof: ReceiptProof) {
    DecodeReceipt(proof.receiptRlp).Some? && DecodeReceipt(proof.receiptRlp).value.0
  }

  function LogsOf(proof: ReceiptProof): seq<Log> {
    match DecodeReceipt(proof.receiptRlp)
    case None => []
    case Some((_, logs)) => logs
  }

  /** All logs of a block in transaction order: the block-global log index is a
      position in this list. */
  function AllLogs(receipts: seq<ReceiptProof>): seq<Log> {
    if receipts == [] then [] else AllLogs(receipts[..|receipts| - 1]) + LogsOf(receipts[|receipts| - 1])
  }

  /** The bound that the block and receipt limits give: 2^24. */
  const MAX_BLOCK_LOGS: nat := 0x100_0000

  /** Every block-global log index is below 2^24. */
  lemma {:induction false} LogIndexIsSmall(receipts: seq<ReceiptProof>)
    requires |receipts| <= MAX_RECEIPTS_PER_BLOCK
    ensures |AllLogs(receipts)| <= |receipts| * MAX_RECEIPT_LOGS <= MAX_BLOCK_LOGS
  {
    if receipts != [] {
      LogIndexIsSmall(receipts[..|receipts| - 1]);
    }
  }

  predicate ReceiptAcceptable(env: Env, gateway: string, header: Header, proof: ReceiptProof) {
    && ProvenReceipt(env.keccak, header, proof)
    && DecodeReceipt(proof.receiptRlp).Some?
    && var (succeeded, logs) := DecodeReceipt(proof.receiptRlp).value;
       forall i :: 0 <= i < |logs| ==> LogAcceptable(env, gateway, succeeded, logs[i])
  }

  /** The whole acceptance condition of a block, receipt by receipt. */
  predicate BlockAcceptable(env: Env, chainId: nat, gateway: string, authority: Bytes, block: Block) {
    && ValidBlockSize(block)
    && CheckSigned(env, chainId, authority, block.signed).Some?
    && Canonical(block.receipts)
    && var header := CheckSigned(env, chainId, authority, block.signed).value;
       AllAcceptable(env, gateway, header, block.receipts)
  }

  predicate AllAcceptable(env: Env, gateway: string, header: Header, receipts: seq<ReceiptProof>) {
    receipts == []
    || (&& AllAcceptable(env, gateway, header, receipts[..|receipts| - 1])
        && ReceiptAcceptable(env, gateway, header, receipts[|receipts| - 1]))
  }

  lemma {:induction false} AcceptableAt(env: Env, gateway: string, header: Header, receipts: seq<ReceiptProof>, i: nat)
    requires AllAcceptable(env, gateway, header, receipts) && i < |receipts|
    ensures ReceiptAcceptable(env, gateway, header, receipts[i])
  {
    if i < |receipts| - 1 {
      AcceptableAt(env, gateway, header, receipts[..|receipts| - 1], i);
    }
  }

  lemma NotAllAcceptable(env: Env, gateway: string, header: Header, receipts: seq<ReceiptProof>, i: nat)
    requires i < |receipts| && !ReceiptAcceptable(env, gateway, header, receipts[i])
    ensures !AllAcceptable(env, gateway, header, receipts)
  {
    if AllAcceptable(env, gateway, header, receipts) {
      AcceptableAt(env, gateway, header, receipts, i);
    }
  }

  function Records(keccak: Hash, header: Header, signatureHash: Bytes32, receipts: seq<ReceiptProof>)
    : (r: seq<VerifiedReceipt>)
    ensures |r| == |receipts|
    ensures forall i :: 0 <= i < |receipts| ==> r[i] == RecordOf(keccak, header, signatureHash, receipts[i])
  {
    if receipts == [] then []
    else
      Records(keccak, header, signatureHash, receipts[..|receipts| - 1])
      + [RecordOf(keccak, header, signatureHash, receipts[|receipts| - 1])]
  }

  // Settlement events.

  /** The settlements among the logs of one receipt, whose first log has index `start`. */
  function LogSettlements(env: Env, gateway: string, record: VerifiedReceipt, logs: seq<Log>, start: nat)
    : seq<Settlement>
    decreases |logs|
  {
    if logs == [] then []
    else
      var last := logs[|logs| - 1];
      LogSettlements(env, gateway, record, logs[..|logs| - 1], start)
      + if IsSettlement(env, gateway, record.succeeded, last) then [Settlement(last, start + |logs| - 1, record)] else []
  }

  /** The settlements of a block in log order. */
  function Settlements(env: Env, gateway: string, header: Header, signatureHash: Bytes32, receipts: seq<ReceiptProof>)
    : seq<Settlement>
    decreases |receipts|
  {
    if receipts == [] then []
    else
      var init, last := receipts[..|receipts| - 1], receipts[|receipts| - 1];
      Settlements(env, gateway, header, signatureHash, init)
      + LogSettlements(env, gateway, RecordOf(env.keccak, header, signatureHash, last), LogsOf(last), |AllLogs(init)|)
  }

  /** The log at a block-global index, in a receipt with this record, is a settlement. */
  predicate SettlesAt(
    env: Env, gateway: string, header: Header, signatureHash: Bytes32, receipts: seq<ReceiptProof>, i: nat, e: Settlement)
    requires i < |receipts|
  {
    && e.receipt == RecordOf(env.keccak, header, signatureHash, receipts[i])
    && |AllLogs(receipts[..i])| <= e.logIndex < |AllLogs(receipts[..i])| + |LogsOf(receipts[i])|
    && e.log == LogsOf(receipts[i])[e.logIndex - |AllLogs(receipts[..i])|]
    && IsSettlement(env, gateway, e.receipt.succeeded, e.log)
  }

  lemma {:induction false} LogSettlementsExact(
      env: Env, gateway: string, record: VerifiedReceipt, logs: seq<Log>, start: nat, e: Settlement)
    ensures e in LogSettlements(env, gateway, record, logs, start) <==>
            && e.receipt == record && start <= e.logIndex < start + |logs| && e.log == logs[e.logIndex - start]
            && IsSettlement(env, gateway, record.succeeded, e.log)
    decreases |logs|
  {
    if logs != [] {
      LogSettlementsExact(env, gateway, record, logs[..|logs| - 1], start, e);
    }
  }

  /** The events of a block are exactly the gateway's settlement logs in successful receipts,
      each under its block-global index and with the record of its receipt. */
  lemma {:induction false} SettlementsExact(
      env: Env, gateway: string, header: Header, signatureHash: Bytes32, receipts: seq<ReceiptProof>, e: Settlement)
    ensures e in Settlements(env, gateway, header, signatureHash, receipts) <==>
            exists i :: 0 <= i < |receipts| && SettlesAt(env, gateway, header, signatureHash, receipts, i, e)
    decreases |receipts|
  {
    hide IsSettlement, LogSettlements, RecordOf, LogsOf, AllLogs;
    if receipts != [] {
      var n := |receipts| - 1;
      var init, last := receipts[..n], receipts[n];
      SettlementsExact(env, gateway, header, signatureHash, init, e);
      LogSettlementsExact(
        env, gateway, RecordOf(env.keccak, header, signatureHash, last), LogsOf(last), |AllLogs(init)|, e);
      forall i | 0 <= i < n
        ensures SettlesAt(env, gateway, header, signatureHash, init, i, e)
                <==> SettlesAt(env, gateway, header, signatureHash, receipts, i, e)
      {
        assert init[..i] == receipts[..i];
      }
      if e in Settlements(env, gateway, header, signatureHash, receipts) {
        if e in Settlements(env, gateway, header, signatureHash, init) {
          var i :| 0 <= i < n && SettlesAt(env, gateway, header, signatureHash, init, i, e);
          assert SettlesAt(env, gateway, header, signatureHash, receipts, i, e);
        } else {
          assert SettlesAt(env, gateway, header, signatureHash, receipts, n, e);
        }
      }
    }
  }

  // The sort that precedes the receipt loop.

  /** What a sort by transaction index may return. */
  ghost predicate SortOf(receipts: seq<ReceiptProof>, sorted: seq<ReceiptProof>) {
    && multiset(sorted) == multiset(receipts)
    && forall i, j :: 0 <= i < j < |sorted| ==> sorted[i].transactionIndex <= sorted[j].transactionIndex
  }

  /** On a canonical list the sort is the identity. */
  lemma {:induction false} SortIsIdentity(receipts: seq<ReceiptProof>, sorted: seq<ReceiptProof>)
    requires Canonical(receipts) && SortOf(receipts, sorted)
    ensures sorted == receipts
    decreases |receipts|
  {
    assert |sorted| == |multiset(sorted)| == |receipts|;
    if receipts != [] {
      var n := |receipts| - 1;
      LastOfSort(receipts, sorted);
      SameInit(sorted, receipts);
      SortIsIdentity(receipts[..n], sorted[..n]);
      assert sorted == sorted[..n] + [sorted[n]] && receipts == receipts[..n] + [receipts[n]];
    }
  }

  lemma LastOfSort(receipts: seq<ReceiptProof>, sorted: seq<ReceiptProof>)
    requires Canonical(receipts) && SortOf(receipts, sorted) && 0 < |receipts| == |sorted|
    ensures sorted[|receipts| - 1] == receipts[|receipts| - 1]
  {
    var n := |receipts| - 1;
    assert receipts[n] in multiset(receipts);
    var j :| 0 <= j < |sorted| && sorted[j] == receipts[n];
    assert sorted[n] in multiset(sorted);
    var k :| 0 <= k < |receipts| && receipts[k] == sorted[n];
  }

  lemma SameInit<T>(a: seq<T>, b: seq<T>)
    requires 0 < |a| == |b| && multiset(a) == multiset(b) && a[|a| - 1] == b[|b| - 1]
    ensures multiset(a[..|a| - 1]) == multiset(b[..|b| - 1])
  {
    var n := |a| - 1;
    assert a == a[..n] + [a[n]] && b == b[..n] + [b[n]];
    assert multiset(a[..n]) == multiset(a) - multiset{a[n]};
    assert multiset(b[..n]) == multiset(b) - multiset{a[n]};
  }

  // The service's loops.

  method CheckLogs(env: Env, gateway: string, record: VerifiedReceipt, logs: seq<Log>, start: nat)
    returns (ok: bool, events: seq<Settlement>, next: nat)
    requires start + |logs| < UINT32_LIMIT
    ensures ok <==> forall i :: 0 <= i < |logs| ==> LogAcceptable(env, gateway, record.succeeded, logs[i])
    ensures ok ==> next == start + |logs| && events == LogSettlements(env, gateway, record, logs, start)
  {
    hide IsSettlement;
    events := [];
    var globalLogIndex := start;
    for i := 0 to |logs|
      invariant globalLogIndex == start + i
      invariant forall j :: 0 <= j < i ==> LogAcceptable(env, gateway, record.succeeded, logs[j])
      invariant events == LogSettlements(env, gateway, record, logs[..i], start)
    {
      // The index always fits 32 bits here, so the bound never rejects.
      assert globalLogIndex < UINT32_LIMIT;
      assert logs[..i + 1][..i] == logs[..i];
      if IsSettlement(env, gateway, record.succeeded, logs[i]) {
        if !env.settlementDecodes(logs[i]) {
          assert !LogAcceptable(env, gateway, record.succeeded, logs[i]);
          return false, events, globalLogIndex;
        }
        events := events + [Settlement(logs[i], globalLogIndex, record)];
      }
      globalLogIndex := globalLogIndex + 1;
    }
    assert logs[..|logs|] == logs;
    return true, events, globalLogIndex;
  }

  method CheckReceipt(env: Env, header: Header, proof: ReceiptProof) returns (ok: bool)
    requires proof.transactionIndex < UINT64_LIMIT
    ensures ok == ProvenReceipt(env.keccak, header, proof)
  {
    if |proof.transactionRlp| == 0 || |proof.transactionRlp| > MAX_TRANSACTION_BYTES
       || |proof.receiptRlp| == 0 || |proof.receiptRlp| > MAX_RECEIPT_BYTES
    {
      return false;
    }
    var key := RlpUint(proof.transactionIndex);
    var transactionProven := VerifyTrieInclusion(
      env.keccak, header.transactionsRoot, key, proof.transactionRlp, proof.transactionProofNodes);
    var receiptProven := VerifyTrieInclusion(
      env.keccak, header.receiptsRoot, key, proof.receiptRlp, proof.receiptProofNodes);
    return transactionProven && receiptProven;
  }

  /** `sorted` is whatever the library sort returned for the receipts. */
  method VerifyAuthenticatedBlock(
    env: Env, chainId: nat, gateway: string, authority: Bytes, block: Block, sorted: seq<ReceiptProof>)
    returns (r: Option<(Header, seq<VerifiedReceipt>, seq<Settlement>)>)
    requires SortOf(block.receipts, sorted)
    ensures r.Some? <==> BlockAcceptable(env, chainId, gateway, authority, block)
    ensures r.Some? ==>
              && CheckSigned(env, chainId, authority, block.signed) == Some(r.value.0)
              && r.value.1 == Records(env.keccak, r.value.0, env.keccak(block.signed.signature), block.receipts)
              && r.value.2 == Settlements(env, gateway, r.value.0, env.keccak(block.signed.signature), block.receipts)
  {
    var sized := CheckBlockSize(block);
    if !sized {
      return None;
    }
    var checked := CheckSigned(env, chainId, authority, block.signed);
    if checked.None? {
      return None;
    }
    var header := checked.value;
    for position := 0 to |block.receipts|
      invariant Canonical(block.receipts[..position])
    {
      if block.receipts[position].transactionIndex != position {
        return None;
      }
    }
    assert block.receipts[..|block.receipts|] == block.receipts;
    SortIsIdentity(block.receipts, sorted);
    var checkedReceipts := CheckAllReceipts(env, gateway, header, env.keccak(block.signed.signature), sorted);
    if checkedReceipts.None? {
      return None;
    }
    return Some((header, checkedReceipts.value.0, checkedReceipts.value.1));
  }

  method CheckAllReceipts(
    env: Env, gateway: string, header: Header, signatureHash: Bytes32, proofs: seq<ReceiptProof>)
    returns (r: Option<(seq<VerifiedReceipt>, seq<Settlement>)>)
    requires Canonical(proofs) && |proofs| <= MAX_RECEIPTS_PER_BLOCK
    ensures r.Some? <==> AllAcceptable(env, gateway, header, proofs)
    ensures r.Some? ==>
              && r.value.0 == Records(env.keccak, header, signatureHash, proofs)
              && r.value.1 == Settlements(env, gateway, header, signatureHash, proofs)
  {
    hide RecordOf, LogSettlements;
    var records: seq<VerifiedReceipt> := [];
    var events: seq<Settlement> := [];
    var globalLogIndex := 0;
    for position := 0 to |proofs|
      invariant Progress(env, gateway, header, signatureHash, proofs[..position], records, events, globalLogIndex)
    {
      var record, found, next := CheckOneReceipt(env, gateway, header, signatureHash, proofs[position], globalLogIndex)
        by { LogIndexIsSmall(proofs[..position]); }
      if record.None? {
        NotAllAcceptable(env, gateway, header, proofs, position);
        return None;
      }
      ProgressStep(env, gateway, header, signatureHash, proofs, position, records, events, globalLogIndex);
      globalLogIndex := next;
      records := records + [record.value];
      events := events + found;
    }
    assert proofs[..|proofs|] == proofs;
    return Some((records, events));
  }

  /** What the receipt loop holds after the receipts `done`. */
  ghost predicate Progress(
    env: Env, gateway: string, header: Header, signatureHash: Bytes32, done: seq<ReceiptProof>,
    records: seq<VerifiedReceipt>, events: seq<Settlement>, logIndex: nat)
  {
    && AllAcceptable(env, gateway, header, done)
    && records == Records(env.keccak, header, signatureHash, done)
    && events == Settlements(env, gateway, header, signatureHash, done)
    && logIndex == |AllLogs(done)|
  }

  lemma ProgressStep(
      env: Env, gateway: string, header: Header, signatureHash: Bytes32, proofs: seq<ReceiptProof>, position: nat,
      records: seq<VerifiedReceipt>, events: seq<Settlement>, logIndex: nat)
    requires position < |proofs| && ReceiptAcceptable(env, gateway, header, proofs[position])
    requires Progress(env, gateway, header, signatureHash, proofs[..position], records, events, logIndex)
    ensures var record, logs := RecordOf(env.keccak, header, signatureHash, proofs[position]), LogsOf(proofs[position]);
            Progress(env, gateway, header, signatureHash, proofs[..position + 1], records + [record],
                     events + LogSettlements(env, gateway, record, logs, logIndex), logIndex + |logs|)
  {
    hide ReceiptAcceptable, RecordOf, LogSettlements, LogsOf;
    var after := proofs[..position + 1];
    assert after[..|after| - 1] == proofs[..position];
  }

  method CheckOneReceipt(
    env: Env, gateway: string, header: Header, signatureHash: Bytes32, proof: ReceiptProof, globalLogIndex: nat)
    returns (r: Option<VerifiedReceipt>, events: seq<Settlement>, next: nat)
    requires proof.transactionIndex < UINT64_LIMIT
    requires globalLogIndex + MAX_RECEIPT_LOGS < UINT32_LIMIT
    ensures r.Some? <==> ReceiptAcceptable(env, gateway, header, proof)
    ensures r.Some? ==>
              && r.value == RecordOf(env.keccak, header, signatureHash, proof)
              && events == LogSettlements(env, gateway, r.value, LogsOf(proof), globalLogIndex)
              && next == globalLogIndex + |LogsOf(proof)|
  {
    hide DecodeReceipt, ProvenReceipt, InclusionHash, LogSettlements, LogAcceptable;
    events, next := [], globalLogIndex;
    var proven := CheckReceipt(env, header, proof);
    if !proven {
      return None, events, next;
    }
    var decoded := DecodeReceipt(proof.receiptRlp);
    if decoded.None? {
      return None, events, next;
    }
    var (succeeded, logs) := decoded.value;
    var record := RecordOf(env.keccak, header, signatureHash, proof);
    var ok;
    ok, events, next := CheckLogs(env, gateway, record, logs, globalLogIndex);
    if !ok {
      return None, events, next;
    }
    return Some(record), events, next;
  }
}
