/** The deterministic block builder of the test fixtures. What it builds, the
    verifier reads back field by field and accepts. */
module BlockBuilder {
  import opened ByteStrings
  import opened Rlp
  import opened Trie
  import opened ReferenceTrie
  import opened EvmProof

  // Headers.

  function UintItem(n: nat): Value {
    StrOf(MinimalBigEndian(n))
  }

  /** The twelve header fields: parent, ommers, beneficiary, state root, the two roots,
      bloom, difficulty, number, gas limit, gas used, timestamp. */
  function HeaderItems(parent: Bytes, transactionsRoot: Bytes, receiptsRoot: Bytes, number: nat, timestamp: nat)
    : seq<Value>
  {
    [StrOf(parent), StrOf(Zeros(32)), StrOf(Zeros(20)), StrOf(Zeros(32)), StrOf(transactionsRoot), StrOf(receiptsRoot),
     StrOf(Zeros(256)), UintItem(1), UintItem(number), UintItem(30_000_000), UintItem(21_000), UintItem(timestamp)]
  }

  function HeaderRlp(parent: Bytes, transactionsRoot: Bytes, receiptsRoot: Bytes, number: nat, timestamp: nat): Bytes {
    ListOf(HeaderItems(parent, transactionsRoot, receiptsRoot, number, timestamp)).raw
  }

  lemma ListDecodes(items: seq<Value>)
    requires |items| <= MAX_RLP_LIST_ITEMS && AllBounded(items, 1) && |ListOf(items).raw| <= MAX_INT
    ensures DecodeWhole(ListOf(items).raw) == Some(ListOf(items))
  {
    hide Decode;
    BoundedList(items, 0);
    DecodeComplete(ListOf(items), ListOf(items).raw, 0);
  }

  lemma BoundedString(payload: Bytes, depth: nat)
    requires depth <= MAX_RLP_DEPTH
    ensures Bounded(StrOf(payload), depth)
  {
  }

  /** A list of strings. */
  predicate AllStrings(items: seq<Value>) {
    forall i :: 0 <= i < |items| ==> items[i].Str? && items[i] == StrOf(items[i].payload)
  }

  lemma BoundedStrings(items: seq<Value>, depth: nat)
    requires AllStrings(items) && depth <= MAX_RLP_DEPTH
    ensures AllBounded(items, depth)
  {
    hide Bounded;
    forall i | 0 <= i < |items| ensures Bounded(items[i], depth) {
      BoundedString(items[i].payload, depth);
    }
  }

  /** The built header is read back: number, parent, both roots and the timestamp. */
  lemma BuiltHeaderParses(
    keccak: Hash, parent: Bytes, transactionsRoot: Bytes, receiptsRoot: Bytes, number: nat, timestamp: nat)
    requires |parent| == 32 && |transactionsRoot| == 32 && |receiptsRoot| == 32
    requires 0 < number < UINT64_LIMIT && 0 < timestamp < UINT64_LIMIT
    requires |HeaderRlp(parent, transactionsRoot, receiptsRoot, number, timestamp)| <= MAX_HEADER_RLP_BYTES
    ensures var encoded := HeaderRlp(parent, transactionsRoot, receiptsRoot, number, timestamp);
            ParseHeader(keccak, encoded)
            == Some(EvmProof.Header(number, keccak(encoded), parent, transactionsRoot, receiptsRoot, timestamp))
  {
    hide DecodeWhole, EncodeBytes, EncodeItems, EncodeList, AllBounded, MinimalBigEndian, Uint64;
    var items := HeaderItems(parent, transactionsRoot, receiptsRoot, number, timestamp);
    assert AllStrings(items);
    BoundedStrings(items, 1);
    ListDecodes(items);
    Uint64RoundTrip(MinimalBigEndian(number), number);
    Uint64RoundTrip(MinimalBigEndian(timestamp), timestamp);
  }

  /** A built header stamped 2^63 or later passes however early it was observed: the cast
      makes the service's time check void. */
  lemma LateStampIsAccepted(
    env: Env, chainId: nat, authority: Bytes, signed: SignedHeader, parent: Bytes, transactionsRoot: Bytes,
    receiptsRoot: Bytes, number: nat, timestamp: nat)
    requires |parent| == 32 && |transactionsRoot| == 32 && |receiptsRoot| == 32
    requires 0 < number < UINT64_LIMIT && MAX_INT < timestamp < UINT64_LIMIT
    requires signed.headerRlp == HeaderRlp(parent, transactionsRoot, receiptsRoot, number, timestamp)
    requires |signed.headerRlp| <= MAX_HEADER_RLP_BYTES && signed.observedAt > 0 && |signed.signature| == 64
    requires chainId != 0 && |authority| == 32
    requires env.ed25519Verify(authority, env.keccak(SigningPreimage(env, chainId, signed)), signed.signature)
    ensures CheckSigned(env, chainId, authority, signed)
            == Some(EvmProof.Header(number, env.keccak(signed.headerRlp), parent, transactionsRoot, receiptsRoot, timestamp))
    ensures signed.observedAt <= MAX_INT ==> signed.observedAt < timestamp * NANOS_PER_SECOND
  {
    hide ParseHeader, HeaderRlp, SigningPreimage;
    BuiltHeaderParses(env.keccak, parent, transactionsRoot, receiptsRoot, number, timestamp);
    ObservationTimeCheck(timestamp, signed.observedAt);
  }

  // Receipts.

  datatype BuiltLog = BuiltLog(address: Bytes, topics: seq<Bytes>, data: Bytes)

  predicate LogOk(log: BuiltLog) {
    && |log.address| == 20 && |log.topics| <= MAX_LOG_TOPICS && |log.data| <= MAX_RECEIPT_BYTES
    && forall i :: 0 <= i < |log.topics| ==> |log.topics[i]| == 32
  }

  function TopicItems(topics: seq<Bytes>): (items: seq<Value>)
    ensures |items| == |topics|
    ensures forall i :: 0 <= i < |topics| ==> items[i] == StrOf(topics[i])
  {
    seq(|topics|, i requires 0 <= i < |topics| => StrOf(topics[i]))
  }

  function LogItem(log: BuiltLog): Value {
    ListOf([StrOf(log.address), ListOf(TopicItems(log.topics)), StrOf(log.data)])
  }

  function LogItems(logs: seq<BuiltLog>): (items: seq<Value>)
    ensures |items| == |logs|
    ensures forall i :: 0 <= i < |logs| ==> items[i] == LogItem(logs[i])
  {
    seq(|logs|, i requires 0 <= i < |logs| => LogItem(logs[i]))
  }

  function ReceiptItems(succeeded: bool, logs: seq<BuiltLog>): seq<Value> {
    [StrOf(if succeeded then [1] else []), UintItem(21_000), StrOf(Zeros(256)), ListOf(LogItems(logs))]
  }

  function ReceiptRlp(succeeded: bool, logs: seq<BuiltLog>): Bytes {
    ListOf(ReceiptItems(succeeded, logs)).raw
  }

  function HexTopics(topics: seq<Bytes>): (texts: seq<string>)
    ensures |texts| == |topics|
    ensures forall i :: 0 <= i < |topics| ==> texts[i] == Hex0x(topics[i])
  {
    seq(|topics|, i requires 0 <= i < |topics| => Hex0x(topics[i]))
  }

  function LogText(log: BuiltLog): Log {
    Log(Hex0x(log.address), HexTopics(log.topics), log.data)
  }

  function LogTexts(logs: seq<BuiltLog>): (texts: seq<Log>)
    ensures |texts| == |logs|
    ensures forall i :: 0 <= i < |logs| ==> texts[i] == LogText(logs[i])
  {
    seq(|logs|, i requires 0 <= i < |logs| => LogText(logs[i]))
  }

  lemma LogItemBounded(log: BuiltLog)
    requires LogOk(log)
    ensures Bounded(LogItem(log), 2)
  {
    hide Bounded, EncodeBytes, EncodeItems, EncodeList;
    var topics := TopicItems(log.topics);
    assert AllStrings(topics);
    BoundedStrings(topics, 4);
    BoundedList(topics, 3);
    BoundedString(log.address, 3);
    BoundedString(log.data, 3);
    BoundedList([StrOf(log.address), ListOf(topics), StrOf(log.data)], 2);
  }

  lemma ReceiptItemsBounded(succeeded: bool, logs: seq<BuiltLog>)
    requires |logs| <= MAX_RECEIPT_LOGS && forall i :: 0 <= i < |logs| ==> LogOk(logs[i])
    ensures AllBounded(ReceiptItems(succeeded, logs), 1)
  {
    hide Bounded, EncodeBytes, EncodeItems, EncodeList, LogOk, LogItem, MinimalBigEndian;
    forall i | 0 <= i < |logs| ensures Bounded(LogItems(logs)[i], 2) {
      LogItemBounded(logs[i]);
    }
    BoundedList(LogItems(logs), 1);
    BoundedString(if succeeded then [1] else [], 1);
    BoundedString(MinimalBigEndian(21_000), 1);
    BoundedString(Zeros(256), 1);
  }

  lemma {:induction false} TopicsDecode(topics: seq<Bytes>)
    requires forall i :: 0 <= i < |topics| ==> |topics[i]| == 32
    ensures DecodeTopics(TopicItems(topics)) == Some(HexTopics(topics))
    decreases |topics|
  {
    hide EncodeBytes, Hex0x;
    if topics != [] {
      assert TopicItems(topics)[1..] == TopicItems(topics[1..]);
      TopicsDecode(topics[1..]);
      assert HexTopics(topics) == [Hex0x(topics[0])] + HexTopics(topics[1..]);
    }
  }

  lemma LogDecodes(log: BuiltLog)
    requires LogOk(log)
    ensures DecodeLog(LogItem(log)) == Some(LogText(log))
  {
    hide EncodeBytes, EncodeItems, EncodeList, Hex0x, DecodeTopics;
    TopicsDecode(log.topics);
  }

  lemma {:induction false} LogsDecode(logs: seq<BuiltLog>)
    requires forall i :: 0 <= i < |logs| ==> LogOk(logs[i])
    ensures DecodeLogs(LogItems(logs)) == Some(LogTexts(logs))
    decreases |logs|
  {
    hide LogOk, DecodeLog, LogItem, LogText;
    if logs != [] {
      assert LogItems(logs)[1..] == LogItems(logs[1..]);
      LogDecodes(logs[0]);
      LogsDecode(logs[1..]);
      assert LogTexts(logs) == [LogText(logs[0])] + LogTexts(logs[1..]);
    }
  }

  lemma ListStartsHigh(items: seq<Value>)
    requires |ListOf(items).raw| <= MAX_INT
    ensures ListOf(items).raw != [] && ListOf(items).raw[0] >= 0xc0
  {
    hide EncodeItems;
    var length := |EncodeItems(items)|;
    if length >= 56 {
      Pow256Values();
      Uint64Width(length);
    }
  }

  /** The built receipt is read back: its success bit and every log, address, topics and
      data, in order. */
  lemma BuiltReceiptDecodes(succeeded: bool, logs: seq<BuiltLog>)
    requires |logs| <= MAX_RECEIPT_LOGS && (forall i :: 0 <= i < |logs| ==> LogOk(logs[i]))
    requires !succeeded ==> logs == []
    requires |ReceiptRlp(succeeded, logs)| <= MAX_INT
    ensures DecodeReceipt(ReceiptRlp(succeeded, logs)) == Some((succeeded, LogTexts(logs)))
  {
    hide DecodeWhole, EncodeBytes, EncodeItems, EncodeList, AllBounded, MinimalBigEndian, Uint64, LogOk, DecodeLogs;
    var items := ReceiptItems(succeeded, logs);
    ListStartsHigh(items);
    ReceiptItemsBounded(succeeded, logs);
    ListDecodes(items);
    LogsDecode(logs);
    Uint64RoundTrip(MinimalBigEndian(21_000), 21_000);
  }

  // Blocks.

  function TransactionRlp(discriminator: nat): Bytes {
    ListOf([UintItem(discriminator)]).raw
  }

  function BuiltProof(discriminator: nat, succeeded: bool, logs: seq<BuiltLog>): ReceiptProof {
    var transaction, receipt := TransactionRlp(discriminator), ReceiptRlp(succeeded, logs);
    var key := EncodeUint(0);
    ReceiptProof(0, transaction, [LeafNode(key, transaction)], receipt, [LeafNode(key, receipt)])
  }

  /** A block with one receipt: both tries are a single leaf, the roots their hashes. */
  function BuiltBlock(
    keccak: Hash, sign: Bytes -> Bytes, parent: Bytes, number: nat, observedAt: int, proof: ReceiptProof): Block
    requires observedAt >= 0 && proof.transactionProofNodes != [] && proof.receiptProofNodes != []
  {
    var header := HeaderRlp(parent, keccak(proof.transactionProofNodes[0]), keccak(proof.receiptProofNodes[0]), number,
                            observedAt / NANOS_PER_SECOND);
    Block(SignedHeader(header, observedAt, sign(header)), [proof])
  }

  /** The sizes the verifier limits. */
  predicate WithinLimits(block: Block, proof: ReceiptProof) {
    && |block.signed.headerRlp| <= MAX_HEADER_RLP_BYTES
    && |proof.transactionRlp| <= MAX_TRANSACTION_BYTES && |proof.receiptRlp| <= MAX_RECEIPT_BYTES
    && proof.transactionProofNodes != [] && |proof.transactionProofNodes[0]| <= MAX_PROOF_NODE_BYTES
    && proof.receiptProofNodes != [] && |proof.receiptProofNodes[0]| <= MAX_PROOF_NODE_BYTES
    && ValidBlockSize(block)
  }

  lemma BuiltProofIsProven(keccak: Hash, header: EvmProof.Header, discriminator: nat, succeeded: bool, logs: seq<BuiltLog>)
    requires var proof := BuiltProof(discriminator, succeeded, logs);
             && header.transactionsRoot == keccak(proof.transactionProofNodes[0])
             && header.receiptsRoot == keccak(proof.receiptProofNodes[0])
             && |proof.transactionRlp| <= MAX_TRANSACTION_BYTES && |proof.receiptRlp| <= MAX_RECEIPT_BYTES
             && |proof.transactionProofNodes[0]| <= MAX_PROOF_NODE_BYTES
             && |proof.receiptProofNodes[0]| <= MAX_PROOF_NODE_BYTES
    ensures ProvenReceipt(keccak, header, BuiltProof(discriminator, succeeded, logs))
  {
    hide LeafNode, Included, EncodeUint, EncodeItems;
    var proof := BuiltProof(discriminator, succeeded, logs);
    SingleLeafAccepted(keccak, EncodeUint(0), proof.transactionRlp);
    SingleLeafAccepted(keccak, EncodeUint(0), proof.receiptRlp);
  }

  /** Whatever the builder builds within the size limits and signs with the trusted key, the
      verifier accepts, with the number, hash, roots and logs that were put in. */
  lemma BuiltBlockIsAccepted(
    env: Env, chainId: nat, gateway: string, authority: Bytes, sign: Bytes -> Bytes, parent: Bytes, number: nat,
    observedAt: int, discriminator: nat, succeeded: bool, logs: seq<BuiltLog>)
    requires |parent| == 32 && 0 < number < UINT64_LIMIT && |authority| == 32 && chainId != 0
    requires NANOS_PER_SECOND <= observedAt <= MAX_INT
    requires |logs| <= MAX_RECEIPT_LOGS && (forall i :: 0 <= i < |logs| ==> LogOk(logs[i])) && (!succeeded ==> logs == [])
    requires forall i :: 0 <= i < |logs| ==> LogAcceptable(env, gateway, succeeded, LogTexts(logs)[i])
    requires var proof := BuiltProof(discriminator, succeeded, logs);
             var block := BuiltBlock(env.keccak, sign, parent, number, observedAt, proof);
             && WithinLimits(block, proof) && |block.signed.signature| == 64
             && env.ed25519Verify(authority, env.keccak(SigningPreimage(env, chainId, block.signed)), block.signed.signature)
    ensures var proof := BuiltProof(discriminator, succeeded, logs);
            var block := BuiltBlock(env.keccak, sign, parent, number, observedAt, proof);
            && BlockAcceptable(env, chainId, gateway, authority, block)
            && CheckSigned(env, chainId, authority, block.signed)
               == Some(EvmProof.Header(number, env.keccak(block.signed.headerRlp), parent,
                                       env.keccak(proof.transactionProofNodes[0]), env.keccak(proof.receiptProofNodes[0]),
                                       observedAt / NANOS_PER_SECOND))
            && AllLogs(block.receipts) == LogTexts(logs)
  {
    hide LeafNode, Included, EncodeUint, EncodeItems, HeaderRlp, ReceiptRlp, TransactionRlp, ParseHeader, DecodeReceipt,
      LogAcceptable, ProvenReceipt, ValidBlockSize, LogOk, SigningPreimage;
    var proof := BuiltProof(discriminator, succeeded, logs);
    var block := BuiltBlock(env.keccak, sign, parent, number, observedAt, proof);
    var txRoot, receiptRoot := env.keccak(proof.transactionProofNodes[0]), env.keccak(proof.receiptProofNodes[0]);
    SecondsFit(observedAt);
    BuiltHeaderParses(env.keccak, parent, txRoot, receiptRoot, number, observedAt / NANOS_PER_SECOND);
    var header := CheckSigned(env, chainId, authority, block.signed).value;
    BuiltProofIsProven(env.keccak, header, discriminator, succeeded, logs);
    BuiltReceiptDecodes(succeeded, logs);
    assert ReceiptAcceptable(env, gateway, header, proof);
    assert [proof][..0] == [];
    assert AllAcceptable(env, gateway, header, [proof]);
    assert AllLogs([]) + LogsOf(proof) == LogTexts(logs);
  }

  lemma SecondsFit(observedAt: int)
    requires NANOS_PER_SECOND <= observedAt <= MAX_INT
    ensures 0 < observedAt / NANOS_PER_SECOND <= MAX_INT
    ensures ToInt64(observedAt / NANOS_PER_SECOND) == observedAt / NANOS_PER_SECOND
  {
  }
}
