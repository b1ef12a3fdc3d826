/** The release checker's own header, receipt and inclusion-hash code. Although its
    decoder has no limit on list items, within the size bounds it accepts the same
    headers and receipts as the service and derives the same hashes. */
module PythonReceipts {
  import opened ByteStrings
  import opened Rlp
  import opened Trie
  import opened EvmProof
  import opened PythonRlp

  /** The checker's decoding of a whole buffer. */
  function WholeFront(encoded: Bytes): Option<Value> {
    match DecodeFront(encoded, 0)
    case None => None
    case Some((v, n)) => if n == |encoded| then Some(v) else None
  }

  method DecodeCompleteRlp(encoded: Bytes) returns (r: Option<Value>)
    ensures r == WholeFront(encoded)
  {
    hide DecodeFront;
    var decoded := DecodeRlp(encoded, 0, 0);
    assert encoded[0..] == encoded;
    if decoded.None? || decoded.value.1 != |encoded| {
      return None;
    }
    return Some(decoded.value.0);
  }

  lemma WholesAgree(encoded: Bytes)
    requires |encoded| <= MAX_INT
    ensures DecodeWhole(encoded)
            == if WholeFront(encoded).Some? && ItemBounded(WholeFront(encoded).value) then WholeFront(encoded) else None
    ensures WholeFront(encoded).Some? ==> Consistent(WholeFront(encoded).value) && WholeFront(encoded).value.raw == encoded
  {
    hide Decode, DecodeFront, ItemBounded;
    if WholeFront(encoded).Some? {
      var v := WholeFront(encoded).value;
      DecodersAgree(encoded, v, |encoded|);
      DecodeFrontSound(encoded, 0);
      assert encoded[..|encoded|] == encoded;
    }
    if DecodeWhole(encoded).Some? {
      DecodersAgree(encoded, DecodeWhole(encoded).value, |encoded|);
    }
  }

  // Headers.

  /** A list has no more items than bytes, so short encodings are within the item limit. */
  lemma {:induction false} ShortIsItemBounded(v: Value)
    requires Consistent(v) && |v.raw| <= MAX_RLP_LIST_ITEMS
    ensures ItemBounded(v)
    decreases v
  {
    if v.List? && v.list != [] {
      ItemSmaller(v.list, 0);
      forall i | 0 <= i < |v.list| ensures ItemBounded(v.list[i]) {
        ItemSmaller(v.list, i);
        ShortIsItemBounded(v.list[i]);
      }
    }
  }

  /** Canonical 64-bit integers. */
  method RlpUintOf(value: Value) returns (r: Option<nat>)
    ensures r == if value.List? then None else Uint64(value.payload)
  {
    if value.List? || |value.payload| > 8 || (|value.payload| > 0 && value.payload[0] == 0) {
      return None;
    }
    var n := FoldBigEndian(value.payload);
    return Some(n);
  }

  /** The checker parses exactly the headers the service parses, to the same fields. */
  method ParseEvmHeader(keccak: Hash, encoded: Bytes) returns (r: Option<Header>)
    ensures r == ParseHeader(keccak, encoded)
  {
    hide DecodeWhole, WholeFront, ItemBounded, Consistent, Uint64;
    if encoded == [] || |encoded| > MAX_HEADER_RLP_BYTES {
      return None;
    }
    WholesAgree(encoded);
    var decoded := DecodeCompleteRlp(encoded);
    if decoded.None? {
      return None;
    }
    ShortIsItemBounded(decoded.value);
    if !decoded.value.List? || |decoded.value.list| < 12 {
      return None;
    }
    var items := decoded.value.list;
    var parent, transactionRoot, receiptRoot := items[0], items[4], items[5];
    if parent.List? || transactionRoot.List? || receiptRoot.List?
       || |parent.payload| != 32 || |transactionRoot.payload| != 32 || |receiptRoot.payload| != 32
    {
      return None;
    }
    var number := RlpUintOf(items[8]);
    if number.None? {
      return None;
    }
    var timestamp := RlpUintOf(items[11]);
    if timestamp.None? || number.value == 0 || timestamp.value == 0 {
      return None;
    }
    Uint64RoundTrip(items[8].payload, number.value);
    Uint64RoundTrip(items[11].payload, timestamp.value);
    return Some(Header(number.value, keccak(encoded), parent.payload, transactionRoot.payload, receiptRoot.payload,
                       timestamp.value));
  }

  /** The checker accepts exactly the signed headers the service accepts whose timestamp
      fits a signed 64-bit integer: beyond that the service's cast makes its time check void. */
  method VerifyAuthenticatedHeader(env: Env, chainId: nat, authority: Bytes, signed: SignedHeader)
    returns (r: Option<Header>)
    ensures 0 < chainId < UINT64_LIMIT && signed.observedAt <= MAX_INT ==>
              var checked := CheckSigned(env, chainId, authority, signed);
              r == if checked.Some? && checked.value.timestamp <= MAX_INT then checked else None
  {
    hide ParseHeader;
    if signed.observedAt <= 0 || signed.observedAt >= UINT64_LIMIT || chainId >= UINT64_LIMIT || |signed.signature| != 64 {
      return None;
    }
    var header := ParseEvmHeader(env.keccak, signed.headerRlp);
    if header.None? || signed.observedAt / NANOS_PER_SECOND < header.value.timestamp {
      return None;
    }
    var digest := env.keccak(SigningPreimage(env, chainId, signed));
    if |authority| != 32 || !env.ed25519Verify(authority, digest, signed.signature) {
      return None;
    }
    return header;
  }

  // Receipts.

  predicate AllStr(items: seq<Value>) {
    forall i :: 0 <= i < |items| ==> items[i].Str?
  }

  /** The shape of a log that passes: only its topics are nested. */
  predicate LogShape(log: Value) {
    && log.List? && |log.list| == 3 && log.list[0].Str? && log.list[2].Str?
    && log.list[1].List? && |log.list[1].list| <= MAX_LOG_TOPICS && AllStr(log.list[1].list)
  }

  lemma LogIsItemBounded(log: Value)
    requires LogShape(log)
    ensures ItemBounded(log)
  {
    assert ItemBounded(log.list[1]);
  }

  /** The shape of a receipt that passes keeps every list within the item limit. */
  lemma ReceiptIsItemBounded(value: Value)
    requires value.List? && |value.list| == 4 && value.list[0].Str? && value.list[1].Str? && value.list[2].Str?
    requires value.list[3].List? && |value.list[3].list| <= MAX_RECEIPT_LOGS
    requires forall i :: 0 <= i < |value.list[3].list| ==> LogShape(value.list[3].list[i])
    ensures ItemBounded(value)
  {
    hide LogShape;
    var logs := value.list[3];
    forall i | 0 <= i < |logs.list| ensures ItemBounded(logs.list[i]) {
      LogIsItemBounded(logs.list[i]);
    }
    assert ItemBounded(logs);
  }

  lemma {:induction false} DecodedTopicsAreStr(topics: seq<Value>)
    ensures DecodeTopics(topics).Some? ==> AllStr(topics)
  {
    if topics != [] {
      DecodedTopicsAreStr(topics[1..]);
    }
  }

  lemma {:induction false} DecodedLogsHaveShape(logs: seq<Value>)
    ensures DecodeLogs(logs).Some? ==> forall i :: 0 <= i < |logs| ==> LogShape(logs[i])
  {
    if logs != [] {
      DecodedLogsHaveShape(logs[1..]);
      if DecodeLog(logs[0]).Some? {
        DecodedTopicsAreStr(logs[0].list[1].list);
      }
    }
  }

  /** Reading the four fields succeeds only within the item limit. */
  lemma ReadReceiptIsItemBounded(value: Value)
    requires value.List? && |value.list| == 4
    requires ReceiptFields(value.list[0], value.list[1], value.list[2], value.list[3]).Some?
    ensures ItemBounded(value)
  {
    hide Uint64, DecodeLogs, ItemBounded, LogShape;
    DecodedLogsHaveShape(value.list[3].list);
    ReceiptIsItemBounded(value);
  }

  lemma PrependOne<T>(done: seq<T>, next: T, rest: Option<seq<T>>)
    ensures Prepend(done, Prepend([next], rest)) == Prepend(done + [next], rest)
  {
    if rest.Some? {
      assert done + ([next] + rest.value) == done + [next] + rest.value;
    }
  }

  method DecodeTopicTexts(topics: seq<Value>) returns (r: Option<seq<string>>)
    ensures r == DecodeTopics(topics)
  {
    var texts: seq<string> := [];
    assert topics[0..] == topics;
    PrependNothing(DecodeTopics(topics));
    for i := 0 to |topics|
      invariant DecodeTopics(topics) == Prepend(texts, DecodeTopics(topics[i..]))
    {
      if topics[i].List? || |topics[i].payload| != 32 {
        return None;
      }
      var text := Hex0x(topics[i].payload);
      assert topics[i..][1..] == topics[i + 1..];
      assert DecodeTopics(topics[i..]) == Prepend([text], DecodeTopics(topics[i + 1..]));
      PrependOne(texts, text, DecodeTopics(topics[i + 1..]));
      texts := texts + [text];
    }
    assert texts + [] == texts;
    return Some(texts);
  }

  method DecodeReceiptLog(encoded: Value) returns (r: Option<Log>)
    ensures r == DecodeLog(encoded)
  {
    if !encoded.List? || |encoded.list| != 3 {
      return None;
    }
    var address, topics, data := encoded.list[0], encoded.list[1], encoded.list[2];
    if address.List? || |address.payload| != 20 || !topics.List? || |topics.list| > MAX_LOG_TOPICS
       || data.List? || |data.payload| > MAX_RECEIPT_BYTES
    {
      return None;
    }
    var texts := DecodeTopicTexts(topics.list);
    if texts.None? {
      return None;
    }
    return Some(Log(Hex0x(address.payload), texts.value, data.payload));
  }

  method DecodeReceiptLogs(encoded: seq<Value>) returns (r: Option<seq<Log>>)
    ensures r == DecodeLogs(encoded)
  {
    hide DecodeLog;
    var logs: seq<Log> := [];
    assert encoded[0..] == encoded;
    PrependNothing(DecodeLogs(encoded));
    for i := 0 to |encoded|
      invariant DecodeLogs(encoded) == Prepend(logs, DecodeLogs(encoded[i..]))
    {
      assert encoded[i..][1..] == encoded[i + 1..];
      var log := DecodeReceiptLog(encoded[i]);
      if log.None? {
        return None;
      }
      assert DecodeLogs(encoded[i..]) == Prepend([log.value], DecodeLogs(encoded[i + 1..]));
      PrependOne(logs, log.value, DecodeLogs(encoded[i + 1..]));
      logs := logs + [log.value];
    }
    assert logs + [] == logs;
    return Some(logs);
  }

  /** The checker reads exactly the receipts the service reads, to the same status and logs. */
  method DecodeEvmReceipt(encoded: Bytes) returns (r: Option<(bool, seq<Log>)>)
    ensures r == if |encoded| <= MAX_RECEIPT_BYTES then DecodeReceipt(encoded) else None
  {
    hide DecodeWhole, WholeFront, ItemBounded, Consistent, DecodeLogs, Uint64;
    if encoded == [] || |encoded| > MAX_RECEIPT_BYTES {
      return None;
    }
    var payload := if 0 < encoded[0] < 0x80 then encoded[1..] else encoded;
    WholesAgree(payload);
    var decoded := DecodeCompleteRlp(payload);
    if decoded.None? || !decoded.value.List? || |decoded.value.list| != 4 {
      return None;
    }
    var value := decoded.value;
    var status, gas, bloom, logs := value.list[0], value.list[1], value.list[2], value.list[3];
    ghost var fields := ReceiptFields(status, gas, bloom, logs);
    assert DecodeReceipt(encoded) == fields by {
      if fields.Some? {
        ReadReceiptIsItemBounded(value);
      }
    }
    if status.List? || gas.List? || (status.payload != [] && status.payload != [1]) {
      return None;
    }
    var used := RlpUintOf(gas);
    if used.None? || bloom.List? || |bloom.payload| != 256 || !logs.List? || |logs.list| > MAX_RECEIPT_LOGS {
      return None;
    }
    if status.payload == [] && logs.list != [] {
      return None;
    }
    var texts := DecodeReceiptLogs(logs.list);
    if texts.None? {
      return None;
    }
    return Some((status.payload == [1], texts.value));
  }

  // The inclusion hash.

  lemma {:induction false} ChunksSnoc(values: seq<Bytes>, last: Bytes)
    ensures Chunks(values + [last]) == Chunks(values) + Chunk(last)
  {
    hide Chunk;
    if values == [] {
      assert values + [last] == [last] && [last][1..] == [];
    } else {
      assert (values + [last])[1..] == values[1..] + [last];
      ChunksSnoc(values[1..], last);
    }
  }

  method AppendNodes(payload: Bytes, nodes: seq<Bytes>, ghost before: seq<Bytes>, ghost start: Bytes)
    returns (r: Bytes)
    requires payload == start + Chunks(before)
    ensures r == start + Chunks(before + nodes)
  {
    hide Chunk, Chunks;
    r := payload;
    assert before + nodes[..0] == before;
    for i := 0 to |nodes|
      invariant r == start + Chunks(before + nodes[..i])
    {
      assert before + nodes[..i + 1] == before + nodes[..i] + [nodes[i]];
      ChunksSnoc(before + nodes[..i], nodes[i]);
      r := r + Chunk(nodes[i]);
    }
    assert nodes[..|nodes|] == nodes;
  }

  /** Appending piece by piece, the checker hashes the bytes the service hashes. */
  method InclusionHashOf(keccak: Hash, header: Header, proof: ReceiptProof) returns (r: Bytes32)
    ensures r == InclusionHash(keccak, header, proof)
  {
    hide Chunk, Chunks, BigEndian, Ascii, Hex0x;
    var payload := Ascii("UNIFIED_EVM_TRANSACTION_RECEIPT_INCLUSION_V1") + [0];
    payload := payload + Chunk(Ascii(Hex0x(header.hash)));
    payload := payload + BigEndian(proof.transactionIndex, 8);
    ghost var start, empty: seq<Bytes> := payload, [];
    assert Chunks(empty) == [] by { NoChunks(); }
    ChunksSnoc(empty, proof.transactionRlp);
    assert empty + [proof.transactionRlp] == [proof.transactionRlp];
    payload := payload + Chunk(proof.transactionRlp);
    payload := AppendNodes(payload, proof.transactionProofNodes, [proof.transactionRlp], start);
    ghost var half := [proof.transactionRlp] + proof.transactionProofNodes;
    ChunksSnoc(half, proof.receiptRlp);
    payload := payload + Chunk(proof.receiptRlp);
    payload := AppendNodes(payload, proof.receiptProofNodes, half + [proof.receiptRlp], start);
    return keccak(payload);
  }

  lemma NoChunks()
    ensures Chunks([]) == []
  {
  }
}
