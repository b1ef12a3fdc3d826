/** What an inclusion-proof hash pins down. The hashed text carries no node
    counts, so this needs the proof walk: of two accepted node lists neither can
    be a proper prefix of the other. */
module InclusionBinding {
  import opened ByteStrings
  import opened Rlp
  import opened Trie
  import opened EvmProof

  /** A receipt that the block check accepts under this encoded header. */
  ghost predicate Accepted(keccak: Hash, headerRlp: Bytes, proof: ReceiptProof) {
    && ParseHeader(keccak, headerRlp).Some?
    && proof.transactionIndex < UINT64_LIMIT
    && ProvenReceipt(keccak, ParseHeader(keccak, headerRlp).value, proof)
  }

  ghost predicate Sized(values: seq<Bytes>) {
    forall i :: 0 <= i < |values| ==> |values[i]| < UINT64_LIMIT
  }

  lemma ChunkSplit(a: Bytes, rest: Bytes, b: Bytes, rest': Bytes)
    requires |a| < UINT64_LIMIT && |b| < UINT64_LIMIT
    requires Chunk(a) + rest == Chunk(b) + rest'
    ensures a == b && rest == rest'
  {
    assert Chunk(a) + rest == BigEndian(|a|, 8) + (a + rest);
    assert Chunk(b) + rest' == BigEndian(|b|, 8) + (b + rest');
    SplitAt(BigEndian(|a|, 8), a + rest, BigEndian(|b|, 8), b + rest');
    Uint64Width(|a|);
    Uint64Width(|b|);
    SplitAt(a, rest, b, rest');
  }

  /** Length-prefixed lists are uniquely readable. */
  lemma {:induction false} ChunksInjective(values: seq<Bytes>, others: seq<Bytes>)
    requires Sized(values) && Sized(others)
    requires Chunks(values) == Chunks(others)
    ensures values == others
    decreases |values|
  {
    if values == [] || others == [] {
      assert |Chunks(values)| == 0;
    } else {
      ChunkSplit(values[0], Chunks(values[1..]), others[0], Chunks(others[1..]));
      ChunksInjective(values[1..], others[1..]);
      assert values == [values[0]] + values[1..] && others == [others[0]] + others[1..];
    }
  }

  lemma PreimageSplit(h1: Header, p1: ReceiptProof, h2: Header, p2: ReceiptProof)
    requires p1.transactionIndex < UINT64_LIMIT && p2.transactionIndex < UINT64_LIMIT
    requires InclusionPreimage(h1, p1) == InclusionPreimage(h2, p2)
    ensures h1.hash == h2.hash && p1.transactionIndex == p2.transactionIndex
    ensures Chunks(Items(p1)) == Chunks(Items(p2))
  {
    var domain := Ascii("UNIFIED_EVM_TRANSACTION_RECEIPT_INCLUSION_V1") + [0];
    var n1, n2 := Ascii(Hex0x(h1.hash)), Ascii(Hex0x(h2.hash));
    var i1, i2 := BigEndian(p1.transactionIndex, 8), BigEndian(p2.transactionIndex, 8);
    var c1, c2 := Chunks(Items(p1)), Chunks(Items(p2));
    assert InclusionPreimage(h1, p1) == domain + (Chunk(n1) + (i1 + c1));
    assert InclusionPreimage(h2, p2) == domain + (Chunk(n2) + (i2 + c2));
    SplitAt(domain, Chunk(n1) + (i1 + c1), domain, Chunk(n2) + (i2 + c2));
    ChunkSplit(n1, i1 + c1, n2, i2 + c2);
    Hex0xAsciiInjective(h1.hash, h2.hash);
    SplitAt(i1, c1, i2, c2);
    Uint64Width(p1.transactionIndex);
    Uint64Width(p2.transactionIndex);
  }

  /** Two node lists at the start of one list: the shorter is a prefix of the longer. */
  lemma SharedStart(a: Bytes, n: seq<Bytes>, r: seq<Bytes>, b: Bytes, m: seq<Bytes>, s: seq<Bytes>)
    requires [a] + n + r == [b] + m + s && |n| <= |m|
    ensures a == b && n <= m
    ensures |n| == |m| ==> r == s
  {
    var x, y := [a] + n + r, [b] + m + s;
    assert x[0] == a && y[0] == b;
    assert x[1..1 + |n|] == n && y[1..1 + |n|] == m[..|n|];
    assert x[1 + |n|..] == r && y[1 + |m|..] == s;
  }

  lemma ItemsDetermineProof(keccak: Hash, header: Header, p1: ReceiptProof, p2: ReceiptProof)
    requires ProvenReceipt(keccak, header, p1) && ProvenReceipt(keccak, header, p2)
    requires p1.transactionIndex == p2.transactionIndex
    requires Items(p1) == Items(p2) && |p1.transactionProofNodes| <= |p2.transactionProofNodes|
    ensures p1 == p2
  {
    var n1, n2 := p1.transactionProofNodes, p2.transactionProofNodes;
    var r1 := [p1.receiptRlp] + p1.receiptProofNodes;
    var r2 := [p2.receiptRlp] + p2.receiptProofNodes;
    assert Items(p1) == [p1.transactionRlp] + n1 + r1;
    assert Items(p2) == [p2.transactionRlp] + n2 + r2;
    SharedStart(p1.transactionRlp, n1, r1, p2.transactionRlp, n2, r2);
    AcceptedPrefixIsWhole(keccak, header.transactionsRoot, ToNibbles(EncodeUint(p1.transactionIndex)),
                          p1.transactionRlp, n1, p2.transactionRlp, n2);
    assert r1[0] == r2[0] && r1[1..] == r2[1..];
  }

  lemma ItemsSized(keccak: Hash, header: Header, proof: ReceiptProof)
    requires ProvenReceipt(keccak, header, proof)
    ensures Sized(Items(proof))
  {
  }

  /** The binding: two accepted receipts with one inclusion hash are the same
      header, index, transaction, receipt and proof nodes, or they exhibit a
      collision, of the two hashed texts or of the two headers. */
  lemma InclusionHashBinds(keccak: Hash, header1: Bytes, p1: ReceiptProof, header2: Bytes, p2: ReceiptProof)
    requires Accepted(keccak, header1, p1) && Accepted(keccak, header2, p2)
    requires InclusionHash(keccak, ParseHeader(keccak, header1).value, p1)
          == InclusionHash(keccak, ParseHeader(keccak, header2).value, p2)
    ensures || (header1 == header2 && p1 == p2)
            || Collides(keccak, header1, header2)
            || Collides(keccak, InclusionPreimage(ParseHeader(keccak, header1).value, p1),
                        InclusionPreimage(ParseHeader(keccak, header2).value, p2))
  {
    var h1, h2 := ParseHeader(keccak, header1).value, ParseHeader(keccak, header2).value;
    if InclusionPreimage(h1, p1) == InclusionPreimage(h2, p2) && !Collides(keccak, header1, header2) {
      PreimageSplit(h1, p1, h2, p2);
      assert header1 == header2;
      ItemsSized(keccak, h1, p1);
      ItemsSized(keccak, h2, p2);
      ChunksInjective(Items(p1), Items(p2));
      if |p1.transactionProofNodes| <= |p2.transactionProofNodes| {
        ItemsDetermineProof(keccak, h1, p1, p2);
      } else {
        ItemsDetermineProof(keccak, h1, p2, p1);
      }
    }
  }
}
