/** Hand-written Solidity ABI encodings (Solidity Contract ABI Specification,
    "Formal Specification of the Encoding"): words, a dynamic domain string with
    static words, and dynamic arrays of dynamic elements. Each encoding is read
    back in only one way. */
module Abi {
  import opened ByteStrings
  import opened Rlp

  function UintWord(n: nat): (w: Bytes)
    ensures |w| == 32
  {
    BigEndian(n, WORD_BYTES)
  }

  function AddressWord(address: Bytes): Bytes {
    Zeros(12) + address
  }

  /** Zero bytes up to the next word boundary. */
  function Padding(n: nat): (p: nat)
    ensures p < 32 && (n + p) % 32 == 0
  {
    (32 - n % 32) % 32
  }

  function StringTail(value: Bytes): Bytes {
    UintWord(|value|) + value + Zeros(Padding(|value|))
  }

  /** abi.encode(string, bytes32, bytes32, ...). */
  function DomainAndWords(domain: Bytes, words: seq<Bytes>): Bytes {
    UintWord((|words| + 1) * 32) + Concat(words) + StringTail(domain)
  }

  ghost predicate AreWords(words: seq<Bytes>) {
    forall i :: 0 <= i < |words| ==> |words[i]| == 32
  }

  // Unique readability.

  lemma UintWordInjective(m: nat, n: nat)
    requires m < UINT256_LIMIT && n < UINT256_LIMIT && UintWord(m) == UintWord(n)
    ensures m == n
  {
    BigEndianInjective(m, n, WORD_BYTES);
  }

  lemma AddressWordInjective(a: Bytes, b: Bytes)
    requires AddressWord(a) == AddressWord(b)
    ensures a == b
  {
    SplitAt(Zeros(12), a, Zeros(12), b);
  }

  lemma StringTailInjective(a: Bytes, rest: Bytes, b: Bytes, rest': Bytes)
    requires |a| < UINT256_LIMIT && |b| < UINT256_LIMIT
    requires StringTail(a) + rest == StringTail(b) + rest'
    ensures a == b && rest == rest'
  {
    var x, y := Zeros(Padding(|a|)), Zeros(Padding(|b|));
    Regroup(UintWord(|a|), a, x, rest);
    Regroup(UintWord(|b|), b, y, rest');
    CountedSplit(|a|, a + (x + rest), |b|, b + (y + rest'));
    SplitAt(a, x + rest, b, y + rest');
    SplitAt(x, rest, y, rest');
  }

  lemma Regroup(a: Bytes, b: Bytes, c: Bytes, d: Bytes)
    ensures a + b + c + d == a + (b + (c + d))
  {
  }

  lemma CountedSplit(m: nat, x: Bytes, n: nat, y: Bytes)
    requires m < UINT256_LIMIT && n < UINT256_LIMIT && UintWord(m) + x == UintWord(n) + y
    ensures m == n && x == y
  {
    SplitAt(UintWord(m), x, UintWord(n), y);
    UintWordInjective(m, n);
  }

  lemma {:induction false} WordsLength(words: seq<Bytes>)
    requires AreWords(words)
    ensures |Concat(words)| == 32 * |words|
  {
    if words != [] {
      WordsLength(words[1..]);
    }
  }

  lemma {:induction false} WordsInjective(words: seq<Bytes>, others: seq<Bytes>)
    requires AreWords(words) && AreWords(others) && |words| == |others|
    requires Concat(words) == Concat(others)
    ensures words == others
  {
    if words != [] {
      SplitAt(words[0], Concat(words[1..]), others[0], Concat(others[1..]));
      WordsInjective(words[1..], others[1..]);
      assert words == [words[0]] + words[1..] && others == [others[0]] + others[1..];
    }
  }

  /** Domain separation: the encoding determines both the domain and every word,
      so two domains never share a digest input. */
  lemma DomainAndWordsInjective(d1: Bytes, w1: seq<Bytes>, d2: Bytes, w2: seq<Bytes>)
    requires AreWords(w1) && AreWords(w2)
    requires (|w1| + 1) * 32 < UINT256_LIMIT && (|w2| + 1) * 32 < UINT256_LIMIT
    requires |d1| < UINT256_LIMIT && |d2| < UINT256_LIMIT
    requires DomainAndWords(d1, w1) == DomainAndWords(d2, w2)
    ensures d1 == d2 && w1 == w2
  {
    Regroup(UintWord((|w1| + 1) * 32), Concat(w1), StringTail(d1), []);
    Regroup(UintWord((|w2| + 1) * 32), Concat(w2), StringTail(d2), []);
    assert DomainAndWords(d1, w1) + [] == DomainAndWords(d2, w2) + [];
    CountedSplit((|w1| + 1) * 32, Concat(w1) + (StringTail(d1) + []), (|w2| + 1) * 32, Concat(w2) + (StringTail(d2) + []));
    WordsLength(w1);
    WordsLength(w2);
    SplitAt(Concat(w1), StringTail(d1) + [], Concat(w2), StringTail(d2) + []);
    WordsInjective(w1, w2);
    StringTailInjective(d1, [], d2, []);
  }

  // The buffer loops of the TypeScript encoders.

  /** Writes a word from its last byte backwards. */
  method FillWord(value: nat) returns (word: array<Byte>)
    requires value < UINT256_LIMIT
    ensures fresh(word) && word[..] == UintWord(value)
  {
    word := new Byte[WORD_BYTES](_ => 0);
    var remaining := value;
    var index := WORD_BYTES;
    while index > 0
      invariant 0 <= index <= word.Length == WORD_BYTES && fresh(word)
      invariant BigEndian(remaining, index) + word[index..] == UintWord(value)
    {
      index := index - 1;
      word[index] := remaining % 256;
      remaining := remaining / 256;
    }
    assert word[0..] == word[..];
  }

  /** Copies parts one after another into a buffer of their total length. */
  method ConcatInto(parts: seq<Bytes>) returns (result: array<Byte>)
    ensures fresh(result) && result[..] == Concat(parts)
  {
    var length := 0;
    for i := 0 to |parts|
      invariant length == TotalLength(parts[..i])
    {
      TotalSnoc(parts, i);
      length := length + |parts[i]|;
    }
    assert parts[..|parts|] == parts;
    ConcatLength(parts);
    result := new Byte[length](_ => 0);
    var offset := 0;
    for i := 0 to |parts|
      invariant fresh(result) && result.Length == |Concat(parts)|
      invariant offset == |Concat(parts[..i])| <= result.Length
      invariant result[..offset] == Concat(parts[..i])
    {
      ConcatFits(parts, i);
      SetAt(result, parts[i], offset);
      offset := offset + |parts[i]|;
    }
    assert result[..] == result[..offset];
  }

  lemma ConcatFits(parts: seq<Bytes>, i: nat)
    requires i < |parts|
    ensures Concat(parts[..i + 1]) == Concat(parts[..i]) + parts[i]
    ensures |Concat(parts[..i])| + |parts[i]| <= |Concat(parts)|
  {
    assert parts[..i + 1] == parts[..i] + [parts[i]];
    ConcatSnoc(parts[..i], parts[i]);
    ConcatSplit(parts, i + 1);
  }

  /** Copies one part to its place and nothing else. */
  method SetAt(result: array<Byte>, part: Bytes, offset: nat)
    requires offset + |part| <= result.Length
    modifies result
    ensures result[..offset + |part|] == old(result[..offset]) + part
  {
    for k := 0 to |part|
      invariant result[..offset + k] == old(result[..offset]) + part[..k]
    {
      result[offset + k] := part[k];
    }
    assert part[..|part|] == part;
  }

  // Dynamic arrays of dynamic elements.

  /** Where element `i` starts, counted from just after the element count. */
  function ElementStart(elements: seq<Bytes>, i: nat): nat
    requires i <= |elements|
  {
    32 * |elements| + TotalLength(elements[..i])
  }

  lemma {:induction false} TotalSnoc(parts: seq<Bytes>, i: nat)
    requires i < |parts|
    ensures TotalLength(parts[..i + 1]) == TotalLength(parts[..i]) + |parts[i]|
  {
    assert parts[..i + 1][1..] == parts[1..][..i];
    if i > 0 {
      assert parts[..i][1..] == parts[1..][..i - 1];
      TotalSnoc(parts[1..], i - 1);
    }
  }

  function Offsets(elements: seq<Bytes>, n: nat): (offsets: seq<Bytes>)
    requires n <= |elements|
    ensures |offsets| == n && AreWords(offsets)
    ensures forall i :: 0 <= i < n ==> offsets[i] == UintWord(ElementStart(elements, i))
  {
    if n == 0 then [] else Offsets(elements, n - 1) + [UintWord(ElementStart(elements, n - 1))]
  }

  function ArrayBody(elements: seq<Bytes>): Bytes {
    Concat(Offsets(elements, |elements|)) + Concat(elements)
  }

  function DynamicArray(elements: seq<Bytes>): Bytes {
    UintWord(|elements|) + ArrayBody(elements)
  }

  /** The running offset of the encoders: it starts after the offset words and
      grows by the length of each element. */
  method EncodeDynamicArray(elements: seq<Bytes>) returns (encoded: Bytes)
    ensures encoded == DynamicArray(elements)
  {
    var nextOffset := 32 * |elements|;
    var offsets: seq<Bytes> := [];
    for i := 0 to |elements|
      invariant nextOffset == ElementStart(elements, i)
      invariant offsets == Offsets(elements, i)
    {
      TotalSnoc(elements, i);
      offsets := offsets + [UintWord(nextOffset)];
      nextOffset := nextOffset + |elements[i]|;
    }
    var head := AppendAll(offsets);
    var tail := AppendAll(elements);
    encoded := UintWord(|elements|) + head + tail;
    assert encoded == UintWord(|elements|) + (head + tail);
  }

  lemma {:induction false} ConcatSnoc(parts: seq<Bytes>, last: Bytes)
    ensures Concat(parts + [last]) == Concat(parts) + last
  {
    if parts == [] {
      assert parts + [last] == [last] && [last][1..] == parts;
    } else {
      assert (parts + [last])[1..] == parts[1..] + [last];
      ConcatSnoc(parts[1..], last);
    }
  }

  lemma {:induction false} ConcatLength(parts: seq<Bytes>)
    ensures |Concat(parts)| == TotalLength(parts)
  {
    if parts != [] {
      ConcatLength(parts[1..]);
    }
  }

  lemma {:induction false} ConcatSplit(parts: seq<Bytes>, i: nat)
    requires i <= |parts|
    ensures Concat(parts) == Concat(parts[..i]) + Concat(parts[i..])
  {
    if i == 0 {
      assert parts[0..] == parts;
    } else {
      assert parts[..i][1..] == parts[1..][..i - 1] && parts[i..] == parts[1..][i - 1..];
      ConcatSplit(parts[1..], i - 1);
    }
  }

  /** Every offset is exact: element `i` lies at its offset, for elements of any length. */
  lemma OffsetIsExact(elements: seq<Bytes>, i: nat)
    requires i < |elements|
    ensures var start := ElementStart(elements, i);
            && start + |elements[i]| <= |ArrayBody(elements)|
            && ArrayBody(elements)[start..start + |elements[i]|] == elements[i]
  {
    hide UintWord, Concat, TotalLength, Offsets;
    WordsLength(Offsets(elements, |elements|));
    ConcatFits(elements, i);
    ConcatSplit(elements, i + 1);
    ConcatLength(elements[..i]);
    var before, after := Concat(elements[..i]), Concat(elements[i + 1..]);
    var head := Concat(Offsets(elements, |elements|));
    SliceOut(head + before, elements[i], after);
    assert ArrayBody(elements) == head + before + elements[i] + after;
  }

  lemma SliceOut(a: Bytes, b: Bytes, c: Bytes)
    ensures (a + b + c)[|a|..|a| + |b|] == b
  {
  }

  lemma {:induction false} StartsDetermineLengths(xs: seq<Bytes>, ys: seq<Bytes>, i: nat)
    requires |xs| == |ys| && i < |xs|
    requires ElementStart(xs, i) == ElementStart(ys, i) && ElementStart(xs, i + 1) == ElementStart(ys, i + 1)
    ensures |xs[i]| == |ys[i]|
  {
    TotalSnoc(xs, i);
    TotalSnoc(ys, i);
  }

  /** A dynamic array is read back in only one way, whatever its elements are. */
  lemma DynamicArrayInjective(xs: seq<Bytes>, ys: seq<Bytes>)
    requires |DynamicArray(xs)| < UINT256_LIMIT && |DynamicArray(ys)| < UINT256_LIMIT
    requires DynamicArray(xs) == DynamicArray(ys)
    ensures xs == ys
  {
    var n := |xs|;
    WordsLength(Offsets(xs, n));
    WordsLength(Offsets(ys, |ys|));
    SplitAt(UintWord(n), ArrayBody(xs), UintWord(|ys|), ArrayBody(ys));
    UintWordInjective(n, |ys|);
    SplitAt(Concat(Offsets(xs, n)), Concat(xs), Concat(Offsets(ys, n)), Concat(ys));
    WordsInjective(Offsets(xs, n), Offsets(ys, n));
    ConcatLength(xs);
    ConcatLength(ys);
    assert xs[..n] == xs && ys[..n] == ys;
    forall i | 0 <= i <= n
      ensures ElementStart(xs, i) == ElementStart(ys, i)
    {
      if i < n {
        StartBound(xs, i);
        StartBound(ys, i);
        assert Offsets(xs, n)[i] == Offsets(ys, n)[i];
        UintWordInjective(ElementStart(xs, i), ElementStart(ys, i));
      }
    }
    forall i | 0 <= i < n
      ensures xs[i] == ys[i]
    {
      StartsDetermineLengths(xs, ys, i);
      OffsetIsExact(xs, i);
      OffsetIsExact(ys, i);
    }
  }

  lemma StartBound(elements: seq<Bytes>, i: nat)
    requires i < |elements|
    ensures ElementStart(elements, i) <= |DynamicArray(elements)|
  {
    OffsetIsExact(elements, i);
  }
}
