/** Recursive length prefix encoding (Ethereum Yellow Paper, Appendix B): the
    encoders that build fixtures and the canonical, slice-bounded decoder that
    reads headers, receipts and trie nodes. */
module Rlp {
  import opened ByteStrings

  const MAX_RLP_DEPTH: nat := 64

  const MAX_RLP_LIST_ITEMS: nat := 0x1_0000

  /** A decoded item. `raw` is the exact span the item was read from. */
  datatype Value =
    | Str(raw: Bytes, payload: Bytes)
    | List(raw: Bytes, list: seq<Value>)

  // Encoding.

  /** The length prefix of a string (base 0x80) or of a list (base 0xc0). */
  function Header(base: Byte, length: nat): (h: Bytes)
    ensures |h| >= 1
  {
    if length < 56 then
      [LowByte(base + length)]
    else
      [LowByte(base + 55 + |MinimalBigEndian(length)|)] + MinimalBigEndian(length)
  }

  function LowByte(n: nat): Byte {
    if n < 256 then n else n % 256
  }

  function EncodeBytes(b: Bytes): (e: Bytes)
    ensures |e| >= 1 && |e| >= |b|
  {
    if |b| == 1 && b[0] < 0x80 then b else Header(0x80, |b|) + b
  }

  function EncodeList(payload: Bytes): (e: Bytes)
    ensures |e| > |payload|
  {
    Header(0xc0, |payload|) + payload
  }

  function Concat(parts: seq<Bytes>): Bytes {
    if parts == [] then [] else parts[0] + Concat(parts[1..])
  }

  function TotalLength(parts: seq<Bytes>): nat {
    if parts == [] then 0 else |parts[0]| + TotalLength(parts[1..])
  }

  lemma ConcatTwo(a: Bytes, b: Bytes)
    ensures Concat([a, b]) == a + b
  {
    assert [a, b][1..] == [b];
    assert Concat([b]) == b + Concat([b][1..]);
  }

  /** The encoding of a value, computed from its payloads alone. */
  function Encode(v: Value): (e: Bytes)
    ensures |e| >= 1
    decreases v, 0
  {
    match v
    case Str(_, payload) => EncodeBytes(payload)
    case List(_, list) => EncodeList(EncodeItems(list))
  }

  function EncodeItems(items: seq<Value>): Bytes
    decreases items, 1
  {
    if items == [] then [] else Encode(items[0]) + EncodeItems(items[1..])
  }

  lemma {:induction false} ItemSmaller(items: seq<Value>, i: nat)
    requires i < |items|
    ensures |Encode(items[i])| <= |EncodeItems(items)|
    ensures |items| <= |EncodeItems(items)|
  {
    if i > 0 {
      ItemSmaller(items[1..], i - 1);
    } else if |items| > 1 {
      ItemSmaller(items[1..], 0);
    }
  }

  /** Every `raw` span inside `v` is the encoding of the item it belongs to. */
  ghost predicate Consistent(v: Value) {
    && v.raw == Encode(v)
    && (v.List? ==> forall i :: 0 <= i < |v.list| ==> Consistent(v.list[i]))
  }

  /** `v` stays within the nesting bound when it is read at `depth`. */
  ghost predicate Nested(v: Value, depth: nat) {
    && depth <= MAX_RLP_DEPTH
    && (v.List? ==> forall i :: 0 <= i < |v.list| ==> Nested(v.list[i], depth + 1))
  }

  /** No list inside `v` is longer than the item bound. */
  ghost predicate ItemBounded(v: Value) {
    v.List? ==>
      && |v.list| <= MAX_RLP_LIST_ITEMS
      && forall i :: 0 <= i < |v.list| ==> ItemBounded(v.list[i])
  }

  /** A value the decoder can return at `depth`, and a list of them. */
  ghost predicate Bounded(v: Value, depth: nat) {
    Consistent(v) && Nested(v, depth) && ItemBounded(v)
  }

  ghost predicate AllBounded(items: seq<Value>, depth: nat) {
    forall i :: 0 <= i < |items| ==> Bounded(items[i], depth)
  }

  /** The list and string layouts a raw span may have, seen from the outside. */
  function StrOf(payload: Bytes): (v: Value)
    ensures Consistent(v)
  {
    Str(EncodeBytes(payload), payload)
  }

  function ListOf(items: seq<Value>): (v: Value)
    ensures v.List? && v.list == items && v.raw == Encode(v)
  {
    List(EncodeList(EncodeItems(items)), items)
  }

  // Decoding.

  function DecodeLength(input: Bytes, lengthOfLength: nat): (r: Option<nat>)
    ensures r.Some? ==> 1 + lengthOfLength <= |input|
  {
    if lengthOfLength == 0 || lengthOfLength > 8 || |input| < 1 + lengthOfLength || input[1] == 0 then
      None
    else
      var length := FromBigEndian(input[1..1 + lengthOfLength]);
      if length > MAX_INT then None else Some(length)
  }

  /** The item at the front of `input` and the number of bytes it occupies. */
  function Decode(input: Bytes, depth: nat): (r: Option<(Value, nat)>)
    ensures r.Some? ==> 0 < r.value.1 <= |input|
    decreases |input|, 1
  {
    if depth > MAX_RLP_DEPTH || |input| == 0 then
      None
    else
      var prefix := input[0];
      if prefix <= 0x7f then
        Some((Str(input[..1], input[..1]), 1))
      else if prefix <= 0xb7 then
        var length := prefix - 0x80;
        if |input| < 1 + length || (length == 1 && input[1] < 0x80) then
          None
        else
          Some((Str(input[..1 + length], input[1..1 + length]), 1 + length))
      else if prefix <= 0xbf then
        var lengthOfLength := prefix - 0xb7;
        match DecodeLength(input, lengthOfLength)
        case None => None
        case Some(length) =>
          var offset := 1 + lengthOfLength;
          if length < 56 || length > |input| - offset then
            None
          else
            Some((Str(input[..offset + length], input[offset..offset + length]), offset + length))
      else if prefix <= 0xf7 then
        DecodeListAt(input, 1, prefix - 0xc0, depth)
      else
        var lengthOfLength := prefix - 0xf7;
        match DecodeLength(input, lengthOfLength)
        case None => None
        case Some(length) =>
          var offset := 1 + lengthOfLength;
          if length < 56 || length > |input| - offset then
            None
          else
            DecodeListAt(input, offset, length, depth)
  }

  function DecodeListAt(input: Bytes, offset: nat, length: nat, depth: nat): (r: Option<(Value, nat)>)
    requires 1 <= offset <= |input|
    ensures r.Some? ==> 0 < r.value.1 <= |input|
    decreases |input|, 0
  {
    if length > |input| - offset then
      None
    else
      var end := offset + length;
      match DecodeItems(input[offset..end], depth + 1, 0)
      case None => None
      case Some(items) => Some((List(input[..end], items), end))
  }

  /** All of `payload` as consecutive items, `count` items having come before. */
  function DecodeItems(payload: Bytes, depth: nat, count: nat): Option<seq<Value>>
    decreases |payload|, 2
  {
    if payload == [] then
      Some([])
    else if count >= MAX_RLP_LIST_ITEMS then
      None
    else
      match Decode(payload, depth)
      case None => None
      case Some((item, consumed)) =>
        match DecodeItems(payload[consumed..], depth, count + 1)
        case None => None
        case Some(rest) => Some([item] + rest)
  }

  // Soundness: what is decoded re-encodes to exactly the bytes it came from.

  lemma LongHeaderSound(input: Bytes, base: Byte, lengthOfLength: nat, length: nat)
    requires base == 0x80 || base == 0xc0
    requires input != [] && input[0] == base + 55 + lengthOfLength
    requires DecodeLength(input, lengthOfLength) == Some(length)
    requires length >= 56
    ensures input[..1 + lengthOfLength] == Header(base, length)
  {
    var digits := input[1..1 + lengthOfLength];
    MinimalUnique(digits);
    assert input[..1 + lengthOfLength] == [input[0]] + digits;
  }

  lemma {:induction false} DecodeSound(input: Bytes, depth: nat)
    ensures Decode(input, depth).Some? ==>
              var (v, n) := Decode(input, depth).value;
              && v.raw == input[..n]
              && |v.raw| == n
              && Bounded(v, depth)
    decreases |input|, 1
  {
    if Decode(input, depth).Some? {
      var prefix := input[0];
      if prefix <= 0xb7 {
        ShortStringSound(input, depth);
      } else if prefix <= 0xbf {
        LongStringSound(input, depth);
      } else if prefix <= 0xf7 {
        assert input[..1] == Header(0xc0, prefix - 0xc0);
        DecodeListAtSound(input, 1, prefix - 0xc0, depth);
      } else {
        var lengthOfLength := prefix - 0xf7;
        var length := DecodeLength(input, lengthOfLength).value;
        LongHeaderSound(input, 0xc0, lengthOfLength, length);
        DecodeListAtSound(input, 1 + lengthOfLength, length, depth);
      }
    }
  }

  lemma ShortStringSound(input: Bytes, depth: nat)
    requires Decode(input, depth).Some? && input[0] <= 0xb7
    ensures var (v, n) := Decode(input, depth).value;
            v.raw == input[..n] && Bounded(v, depth)
  {
    if input[0] > 0x7f {
      var length := input[0] - 0x80;
      var payload := input[1..1 + length];
      assert input[..1 + length] == [input[0]] + payload;
      if length == 1 {
        assert payload[0] == input[1];
      }
    }
  }

  lemma LongStringSound(input: Bytes, depth: nat)
    requires Decode(input, depth).Some? && 0xb7 < input[0] <= 0xbf
    ensures var (v, n) := Decode(input, depth).value;
            v.raw == input[..n] && Bounded(v, depth)
  {
    var lengthOfLength := input[0] - 0xb7;
    var length := DecodeLength(input, lengthOfLength).value;
    var offset := 1 + lengthOfLength;
    LongHeaderSound(input, 0x80, lengthOfLength, length);
    assert input[..offset + length] == input[..offset] + input[offset..offset + length];
  }

  lemma {:induction false} DecodeListAtSound(input: Bytes, offset: nat, length: nat, depth: nat)
    requires 1 <= offset <= |input|
    requires depth <= MAX_RLP_DEPTH
    requires input[..offset] == Header(0xc0, length)
    ensures DecodeListAt(input, offset, length, depth).Some? ==>
              var (v, n) := DecodeListAt(input, offset, length, depth).value;
              && v.raw == input[..n]
              && |v.raw| == n
              && Bounded(v, depth)
    decreases |input|, 0
  {
    if DecodeListAt(input, offset, length, depth).Some? {
      var end := offset + length;
      DecodeItemsSound(input[offset..end], depth + 1, 0);
      assert input[..end] == input[..offset] + input[offset..end];
    }
  }

  lemma EncodeItemsCons(item: Value, rest: seq<Value>)
    ensures EncodeItems([item] + rest) == Encode(item) + EncodeItems(rest)
  {
    assert ([item] + rest)[1..] == rest;
  }

  lemma {:induction false} DecodeItemsSound(payload: Bytes, depth: nat, count: nat)
    requires count <= MAX_RLP_LIST_ITEMS
    ensures DecodeItems(payload, depth, count).Some? ==>
              var items := DecodeItems(payload, depth, count).value;
              && EncodeItems(items) == payload
              && count + |items| <= MAX_RLP_LIST_ITEMS
              && AllBounded(items, depth)
    decreases |payload|, 2
  {
    hide Decode, Encode, Nested, ItemBounded;
    if DecodeItems(payload, depth, count).Some? && payload != [] {
      var (item, consumed) := Decode(payload, depth).value;
      var rest := DecodeItems(payload[consumed..], depth, count + 1).value;
      assert item.raw == payload[..consumed] && Bounded(item, depth) by {
        DecodeSound(payload, depth);
      }
      DecodeItemsSound(payload[consumed..], depth, count + 1);
      EncodeItemsCons(item, rest);
      assert AllBounded([item] + rest, depth);
      assert payload == payload[..consumed] + payload[consumed..];
    }
  }

  // Completeness: the encoding of any bounded value decodes to that value.

  lemma LongHeaderComplete(input: Bytes, base: Byte, length: nat)
    requires base == 0x80 || base == 0xc0
    requires 56 <= length <= MAX_INT
    requires Header(base, length) <= input
    ensures 1 <= |MinimalBigEndian(length)| <= 8
    ensures input[0] == base + 55 + |MinimalBigEndian(length)|
    ensures DecodeLength(input, |MinimalBigEndian(length)|) == Some(length)
  {
    hide BigEndian, FromBigEndian, MinimalBigEndian;
    Uint64Width(length);
    MinimalRoundTrip(length);
    var digits := MinimalBigEndian(length);
    assert input[..1 + |digits|] == Header(base, length);
    assert input[1..1 + |digits|] == digits;
  }

  lemma ShortStringComplete(b: Bytes, input: Bytes, depth: nat)
    requires depth <= MAX_RLP_DEPTH && |b| < 56 && EncodeBytes(b) <= input
    ensures Decode(input, depth) == Some((StrOf(b), |EncodeBytes(b)|))
  {
    var raw := EncodeBytes(b);
    assert input[..|raw|] == raw;
    assert input[0] == raw[0];
    if |b| != 1 || b[0] >= 0x80 {
      assert input[1..1 + |b|] == raw[1..] == b;
      if |b| == 1 {
        assert input[1] == input[1..2][0];
      }
    }
  }

  lemma LongStringComplete(b: Bytes, input: Bytes, depth: nat)
    requires depth <= MAX_RLP_DEPTH && 56 <= |b| <= MAX_INT && EncodeBytes(b) <= input
    ensures Decode(input, depth) == Some((StrOf(b), |EncodeBytes(b)|))
  {
    PrefixOfPrefix(Header(0x80, |b|), b, input);
    LongHeaderComplete(input, 0x80, |b|);
  }

  lemma BoundedList(items: seq<Value>, depth: nat)
    requires |items| <= MAX_RLP_LIST_ITEMS && AllBounded(items, depth + 1) && depth < MAX_RLP_DEPTH
    ensures Bounded(ListOf(items), depth)
  {
    hide Encode;
    forall i | 0 <= i < |items| ensures Bounded(items[i], depth + 1) {
    }
  }

  lemma {:induction false} DecodeComplete(v: Value, input: Bytes, depth: nat)
    requires Bounded(v, depth)
    requires v.raw <= input && |v.raw| <= MAX_INT
    ensures Decode(input, depth) == Some((v, |v.raw|))
    decreases v, 0
  {
    match v
    case Str(_, payload) =>
      if |payload| < 56 {
        ShortStringComplete(payload, input, depth);
      } else {
        LongStringComplete(payload, input, depth);
      }
    case List(_, list) =>
      DecodeItemsComplete(list, depth + 1, 0);
      DecodeListComplete(v, input, depth);
  }

  lemma DecodeListComplete(v: Value, input: Bytes, depth: nat)
    requires v.List? && v.raw == Encode(v) && depth <= MAX_RLP_DEPTH
    requires v.raw <= input && |v.raw| <= MAX_INT
    requires DecodeItems(EncodeItems(v.list), depth + 1, 0) == Some(v.list)
    ensures Decode(input, depth) == Some((v, |v.raw|))
  {
    var payload := EncodeItems(v.list);
    var h := Header(0xc0, |payload|);
    assert v.raw == h + payload;
    PrefixOfPrefix(h, payload, input);
    ListHeaderDispatch(input, |payload|, depth);
  }

  lemma PrefixOfPrefix(h: Bytes, payload: Bytes, input: Bytes)
    requires h + payload <= input
    ensures h <= input
    ensures input[|h|..|h| + |payload|] == payload
    ensures input[..|h| + |payload|] == h + payload
  {
    assert input[..|h| + |payload|] == h + payload;
    assert input[..|h|] == (h + payload)[..|h|];
    assert input[|h|..|h| + |payload|] == (h + payload)[|h|..];
  }

  lemma ListHeaderDispatch(input: Bytes, length: nat, depth: nat)
    requires depth <= MAX_RLP_DEPTH && length <= MAX_INT
    requires Header(0xc0, length) <= input && |Header(0xc0, length)| + length <= |input|
    ensures Decode(input, depth) == DecodeListAt(input, |Header(0xc0, length)|, length, depth)
  {
    if length < 56 {
      assert input[0] == Header(0xc0, length)[0];
    } else {
      LongHeaderComplete(input, 0xc0, length);
    }
  }

  lemma {:induction false} DecodeItemsComplete(items: seq<Value>, depth: nat, count: nat)
    requires AllBounded(items, depth)
    requires count + |items| <= MAX_RLP_LIST_ITEMS
    requires |EncodeItems(items)| <= MAX_INT
    ensures DecodeItems(EncodeItems(items), depth, count) == Some(items)
    decreases items, 1
  {
    if items != [] {
      var payload := EncodeItems(items);
      var first := items[0];
      assert payload == first.raw + EncodeItems(items[1..]);
      DecodeComplete(first, payload, depth);
      assert payload[|first.raw|..] == EncodeItems(items[1..]);
      DecodeItemsComplete(items[1..], depth, count + 1);
      assert items == [first] + items[1..];
    }
  }

  /** The decoder is a canonical bijection: it returns a value exactly when the
      input begins with that value's one encoding and the value is within the
      nesting and item bounds. Nothing after the encoding matters. */
  lemma DecodeIsCanonical(input: Bytes, depth: nat, v: Value, n: nat)
    requires |input| <= MAX_INT
    ensures Decode(input, depth) == Some((v, n)) <==>
            && Bounded(v, depth)
            && n == |v.raw| && v.raw <= input
  {
    if Decode(input, depth) == Some((v, n)) {
      DecodeSound(input, depth);
    }
    if Bounded(v, depth) && n == |v.raw| && v.raw <= input {
      DecodeComplete(v, input, depth);
    }
  }

  /** Success and the consumed length do not depend on trailing bytes. */
  lemma DecodeIgnoresTail(input: Bytes, tail: Bytes, depth: nat)
    requires |input| <= MAX_INT
    requires Decode(input, depth).Some?
    ensures Decode(input[..Decode(input, depth).value.1] + tail, depth) == Decode(input, depth)
  {
    DecodeSound(input, depth);
    var (v, n) := Decode(input, depth).value;
    DecodeComplete(v, input[..n] + tail, depth);
  }

  // The decoder as the service runs it.

  method DecodeRlpDepth(input: Bytes, depth: nat) returns (r: Option<(Value, nat)>)
    ensures r == Decode(input, depth)
    decreases |input|, 1
  {
    if depth > MAX_RLP_DEPTH || |input| == 0 {
      return None;
    }
    var prefix := input[0];
    if prefix <= 0x7f {
      return Some((Str(input[..1], input[..1]), 1));
    } else if prefix <= 0xb7 {
      var length := prefix - 0x80;
      if |input| < 1 + length || (length == 1 && input[1] < 0x80) {
        return None;
      }
      return Some((Str(input[..1 + length], input[1..1 + length]), 1 + length));
    } else if prefix <= 0xbf {
      var lengthOfLength := prefix - 0xb7;
      var length := DecodeRlpLength(input, lengthOfLength);
      var offset := 1 + lengthOfLength;
      if length.None? || length.value < 56 || length.value > |input| - offset {
        return None;
      }
      return Some((Str(input[..offset + length.value], input[offset..offset + length.value]), offset + length.value));
    } else if prefix <= 0xf7 {
      r := DecodeRlpList(input, 1, prefix - 0xc0, depth);
    } else {
      var lengthOfLength := prefix - 0xf7;
      var length := DecodeRlpLength(input, lengthOfLength);
      var offset := 1 + lengthOfLength;
      if length.None? || length.value < 56 || length.value > |input| - offset {
        return None;
      }
      r := DecodeRlpList(input, offset, length.value, depth);
    }
  }

  method DecodeRlpLength(input: Bytes, lengthOfLength: nat) returns (r: Option<nat>)
    ensures r == DecodeLength(input, lengthOfLength)
  {
    if lengthOfLength == 0 || lengthOfLength > 8 || |input| < 1 + lengthOfLength || input[1] == 0 {
      return None;
    }
    var digits := input[1..1 + lengthOfLength];
    var length := FoldBigEndian(digits);
    if length > MAX_INT {
      return None;
    }
    return Some(length);
  }

  /** The shift-and-or loop over at most eight bytes; it cannot overflow 64 bits. */
  method FoldBigEndian(digits: Bytes) returns (n: nat)
    requires |digits| <= 8
    ensures n == FromBigEndian(digits) && n < UINT64_LIMIT
  {
    n := 0;
    for i := 0 to |digits|
      invariant n == FromBigEndian(digits[..i])
    {
      assert digits[..i + 1][..i] == digits[..i];
      n := n * 256 + digits[i];
    }
    assert digits[..|digits|] == digits;
    Uint64Bound(digits);
  }

  ghost function Prepend<T>(items: seq<T>, rest: Option<seq<T>>): Option<seq<T>> {
    if rest.None? then None else Some(items + rest.value)
  }

  lemma PrependNothing<T>(rest: Option<seq<T>>)
    ensures Prepend([], rest) == rest
  {
    if rest.Some? {
      assert [] + rest.value == rest.value;
    }
  }

  lemma PrependStep(items: seq<Value>, payload: Bytes, depth: nat)
    requires payload != [] && |items| < MAX_RLP_LIST_ITEMS && Decode(payload, depth).Some?
    ensures var (item, consumed) := Decode(payload, depth).value;
            Prepend(items, DecodeItems(payload, depth, |items|))
            == Prepend(items + [item], DecodeItems(payload[consumed..], depth, |items| + 1))
  {
    var (item, consumed) := Decode(payload, depth).value;
    var rest := DecodeItems(payload[consumed..], depth, |items| + 1);
    if rest.Some? {
      assert items + ([item] + rest.value) == items + [item] + rest.value;
    }
  }

  method DecodeRlpList(input: Bytes, offset: nat, length: nat, depth: nat) returns (r: Option<(Value, nat)>)
    requires 1 <= offset <= |input|
    ensures r == DecodeListAt(input, offset, length, depth)
    decreases |input|, 0
  {
    if length > |input| - offset {
      return None;
    }
    var end := offset + length;
    var items := DecodeRlpItems(input[offset..end], depth + 1);
    if items.None? {
      return None;
    }
    return Some((List(input[..end], items.value), end));
  }

  method DecodeRlpItems(payload: Bytes, depth: nat) returns (r: Option<seq<Value>>)
    ensures r == DecodeItems(payload, depth, 0)
    decreases |payload|, 2
  {
    hide Decode;
    var items: seq<Value>, position := [], 0;
    ghost var whole := Prepend([], DecodeItems(payload, depth, 0));
    assert payload[0..] == payload;
    while position < |payload|
      invariant 0 <= position <= |payload| && |items| <= MAX_RLP_LIST_ITEMS
      invariant whole == Prepend(items, DecodeItems(payload[position..], depth, |items|))
    {
      if |items| >= MAX_RLP_LIST_ITEMS {
        return None;
      }
      var decoded := DecodeRlpDepth(payload[position..], depth);
      if decoded.None? {
        return None;
      }
      var (item, consumed) := decoded.value;
      PrependStep(items, payload[position..], depth);
      assert payload[position..][consumed..] == payload[position + consumed..];
      items, position := items + [item], position + consumed;
    }
    assert payload[position..] == [] && items + [] == items;
    PrependNothing(DecodeItems(payload, depth, 0));
    return Some(items);
  }

  // The encoders as the fixture builder runs them.

  /** Eight big-endian bytes with the leading zeros dropped. */
  method StripLeadingZeros(n: nat) returns (r: Bytes)
    requires 0 < n < UINT64_LIMIT
    ensures r == MinimalBigEndian(n)
  {
    Uint64Width(n);
    MinimalRoundTrip(n);
    var encoded := BigEndian(n, 8);
    ghost var pad := 8 - |MinimalBigEndian(n)|;
    var first := 0;
    while encoded[first] == 0
      invariant 0 <= first <= pad
      decreases pad - first
    {
      first := first + 1;
    }
    assert encoded[pad] == MinimalBigEndian(n)[0];
    r := encoded[first..];
  }

  method RlpBytes(value: Bytes) returns (r: Bytes)
    requires |value| <= MAX_INT
    ensures r == EncodeBytes(value)
    ensures |r| <= MAX_INT ==> Decode(r, 0) == Some((StrOf(value), |r|))
  {
    if |value| == 1 && value[0] < 0x80 {
      r := value;
    } else if |value| < 56 {
      r := [0x80 + |value|] + value;
    } else {
      var length := StripLeadingZeros(|value|);
      Uint64Width(|value|);
      r := [0xb7 + |length|] + length + value;
    }
    if |r| <= MAX_INT {
      DecodeComplete(StrOf(value), r, 0);
    }
  }

  method RlpList(values: seq<Bytes>) returns (r: Bytes)
    requires |Concat(values)| <= MAX_INT
    ensures r == EncodeList(Concat(values))
  {
    var payload := AppendAll(values);
    if |payload| < 56 {
      return [0xc0 + |payload|] + payload;
    }
    var length := StripLeadingZeros(|payload|);
    Uint64Width(|payload|);
    r := [0xf7 + |length|] + length + payload;
  }

  method AppendAll(values: seq<Bytes>) returns (payload: Bytes)
    ensures payload == Concat(values)
  {
    payload := [];
    for i := 0 to |values|
      invariant payload + Concat(values[i..]) == Concat(values)
    {
      assert values[i..][1..] == values[i + 1..];
      payload := payload + values[i];
    }
  }

  /** The key of a transaction index: an RLP integer. */
  function EncodeUint(n: nat): Bytes {
    EncodeBytes(MinimalBigEndian(n))
  }

  method RlpUint(n: nat) returns (r: Bytes)
    requires n < UINT64_LIMIT
    ensures r == EncodeUint(n)
  {
    if n == 0 {
      return [0x80];
    }
    var payload := StripLeadingZeros(n);
    Uint64Width(n);
    if |payload| == 1 && payload[0] < 0x80 {
      return payload;
    }
    r := [0x80 + |payload|] + payload;
  }

  /** Reading a canonical integer payload back. */
  function Uint64(payload: Bytes): Option<nat> {
    if |payload| > 8 || (|payload| > 0 && payload[0] == 0) then None else Some(FromBigEndian(payload))
  }

  lemma Uint64RoundTrip(payload: Bytes, n: nat)
    ensures Uint64(payload) == Some(n) <==> n < UINT64_LIMIT && payload == MinimalBigEndian(n)
  {
    if Uint64(payload) == Some(n) {
      MinimalUnique(payload);
      Uint64Bound(payload);
    }
    if n < UINT64_LIMIT && payload == MinimalBigEndian(n) {
      MinimalRoundTrip(n);
      Uint64Width(n);
    }
  }
}
