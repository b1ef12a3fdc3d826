/** The release checker's RLP decoder: one cursor over the whole buffer, nested
    items bounded only by the buffer, no limit on list items. It accepts the
    same bytes as the service's decoder up to that item limit. */
module PythonRlp {
  import opened ByteStrings
  import opened Rlp

  // The decoder as a function of the buffer from the cursor on.

  function LongLength(rest: Bytes, lengthOfLength: nat): (r: Option<nat>)
    requires lengthOfLength >= 1
    ensures r.Some? ==> 1 + lengthOfLength <= |rest|
  {
    if 1 + lengthOfLength > |rest| || rest[1] == 0 then
      None
    else
      Some(FromBigEndian(rest[1..1 + lengthOfLength]))
  }

  function DecodeFront(rest: Bytes, depth: nat): (r: Option<(Value, nat)>)
    ensures r.Some? ==> 0 < r.value.1 <= |rest|
    decreases |rest|, 1
  {
    if depth > MAX_RLP_DEPTH || |rest| == 0 then
      None
    else
      var prefix := rest[0];
      if prefix <= 0x7f then
        Some((Str(rest[..1], [prefix]), 1))
      else if prefix <= 0xb7 then
        var end := 1 + (prefix - 0x80);
        if end > |rest| || (end == 2 && rest[1] < 0x80) then
          None
        else
          Some((Str(rest[..end], rest[1..end]), end))
      else if prefix <= 0xbf then
        match LongLength(rest, prefix - 0xb7)
        case None => None
        case Some(length) =>
          var lengthEnd := 1 + (prefix - 0xb7);
          if length < 56 || lengthEnd + length > |rest| then
            None
          else
            Some((Str(rest[..lengthEnd + length], rest[lengthEnd..lengthEnd + length]), lengthEnd + length))
      else if prefix <= 0xf7 then
        DecodeListFront(rest, 1, prefix - 0xc0, depth)
      else
        match LongLength(rest, prefix - 0xf7)
        case None => None
        case Some(length) =>
          if length < 56 then None else DecodeListFront(rest, 1 + (prefix - 0xf7), length, depth)
  }

  function DecodeListFront(rest: Bytes, payloadStart: nat, length: nat, depth: nat): (r: Option<(Value, nat)>)
    requires 1 <= payloadStart <= |rest|
    ensures r.Some? ==> 0 < r.value.1 <= |rest|
    decreases |rest|, 0
  {
    if payloadStart + length > |rest| then
      None
    else
      match DecodeItemsFront(rest[payloadStart..], length, depth + 1)
      case None => None
      case Some((items, used)) =>
        if used != length then
          None
        else
          Some((List(rest[..payloadStart + length], items), payloadStart + length))
  }

  /** Items until `length` bytes are reached or passed; an item may run past them. */
  function DecodeItemsFront(rest: Bytes, length: int, depth: nat): (r: Option<(seq<Value>, nat)>)
    ensures r.Some? ==> r.value.1 <= |rest|
    decreases |rest|, 2
  {
    if length <= 0 then
      Some(([], 0))
    else
      match DecodeFront(rest, depth)
      case None => None
      case Some((item, n)) =>
        match DecodeItemsFront(rest[n..], length - n, depth)
        case None => None
        case Some((items, used)) => Some(([item] + items, n + used))
  }

  // Soundness and completeness against the canonical encoding.

  ghost predicate Good(v: Value, depth: nat) {
    Consistent(v) && Nested(v, depth)
  }

  ghost predicate AllGood(items: seq<Value>, depth: nat) {
    forall i :: 0 <= i < |items| ==> Good(items[i], depth)
  }

  /** Strings are read alike by both decoders. */
  lemma StringsAgree(rest: Bytes, depth: nat)
    requires 0 < |rest| <= MAX_INT && rest[0] <= 0xbf
    ensures DecodeFront(rest, depth) == Decode(rest, depth)
  {
    if rest[0] <= 0x7f {
      assert rest[..1] == [rest[0]];
    }
  }

  lemma {:induction false} DecodeFrontSound(rest: Bytes, depth: nat)
    requires |rest| <= MAX_INT
    ensures DecodeFront(rest, depth).Some? ==>
              var (v, n) := DecodeFront(rest, depth).value;
              v.raw == rest[..n] && Good(v, depth)
    decreases |rest|, 1
  {
    if DecodeFront(rest, depth).Some? {
      var prefix := rest[0];
      if prefix <= 0xbf {
        StringsAgree(rest, depth);
        DecodeSound(rest, depth);
      } else if prefix <= 0xf7 {
        assert rest[..1] == Header(0xc0, prefix - 0xc0);
        DecodeListFrontSound(rest, 1, prefix - 0xc0, depth);
      } else {
        var length := LongLength(rest, prefix - 0xf7).value;
        assert DecodeListFront(rest, 1 + (prefix - 0xf7), length, depth).Some?;
        LongHeaderSound(rest, 0xc0, prefix - 0xf7, length);
        DecodeListFrontSound(rest, 1 + (prefix - 0xf7), length, depth);
      }
    }
  }

  lemma {:induction false} DecodeListFrontSound(rest: Bytes, payloadStart: nat, length: nat, depth: nat)
    requires |rest| <= MAX_INT && depth <= MAX_RLP_DEPTH
    requires 1 <= payloadStart <= |rest|
    requires rest[..payloadStart] == Header(0xc0, length)
    ensures DecodeListFront(rest, payloadStart, length, depth).Some? ==>
              var (v, n) := DecodeListFront(rest, payloadStart, length, depth).value;
              v.raw == rest[..n] && Good(v, depth)
    decreases |rest|, 0
  {
    if DecodeListFront(rest, payloadStart, length, depth).Some? {
      DecodeItemsFrontSound(rest[payloadStart..], length, depth + 1);
      assert rest[payloadStart..][..length] == rest[payloadStart..payloadStart + length];
      assert rest[..payloadStart + length] == rest[..payloadStart] + rest[payloadStart..payloadStart + length];
    }
  }

  lemma {:induction false} DecodeItemsFrontSound(rest: Bytes, length: int, depth: nat)
    requires |rest| <= MAX_INT
    ensures DecodeItemsFront(rest, length, depth).Some? ==>
              var (items, used) := DecodeItemsFront(rest, length, depth).value;
              && EncodeItems(items) == rest[..used]
              && AllGood(items, depth)
    decreases |rest|, 2
  {
    if DecodeItemsFront(rest, length, depth).Some? && length > 0 {
      var (item, n) := DecodeFront(rest, depth).value;
      var (items, used) := DecodeItemsFront(rest[n..], length - n, depth).value;
      DecodeFrontSound(rest, depth);
      DecodeItemsFrontSound(rest[n..], length - n, depth);
      ItemsGlue(rest, n, item, used, items, depth);
    }
  }

  lemma ItemsGlue(rest: Bytes, n: nat, item: Value, used: nat, items: seq<Value>, depth: nat)
    requires n + used <= |rest|
    requires item.raw == rest[..n] && Good(item, depth)
    requires EncodeItems(items) == rest[n..][..used] && AllGood(items, depth)
    ensures EncodeItems([item] + items) == rest[..n + used] && AllGood([item] + items, depth)
  {
    EncodeItemsCons(item, items);
    assert rest[..n + used] == rest[..n] + rest[n..][..used];
  }

  lemma ListHeaderFront(rest: Bytes, length: nat, depth: nat)
    requires depth <= MAX_RLP_DEPTH && length <= MAX_INT
    requires Header(0xc0, length) <= rest && |Header(0xc0, length)| + length <= |rest|
    ensures DecodeFront(rest, depth) == DecodeListFront(rest, |Header(0xc0, length)|, length, depth)
  {
    if length < 56 {
      assert rest[0] == Header(0xc0, length)[0];
    } else {
      LongHeaderComplete(rest, 0xc0, length);
    }
  }

  lemma {:induction false} DecodeFrontComplete(v: Value, rest: Bytes, depth: nat)
    requires Good(v, depth)
    requires v.raw <= rest && |rest| <= MAX_INT
    ensures DecodeFront(rest, depth) == Some((v, |v.raw|))
    decreases v, 1
  {
    if v.Str? {
      DecodeComplete(v, rest, depth);
      StringsAgree(rest, depth);
    } else {
      ListFrontComplete(v, rest, depth);
    }
  }

  lemma {:induction false} ListFrontComplete(v: Value, rest: Bytes, depth: nat)
    requires v.List? && Good(v, depth)
    requires v.raw <= rest && |rest| <= MAX_INT
    ensures DecodeFront(rest, depth) == Some((v, |v.raw|))
    decreases v, 0
  {
    var payload := EncodeItems(v.list);
    var h := Header(0xc0, |payload|);
    assert v.raw == h + payload;
    PrefixOfPrefix(h, payload, rest);
    assert DecodeItemsFront(rest[|h|..], |payload|, depth + 1) == Some((v.list, |payload|)) by {
      assert payload <= rest[|h|..];
      ItemsFrontComplete(v.list, rest[|h|..], depth + 1);
    }
    ListHeaderFront(rest, |payload|, depth);
  }

  lemma {:induction false} ItemsFrontComplete(items: seq<Value>, rest: Bytes, depth: nat)
    requires AllGood(items, depth)
    requires EncodeItems(items) <= rest && |rest| <= MAX_INT
    ensures DecodeItemsFront(rest, |EncodeItems(items)|, depth) == Some((items, |EncodeItems(items)|))
    decreases items, 2
  {
    if items != [] {
      var first, tail := items[0], items[1..];
      assert Good(first, depth);
      assert EncodeItems(items) == first.raw + EncodeItems(tail);
      PrefixOfPrefix(first.raw, EncodeItems(tail), rest);
      assert DecodeFront(rest, depth) == Some((first, |first.raw|)) by {
        DecodeFrontComplete(first, rest, depth);
      }
      var after := rest[|first.raw|..];
      assert DecodeItemsFront(after, |EncodeItems(tail)|, depth) == Some((tail, |EncodeItems(tail)|)) by {
        assert EncodeItems(tail) <= after;
        ItemsFrontComplete(tail, after, depth);
      }
      assert items == [first] + tail;
    }
  }

  /** The two decoders agree: on any buffer the service's decoder returns a value
      exactly when the checker's decoder returns it and no list in it is longer
      than the item limit. */
  lemma DecodersAgree(encoded: Bytes, v: Value, n: nat)
    requires |encoded| <= MAX_INT
    ensures Decode(encoded, 0) == Some((v, n)) <==> DecodeFront(encoded, 0) == Some((v, n)) && ItemBounded(v)
  {
    if Decode(encoded, 0) == Some((v, n)) {
      DecodeSound(encoded, 0);
      DecodeFrontComplete(v, encoded, 0);
    }
    if DecodeFront(encoded, 0) == Some((v, n)) && ItemBounded(v) {
      DecodeFrontSound(encoded, 0);
      DecodeComplete(v, encoded, 0);
    }
  }

  /** Beyond the item limit they differ: on the encoding of any well-nested value
      the checker succeeds, and the service succeeds exactly within the limit. */
  lemma OversizedListsDiffer(v: Value)
    requires Good(v, 0) && |v.raw| <= MAX_INT
    ensures DecodeFront(v.raw, 0) == Some((v, |v.raw|))
    ensures Decode(v.raw, 0).Some? <==> ItemBounded(v)
  {
    DecodeFrontComplete(v, v.raw, 0);
    if Decode(v.raw, 0).Some? {
      var (w, n) := Decode(v.raw, 0).value;
      DecodersAgree(v.raw, w, n);
    }
    if ItemBounded(v) {
      DecodersAgree(v.raw, v, |v.raw|);
    }
  }

  // The checker's loop over a cursor into the whole buffer.

  ghost function Shift(r: Option<(Value, nat)>, start: nat): Option<(Value, nat)> {
    if r.None? then None else Some((r.value.0, start + r.value.1))
  }

  method DecodeRlp(encoded: Bytes, start: nat, depth: nat) returns (r: Option<(Value, nat)>)
    requires start <= |encoded|
    ensures r == Shift(DecodeFront(encoded[start..], depth), start)
    decreases |encoded| - start, 1
  {
    if depth > MAX_RLP_DEPTH || start >= |encoded| {
      return None;
    }
    var prefix, offset := encoded[start], start + 1;
    ghost var rest := encoded[start..];
    if prefix <= 0x7f {
      assert rest[..1] == encoded[start..offset];
      return Some((Str(encoded[start..offset], [prefix]), offset));
    }
    if prefix <= 0xb7 {
      var end: nat := offset + (prefix - 0x80);
      if end > |encoded| || (end == offset + 1 && encoded[offset] < 0x80) {
        return None;
      }
      assert rest[..end - start] == encoded[start..end] && rest[1..end - start] == encoded[offset..end];
      return Some((Str(encoded[start..end], encoded[offset..end]), end));
    }
    if prefix <= 0xbf {
      r := DecodeLongString(encoded, start, depth);
      return;
    }
    var payloadStart, length := offset, 0;
    if prefix <= 0xf7 {
      length := prefix - 0xc0;
    } else {
      var lengthEnd := offset + (prefix - 0xf7);
      if lengthEnd > |encoded| || encoded[offset] == 0 {
        return None;
      }
      assert rest[1..lengthEnd - start] == encoded[offset..lengthEnd];
      length := FoldBigEndian(encoded[offset..lengthEnd]);
      if length < 56 {
        return None;
      }
      payloadStart := lengthEnd;
    }
    r := DecodeListPayload(encoded, start, payloadStart, length, depth);
  }

  method DecodeLongString(encoded: Bytes, start: nat, depth: nat) returns (r: Option<(Value, nat)>)
    requires depth <= MAX_RLP_DEPTH && start < |encoded| && 0xb7 < encoded[start] <= 0xbf
    ensures r == Shift(DecodeFront(encoded[start..], depth), start)
  {
    var offset := start + 1;
    var lengthEnd := offset + (encoded[start] - 0xb7);
    ghost var rest := encoded[start..];
    if lengthEnd > |encoded| || encoded[offset] == 0 {
      return None;
    }
    assert rest[1..lengthEnd - start] == encoded[offset..lengthEnd];
    var length := FoldBigEndian(encoded[offset..lengthEnd]);
    var end := lengthEnd + length;
    if length < 56 || end > |encoded| {
      return None;
    }
    assert rest[..end - start] == encoded[start..end] && rest[lengthEnd - start..end - start] == encoded[lengthEnd..end];
    r := Some((Str(encoded[start..end], encoded[lengthEnd..end]), end));
  }

  method DecodeListPayload(encoded: Bytes, start: nat, payloadStart: nat, length: nat, depth: nat)
    returns (r: Option<(Value, nat)>)
    requires start < payloadStart <= |encoded|
    ensures r == Shift(DecodeListFront(encoded[start..], payloadStart - start, length, depth), start)
    decreases |encoded| - start, 0
  {
    var payloadEnd := payloadStart + length;
    if payloadEnd > |encoded| {
      return None;
    }
    assert encoded[start..][payloadStart - start..] == encoded[payloadStart..];
    var decoded := DecodeUntil(encoded, payloadStart, payloadEnd, depth + 1);
    if decoded.None? || decoded.value.1 != payloadEnd {
      return None;
    }
    assert encoded[start..][..payloadEnd - start] == encoded[start..payloadEnd];
    ghost var items := DecodeItemsFront(encoded[payloadStart..], length, depth + 1).value.0;
    assert [] + items == items;
    return Some((List(encoded[start..payloadEnd], decoded.value.0), payloadEnd));
  }

  method DecodeUntil(encoded: Bytes, from: nat, end: nat, depth: nat) returns (r: Option<(seq<Value>, nat)>)
    requires from <= |encoded|
    ensures r == Remaining([], encoded, from, end, depth)
    decreases |encoded| - from, 2
  {
    var items: seq<Value>, cursor := [], from;
    ghost var whole := Remaining([], encoded, from, end, depth);
    while cursor < end
      invariant from <= cursor <= |encoded|
      invariant whole == Remaining(items, encoded, cursor, end, depth)
      decreases |encoded| - cursor
    {
      var decoded := DecodeRlp(encoded, cursor, depth);
      if decoded.None? {
        return None;
      }
      var (item, next) := decoded.value;
      PrependItemsStep(items, encoded, cursor, end, depth);
      items, cursor := items + [item], next;
    }
    assert items + [] == items;
    return Some((items, cursor));
  }

  lemma PrependItemsStep(items: seq<Value>, encoded: Bytes, cursor: nat, end: nat, depth: nat)
    requires cursor < end && cursor <= |encoded|
    requires DecodeFront(encoded[cursor..], depth).Some?
    ensures var (item, n) := DecodeFront(encoded[cursor..], depth).value;
            Remaining(items, encoded, cursor, end, depth) == Remaining(items + [item], encoded, cursor + n, end, depth)
  {
    var (item, n) := DecodeFront(encoded[cursor..], depth).value;
    assert encoded[cursor..][n..] == encoded[cursor + n..];
    PrependItemsAppend(items, item, cursor, n, DecodeItemsFront(encoded[cursor + n..], end - (cursor + n), depth));
  }

  ghost function PrependItems(items: seq<Value>, used: nat, r: Option<(seq<Value>, nat)>): Option<(seq<Value>, nat)> {
    if r.None? then None else Some((items + r.value.0, used + r.value.1))
  }

  /** What the loop will return, given the items it holds at `cursor`. */
  ghost function Remaining(items: seq<Value>, encoded: Bytes, cursor: nat, end: nat, depth: nat): Option<(seq<Value>, nat)>
    requires cursor <= |encoded|
  {
    PrependItems(items, cursor, DecodeItemsFront(encoded[cursor..], end - cursor, depth))
  }

  lemma PrependItemsAppend(items: seq<Value>, item: Value, used: nat, n: nat, r: Option<(seq<Value>, nat)>)
    ensures PrependItems(items, used, PrependItems([item], n, r)) == PrependItems(items + [item], used + n, r)
  {
    if r.Some? {
      assert items + ([item] + r.value.0) == items + [item] + r.value.0;
    }
  }
}
