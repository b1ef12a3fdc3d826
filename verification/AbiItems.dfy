/** Additive ABI payloads: items with unique identities in a canonical order. */
module AbiItems {
  import opened ByteStrings
  import opened ByteOrder

  datatype Kind = ConstructorItem | ErrorItem | EventItem | FunctionItem | UnsupportedItem

  /** An ABI item: its kind, its canonical identity as UTF-8, and everything else. */
  datatype Item = Item(kind: Kind, identity: Bytes, body: Bytes)

  function Rank(kind: Kind): Byte {
    match kind
    case ConstructorItem => 0
    case ErrorItem => 1
    case EventItem => 2
    case FunctionItem => 3
    case UnsupportedItem => 4
  }

  /** The order of a kind, then the bytes of the identity. */
  function SortKey(item: Item): Bytes {
    [Rank(item.kind)] + item.identity
  }

  function SortKeys(items: seq<Item>): (keys: seq<Bytes>)
    ensures |keys| == |items|
    ensures forall i :: 0 <= i < |items| ==> keys[i] == SortKey(items[i])
  {
    seq(|items|, i requires 0 <= i < |items| => SortKey(items[i]))
  }

  predicate DistinctItems(items: seq<Item>) {
    forall i, j :: 0 <= i < j < |items| ==> items[i].identity != items[j].identity
  }

  predicate Supported(items: seq<Item>) {
    forall i :: 0 <= i < |items| ==> items[i].kind != UnsupportedItem
  }

  predicate Ordered(items: seq<Item>) {
    Increasing(SortKeys(items))
  }

  /** Inserts behind every item that is not larger, as a stable sort does. */
  function InsertItem(items: seq<Item>, item: Item): (r: seq<Item>)
    ensures |r| == |items| + 1
    ensures forall x :: x in r <==> x == item || x in items
  {
    if items == [] then [item]
    else
      var last := items[|items| - 1];
      assert items == items[..|items| - 1] + [last];
      if Less(SortKey(item), SortKey(last))
      then InsertItem(items[..|items| - 1], item) + [last]
      else items + [item]
  }

  function SortItems(items: seq<Item>): (r: seq<Item>)
    ensures |r| == |items|
    ensures forall x :: x in r <==> x in items
  {
    if items == [] then []
    else
      assert items == items[..|items| - 1] + [items[|items| - 1]];
      InsertItem(SortItems(items[..|items| - 1]), items[|items| - 1])
  }

  /** Additions may only be errors and events, and no identity may repeat. */
  function AdditivePayload(base: seq<Item>, additions: seq<Item>): Option<seq<Item>> {
    if DistinctItems(base + additions) && AllAdditive(additions) && Supported(base)
    then Some(SortItems(base + additions))
    else None
  }

  predicate AllAdditive(additions: seq<Item>) {
    forall i :: 0 <= i < |additions| ==> additions[i].kind == ErrorItem || additions[i].kind == EventItem
  }

  /** The payload builder as it runs: identities accumulate while additions are appended. */
  method BuildAdditivePayload(base: seq<Item>, additions: seq<Item>) returns (r: Option<seq<Item>>)
    ensures r == AdditivePayload(base, additions)
  {
    hide SortItems;
    var distinct := HasDistinctIdentities(base);
    if !distinct {
      assert base + additions[..0] == base;
      RepeatedPrefix(base, additions, 0);
      return None;
    }
    var payload := base;
    for i := 0 to |additions|
      invariant payload == base + additions[..i] && DistinctItems(payload)
      invariant AllAdditive(additions[..i])
    {
      var addition := additions[i];
      if addition.kind != ErrorItem && addition.kind != EventItem {
        return None;
      }
      var repeated := HasIdentity(payload, addition.identity);
      assert base + additions[..i + 1] == payload + [addition];
      if repeated {
        RepeatedLast(payload, addition);
        RepeatedPrefix(base, additions, i + 1);
        return None;
      }
      payload := payload + [addition];
    }
    assert additions[..|additions|] == additions;
    for i := 0 to |base|
      invariant Supported(base[..i])
    {
      if base[i].kind == UnsupportedItem {
        return None;
      }
    }
    assert base[..|base|] == base;
    return Some(SortItems(payload));
  }

  method HasIdentity(items: seq<Item>, identity: Bytes) returns (found: bool)
    ensures found <==> exists i :: 0 <= i < |items| && items[i].identity == identity
  {
    for i := 0 to |items|
      invariant forall k :: 0 <= k < i ==> items[k].identity != identity
    {
      if items[i].identity == identity {
        return true;
      }
    }
    return false;
  }

  method HasDistinctIdentities(items: seq<Item>) returns (distinct: bool)
    ensures distinct <==> DistinctItems(items)
  {
    for i := 0 to |items|
      invariant DistinctItems(items[..i])
    {
      var repeated := HasIdentity(items[..i], items[i].identity);
      if repeated {
        return false;
      }
    }
    assert items[..|items|] == items;
    return true;
  }

  lemma RepeatedLast(items: seq<Item>, last: Item)
    requires exists i :: 0 <= i < |items| && items[i].identity == last.identity
    ensures !DistinctItems(items + [last])
  {
    var i :| 0 <= i < |items| && items[i].identity == last.identity;
    assert (items + [last])[i] == items[i] && (items + [last])[|items|] == last;
  }

  lemma RepeatedPrefix(base: seq<Item>, additions: seq<Item>, n: nat)
    requires n <= |additions| && !DistinctItems(base + additions[..n])
    ensures !DistinctItems(base + additions)
  {
    var a, b := base + additions[..n], base + additions;
    var i, j :| 0 <= i < j < |a| && a[i].identity == a[j].identity;
    assert a[i] == b[i] && a[j] == b[j];
  }

  // The order is canonical.

  lemma KeyDeterminesIdentity(a: Item, b: Item)
    requires SortKey(a) == SortKey(b)
    ensures a.identity == b.identity
  {
    assert SortKey(a)[1..] == a.identity && SortKey(b)[1..] == b.identity;
  }

  lemma {:induction false} InsertKeepsOrder(items: seq<Item>, item: Item)
    requires Ordered(items) && forall x :: x in items ==> x.identity != item.identity
    ensures Ordered(InsertItem(items, item))
  {
    hide Less, SortKey;
    if items != [] {
      var init, last := items[..|items| - 1], items[|items| - 1];
      assert items == init + [last] && last in items;
      if Less(SortKey(item), SortKey(last)) {
        OrderedInit(items);
        InsertKeepsOrder(init, item);
        OrderedAppend(InsertItem(init, item), last, items, item);
      } else {
        LessTotal(SortKey(item), SortKey(last));
        if SortKey(item) == SortKey(last) {
          KeyDeterminesIdentity(item, last);
        }
        OrderedSnoc(items, item);
      }
    }
  }

  lemma OrderedInit(items: seq<Item>)
    requires Ordered(items) && items != []
    ensures Ordered(items[..|items| - 1])
  {
    hide Less, SortKey;
    var init := items[..|items| - 1];
    forall i | 0 < i < |init| ensures Less(SortKeys(init)[i - 1], SortKeys(init)[i]) {
      assert Less(SortKeys(items)[i - 1], SortKeys(items)[i]);
    }
  }

  lemma OrderedSnoc(items: seq<Item>, item: Item)
    requires Ordered(items) && items != [] && Less(SortKey(items[|items| - 1]), SortKey(item))
    ensures Ordered(items + [item])
  {
    hide Less, SortKey;
    var r := items + [item];
    forall i | 0 < i < |r| ensures Less(SortKeys(r)[i - 1], SortKeys(r)[i]) {
      if i < |items| {
        assert Less(SortKeys(items)[i - 1], SortKeys(items)[i]);
      }
    }
  }

  lemma OrderedAppend(inserted: seq<Item>, last: Item, items: seq<Item>, item: Item)
    requires Ordered(inserted) && Ordered(items) && inserted != [] && items != [] && last == items[|items| - 1]
    requires forall x :: x in inserted ==> x == item || x in items[..|items| - 1]
    requires Less(SortKey(item), SortKey(last))
    ensures Ordered(inserted + [last])
  {
    hide Less, SortKey;
    var x := inserted[|inserted| - 1];
    assert x in inserted;
    if x != item {
      var i :| 0 <= i < |items| - 1 && items[i] == x;
      IncreasingPairs(SortKeys(items), i, |items| - 1);
    }
    OrderedSnoc(inserted, last);
  }

  lemma {:induction false} SortIsOrdered(items: seq<Item>)
    requires DistinctItems(items)
    ensures Ordered(SortItems(items)) && DistinctItems(SortItems(items))
  {
    hide Less, SortKey;
    if items != [] {
      var init, last := items[..|items| - 1], items[|items| - 1];
      SortIsOrdered(init);
      forall x | x in SortItems(init) ensures x.identity != last.identity {
        var i :| 0 <= i < |init| && init[i] == x;
        assert items[i] == x;
      }
      InsertKeepsOrder(SortItems(init), last);
      OrderedIsDistinct(items, SortItems(items));
    }
  }

  lemma OrderedIsDistinct(items: seq<Item>, sorted: seq<Item>)
    requires DistinctItems(items) && Ordered(sorted) && forall x :: x in sorted ==> x in items
    ensures DistinctItems(sorted)
  {
    hide Less, SortKey;
    IncreasingIsDistinct(SortKeys(sorted));
    forall i, j | 0 <= i < j < |sorted| ensures sorted[i].identity != sorted[j].identity {
      assert SortKeys(sorted)[i] != SortKeys(sorted)[j];
      assert sorted[i] in sorted && sorted[j] in sorted;
      var a :| 0 <= a < |items| && items[a] == sorted[i];
      var b :| 0 <= b < |items| && items[b] == sorted[j];
    }
  }

  /** Two lists hold the same items, each identity once. */
  ghost predicate SameItems(a: seq<Item>, b: seq<Item>) {
    DistinctItems(a) && DistinctItems(b) && forall x :: x in a <==> x in b
  }

  /** Items with the same identity are the same item of the list. */
  lemma IdentityDetermines(items: seq<Item>, x: Item, y: Item)
    requires DistinctItems(items) && x in items && y in items && x.identity == y.identity
    ensures x == y
  {
    var i :| 0 <= i < |items| && items[i] == x;
    var j :| 0 <= j < |items| && items[j] == y;
  }

  /** The sorted payload depends only on which items there are. */
  lemma SortIsCanonical(a: seq<Item>, b: seq<Item>)
    requires SameItems(a, b)
    ensures SortItems(a) == SortItems(b)
  {
    hide Less, SortKey;
    var x, y := SortItems(a), SortItems(b);
    SortIsOrdered(a);
    SortIsOrdered(b);
    forall k | k in SortKeys(x) ensures k in SortKeys(y) {
      SameKeys(x, y, k);
    }
    forall k | k in SortKeys(y) ensures k in SortKeys(x) {
      SameKeys(y, x, k);
    }
    IncreasingIsUnique(SortKeys(x), SortKeys(y));
    assert |x| == |SortKeys(x)| == |SortKeys(y)| == |y|;
    forall i | 0 <= i < |x| ensures x[i] == y[i] {
      assert SortKeys(x)[i] == SortKeys(y)[i];
      KeyDeterminesIdentity(x[i], y[i]);
      assert y[i] in y && x[i] in x;
      IdentityDetermines(a, x[i], y[i]);
    }
  }

  lemma SameKeys(x: seq<Item>, y: seq<Item>, key: Bytes)
    requires (forall z :: z in x ==> z in y) && key in SortKeys(x)
    ensures key in SortKeys(y)
  {
    hide SortKey;
    var i :| 0 <= i < |x| && SortKeys(x)[i] == key;
    assert x[i] in y;
    var j :| 0 <= j < |y| && y[j] == x[i];
    assert SortKeys(y)[j] == key;
  }

  /** Additions to equal collections of items give the very same payload. */
  lemma AdditiveIsCanonical(a: seq<Item>, b: seq<Item>, additions: seq<Item>)
    requires SameItems(a, b)
    ensures AdditivePayload(a, additions) == AdditivePayload(b, additions)
  {
    hide SortItems;
    if AdditivePayload(a, additions).Some? {
      AdditiveCarriesOver(a, b, additions);
    } else if AdditivePayload(b, additions).Some? {
      AdditiveCarriesOver(b, a, additions);
    }
  }

  lemma AdditiveCarriesOver(a: seq<Item>, b: seq<Item>, additions: seq<Item>)
    requires SameItems(a, b) && AdditivePayload(a, additions).Some?
    ensures AdditivePayload(a, additions) == AdditivePayload(b, additions)
  {
    hide SortItems;
    AppendDistinct(a, b, additions);
    SameSupport(a, b);
    SortIsCanonical(a + additions, b + additions);
  }

  lemma SameSupport(a: seq<Item>, b: seq<Item>)
    requires Supported(a) && forall x :: x in b ==> x in a
    ensures Supported(b)
  {
    forall i | 0 <= i < |b| ensures b[i].kind != UnsupportedItem {
      assert b[i] in a;
    }
  }

  lemma AppendDistinct(a: seq<Item>, b: seq<Item>, additions: seq<Item>)
    requires SameItems(a, b) && DistinctItems(a + additions)
    ensures DistinctItems(b + additions)
  {
    var s, t := a + additions, b + additions;
    forall i, j | 0 <= i < j < |t| ensures t[i].identity != t[j].identity {
      if i >= |b| {
        assert s[i - |b| + |a|] == t[i] && s[j - |b| + |a|] == t[j];
      } else if j >= |b| {
        assert b[i] in a;
        var k :| 0 <= k < |a| && a[k] == b[i];
        assert s[k] == t[i] && s[j - |b| + |a|] == t[j];
      }
    }
  }

  /** Building the payload keeps every item and adds exactly the additions. */
  lemma AdditiveContents(base: seq<Item>, additions: seq<Item>)
    requires AdditivePayload(base, additions).Some?
    ensures var r := AdditivePayload(base, additions).value;
            && SameItems(r, base + additions) && Ordered(r) && Supported(r)
  {
    hide Less, SortKey;
    SortIsOrdered(base + additions);
    var r := AdditivePayload(base, additions).value;
    forall i | 0 <= i < |r| ensures r[i].kind != UnsupportedItem {
      assert r[i] in base + additions;
    }
  }
}
