/** The lexicographic order of byte strings, as used to sort identifiers and hashes. */
module ByteOrder {
  import opened ByteStrings

  /** A strictly negative comparison. */
  predicate Less(a: Bytes, b: Bytes) {
    b != [] && (a == [] || a[0] < b[0] || (a[0] == b[0] && Less(a[1..], b[1..])))
  }

  lemma {:induction false} LessIrreflexive(a: Bytes)
    ensures !Less(a, a)
  {
    if a != [] {
      LessIrreflexive(a[1..]);
    }
  }

  lemma {:induction false} LessTransitive(a: Bytes, b: Bytes, c: Bytes)
    requires Less(a, b) && Less(b, c)
    ensures Less(a, c)
  {
    if a != [] && a[0] == b[0] == c[0] {
      LessTransitive(a[1..], b[1..], c[1..]);
    }
  }

  lemma {:induction false} LessTotal(a: Bytes, b: Bytes)
    ensures Less(a, b) || a == b || Less(b, a)
  {
    if a != [] && b != [] && a[0] == b[0] {
      LessTotal(a[1..], b[1..]);
      assert a == [a[0]] + a[1..] && b == [b[0]] + b[1..];
    }
  }

  /** Each element is smaller than the next. */
  predicate Increasing(keys: seq<Bytes>) {
    forall i :: 0 < i < |keys| ==> Less(keys[i - 1], keys[i])
  }

  lemma {:induction false} IncreasingPairs(keys: seq<Bytes>, i: nat, j: nat)
    requires Increasing(keys) && i < j < |keys|
    ensures Less(keys[i], keys[j])
    decreases j
  {
    if i < j - 1 {
      IncreasingPairs(keys, i, j - 1);
      LessTransitive(keys[i], keys[j - 1], keys[j]);
    }
  }

  /** A strictly increasing list repeats nothing. */
  lemma IncreasingIsDistinct(keys: seq<Bytes>)
    requires Increasing(keys)
    ensures forall i, j :: 0 <= i < j < |keys| ==> keys[i] != keys[j]
  {
    forall i, j | 0 <= i < j < |keys| ensures keys[i] != keys[j] {
      IncreasingPairs(keys, i, j);
      LessIrreflexive(keys[j]);
    }
  }

  /** Two increasing lists of the same keys are the same list. */
  lemma {:induction false} IncreasingIsUnique(a: seq<Bytes>, b: seq<Bytes>)
    requires Increasing(a) && Increasing(b)
    requires forall k :: k in a <==> k in b
    ensures a == b
  {
    if a == [] {
      if b != [] {
        HasFirst(b, a);
      }
    } else {
      HasFirst(a, b);
      assert a[0] in b && b[0] in a;
      FirstIsLeast(a, b);
      assert a[0] == b[0];
      TailKeys(a, b);
      TailKeys(b, a);
      IncreasingIsUnique(a[1..], b[1..]);
      assert a == [a[0]] + a[1..] && b == [b[0]] + b[1..];
    }
  }

  lemma HasFirst(a: seq<Bytes>, b: seq<Bytes>)
    requires a != [] && forall k :: k in a ==> k in b
    ensures b != []
  {
    assert a[0] in a;
  }

  lemma FirstIsLeast(a: seq<Bytes>, b: seq<Bytes>)
    requires Increasing(a) && Increasing(b) && a != [] && b != []
    requires a[0] in b && b[0] in a
    ensures a[0] == b[0]
  {
    var i :| 0 <= i < |a| && a[i] == b[0];
    var j :| 0 <= j < |b| && b[j] == a[0];
    if i > 0 && j > 0 {
      IncreasingPairs(a, 0, i);
      IncreasingPairs(b, 0, j);
      LessTransitive(a[0], b[0], a[0]);
      LessIrreflexive(a[0]);
    }
  }

  lemma TailKeys(a: seq<Bytes>, b: seq<Bytes>)
    requires Increasing(a) && a != [] && b != [] && a[0] == b[0]
    requires forall k :: k in a ==> k in b
    ensures forall k :: k in a[1..] ==> k in b[1..]
  {
    IncreasingIsDistinct(a);
    forall k | k in a[1..] ensures k in b[1..] {
      var i :| 0 <= i < |a| - 1 && a[1..][i] == k;
      assert a[i + 1] == k && k != a[0] && k in a;
      assert b == [b[0]] + b[1..];
    }
  }
}
