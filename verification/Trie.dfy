/** The Merkle-Patricia proof walk (Ethereum Yellow Paper, Appendices C and D)
    against a reference trie of leaves, extensions and branches. */
module Trie {
  import opened ByteStrings
  import opened Rlp

  const MAX_PROOF_NODE_BYTES: nat := 0x10_0000

  const MAX_PROOF_NODES: nat := 64

  const MAX_PROOF_BYTES: nat := 0x80_0000

  type Nibble = n: int | 0 <= n < 16

  type Nibbles = seq<Nibble>

  function ToNibbles(b: Bytes): (n: Nibbles)
    ensures |n| == 2 * |b|
  {
    if b == [] then [] else [b[0] / 16, b[0] % 16] + ToNibbles(b[1..])
  }

  // Hex-prefix paths.

  function DecodeCompactPath(encoded: Bytes): Option<(Nibbles, bool)> {
    var nibbles := ToNibbles(encoded);
    if nibbles == [] || nibbles[0] > 3 then
      None
    else
      var leaf := nibbles[0] >= 2;
      if nibbles[0] % 2 == 1 then
        Some((nibbles[1..], leaf))
      else if |nibbles| < 2 || nibbles[1] != 0 then
        None
      else
        Some((nibbles[2..], leaf))
  }

  function Pack(nibbles: Nibbles): (b: Bytes)
    requires |nibbles| % 2 == 0
    ensures |b| == |nibbles| / 2
  {
    if nibbles == [] then [] else [(nibbles[0] as int) * 16 + nibbles[1] as int] + Pack(nibbles[2..])
  }

  /** The nibbles of a path with its terminator flag and parity in front. */
  function Flagged(path: Nibbles, leaf: bool): (n: Nibbles)
    ensures |n| % 2 == 0
  {
    var flag := if leaf then 2 else 0;
    if |path| % 2 == 1 then [flag + 1] + path else [flag, 0] + path
  }

  function CompactPath(path: Nibbles, leaf: bool): Bytes {
    Pack(Flagged(path, leaf))
  }

  lemma {:induction false} PackRoundTrip(nibbles: Nibbles)
    requires |nibbles| % 2 == 0
    ensures ToNibbles(Pack(nibbles)) == nibbles
  {
    if nibbles != [] {
      PackRoundTrip(nibbles[2..]);
      var b := Pack(nibbles);
      assert b[1..] == Pack(nibbles[2..]);
      assert nibbles == [nibbles[0], nibbles[1]] + nibbles[2..];
    }
  }

  lemma {:induction false} NibblesRoundTrip(b: Bytes)
    ensures Pack(ToNibbles(b)) == b
  {
    if b != [] {
      NibblesRoundTrip(b[1..]);
      var n := ToNibbles(b);
      assert n[2..] == ToNibbles(b[1..]);
      assert b == [b[0]] + b[1..];
    }
  }

  /** Hex-prefix encoding is a bijection between flagged paths and byte strings
      that the decoder accepts. */
  lemma CompactPathBijection(encoded: Bytes, path: Nibbles, leaf: bool)
    ensures DecodeCompactPath(encoded) == Some((path, leaf)) <==> encoded == CompactPath(path, leaf)
  {
    PackRoundTrip(Flagged(path, leaf));
    if encoded == CompactPath(path, leaf) {
      var n := Flagged(path, leaf);
      if |path| % 2 == 1 {
        assert n[1..] == path;
      } else {
        assert n[2..] == path;
      }
    }
    if DecodeCompactPath(encoded) == Some((path, leaf)) {
      NibblesRoundTrip(encoded);
      var n := ToNibbles(encoded);
      assert |n| % 2 == 0;
      if n[0] % 2 == 1 {
        assert n == [n[0]] + path;
      } else {
        assert n == [n[0], n[1]] + path;
      }
      assert n == Flagged(path, leaf);
    }
  }

  // The walk.

  predicate ValidProofSize(proof: seq<Bytes>) {
    && 0 < |proof| <= MAX_PROOF_NODES
    && (forall i :: 0 <= i < |proof| ==> 0 < |proof[i]| <= MAX_PROOF_NODE_BYTES)
    && TotalLength(proof) <= MAX_PROOF_BYTES
  }

  predicate Matches(keccak: Hash, reference: Bytes, encodedNode: Bytes) {
    if |reference| == 32 then keccak(encodedNode) == reference
    else 0 < |reference| < 32 && reference == encodedNode
  }

  /** The reference a child slot holds: an embedded list, or a 32-byte hash. */
  function Reference(value: Value): Option<Bytes> {
    match value
    case List(raw, _) => if |raw| >= 32 then None else Some(raw)
    case Str(_, payload) => if |payload| != 32 then None else Some(payload)
  }

  datatype Step = Done(accepted: bool) | Descend(reference: Bytes, path: Nibbles)

  /** What one decoded node says about the rest of the key. */
  function NodeStep(node: Value, path: Nibbles, expected: Bytes, last: bool): Step {
    if !node.List? then
      Done(false)
    else if |node.list| == 17 then
      if path == [] then
        Done(last && node.list[16].Str? && node.list[16].payload == expected)
      else
        match Reference(node.list[path[0]])
        case None => Done(false)
        case Some(child) => Descend(child, path[1..])
    else if |node.list| == 2 then
      if !node.list[0].Str? then
        Done(false)
      else
        match DecodeCompactPath(node.list[0].payload)
        case None => Done(false)
        case Some((segment, leaf)) =>
          if !(segment <= path) then
            Done(false)
          else if leaf then
            Done(|segment| == |path| && last && node.list[1].Str? && node.list[1].payload == expected)
          else
            match Reference(node.list[1])
            case None => Done(false)
            case Some(child) => Descend(child, path[|segment|..])
    else
      Done(false)
  }

  /** A proof node that decodes completely. */
  function DecodeWhole(encoded: Bytes): Option<Value> {
    match Decode(encoded, 0)
    case None => None
    case Some((node, consumed)) => if consumed != |encoded| then None else Some(node)
  }

  function StepAt(keccak: Hash, reference: Bytes, path: Nibbles, expected: Bytes, encoded: Bytes, last: bool): Step {
    if !Matches(keccak, reference, encoded) then
      Done(false)
    else
      match DecodeWhole(encoded)
      case None => Done(false)
      case Some(node) => NodeStep(node, path, expected, last)
  }

  predicate Walk(keccak: Hash, reference: Bytes, path: Nibbles, expected: Bytes, proof: seq<Bytes>)
    decreases |proof|
  {
    if proof == [] then
      false
    else
      match StepAt(keccak, reference, path, expected, proof[0], |proof| == 1)
      case Done(accepted) => accepted
      case Descend(child, rest) => Walk(keccak, child, rest, expected, proof[1..])
  }

  predicate Included(keccak: Hash, root: Bytes, key: Bytes, expected: Bytes, proof: seq<Bytes>) {
    |root| == 32 && ValidProofSize(proof) && Walk(keccak, root, ToNibbles(key), expected, proof)
  }

  method CheckProofSize(proof: seq<Bytes>) returns (ok: bool)
    ensures ok == ValidProofSize(proof)
  {
    if |proof| == 0 || |proof| > MAX_PROOF_NODES {
      return false;
    }
    var total := 0;
    for i := 0 to |proof|
      invariant total + TotalLength(proof[i..]) == TotalLength(proof)
      invariant total <= MAX_PROOF_BYTES
      invariant forall j :: 0 <= j < i ==> 0 < |proof[j]| <= MAX_PROOF_NODE_BYTES
    {
      if |proof[i]| == 0 || |proof[i]| > MAX_PROOF_NODE_BYTES {
        return false;
      }
      assert proof[i..][1..] == proof[i + 1..];
      total := total + |proof[i]|;
      if total > MAX_PROOF_BYTES {
        return false;
      }
    }
    return true;
  }

  method BytesToNibbles(value: Bytes) returns (result: Nibbles)
    ensures result == ToNibbles(value)
  {
    result := [];
    for i := 0 to |value|
      invariant result + ToNibbles(value[i..]) == ToNibbles(value)
    {
      assert value[i..][1..] == value[i + 1..];
      result := result + [value[i] / 16, value[i] % 16];
    }
  }

  method VerifyTrieInclusion(keccak: Hash, root: Bytes, key: Bytes, expected: Bytes, proof: seq<Bytes>)
    returns (ok: bool)
    ensures ok == Included(keccak, root, key, expected, proof)
  {
    var sized := CheckProofSize(proof);
    if |root| != 32 || !sized {
      return false;
    }
    var keyNibbles := BytesToNibbles(key);
    var reference: Bytes, position := root, 0;
    assert keyNibbles[0..] == keyNibbles && proof[0..] == proof;
    var index := 0;
    while index < |proof|
      invariant 0 <= index <= |proof| && 0 <= position <= |keyNibbles|
      invariant Walk(keccak, root, keyNibbles, expected, proof)
             == Walk(keccak, reference, keyNibbles[position..], expected, proof[index..])
    {
      var step := WalkNode(keccak, reference, keyNibbles, position, expected, proof[index], index == |proof| - 1);
      assert proof[index..][1..] == proof[index + 1..];
      match step {
        case Done(accepted) =>
          return accepted;
        case Descend(child, rest) =>
          position := |keyNibbles| - |rest|;
          reference := child;
      }
      index := index + 1;
    }
    return false;
  }

  /** One turn of the loop, with the key addressed by position. */
  method WalkNode(
    keccak: Hash, reference: Bytes, keyNibbles: Nibbles, position: nat, expected: Bytes, encoded: Bytes, last: bool)
    returns (step: Step)
    requires position <= |keyNibbles|
    ensures step == StepAt(keccak, reference, keyNibbles[position..], expected, encoded, last)
    ensures step.Descend? ==>
              && |step.path| <= |keyNibbles|
              && step.path == keyNibbles[|keyNibbles| - |step.path|..]
  {
    if !Matches(keccak, reference, encoded) {
      return Done(false);
    }
    var decoded := DecodeRlpDepth(encoded, 0);
    if decoded.None? || decoded.value.1 != |encoded| {
      return Done(false);
    }
    var node := decoded.value.0;
    if !node.List? {
      return Done(false);
    }
    ghost var path := keyNibbles[position..];
    if |node.list| == 17 {
      if position == |keyNibbles| {
        var value := node.list[16];
        return Done(last && value.Str? && value.payload == expected);
      }
      var child := Reference(node.list[keyNibbles[position]]);
      if child.None? {
        return Done(false);
      }
      assert path[1..] == keyNibbles[position + 1..];
      return Descend(child.value, keyNibbles[position + 1..]);
    }
    if |node.list| != 2 || !node.list[0].Str? {
      return Done(false);
    }
    var decodedPath := DecodeCompactPath(node.list[0].payload);
    if decodedPath.None? {
      return Done(false);
    }
    var (segment, leaf) := decodedPath.value;
    if |keyNibbles| - position < |segment| || keyNibbles[position..position + |segment|] != segment {
      assert |segment| <= |path| ==> path[..|segment|] == keyNibbles[position..position + |segment|];
      return Done(false);
    }
    assert path[..|segment|] == keyNibbles[position..position + |segment|];
    if leaf {
      var value := node.list[1];
      return Done(position + |segment| == |keyNibbles| && last && value.Str? && value.payload == expected);
    }
    var child := Reference(node.list[1]);
    if child.None? {
      return Done(false);
    }
    assert path[|segment|..] == keyNibbles[position + |segment|..];
    return Descend(child.value, keyNibbles[position + |segment|..]);
  }

  // Proofs are determined by what they start with.

  /** Of two accepted proofs for one reference and key, neither properly extends the other. */
  lemma {:induction false} AcceptedPrefixIsWhole(
      keccak: Hash, reference: Bytes, path: Nibbles, e1: Bytes, p1: seq<Bytes>, e2: Bytes, p2: seq<Bytes>)
    requires Walk(keccak, reference, path, e1, p1)
    requires Walk(keccak, reference, path, e2, p2)
    requires p1 <= p2
    ensures p1 == p2 && e1 == e2
    decreases |p1|
  {
    assert p1[0] == p2[0];
    var s1 := StepAt(keccak, reference, path, e1, p1[0], |p1| == 1);
    if s1.Descend? {
      assert p1[1..] <= p2[1..];
      AcceptedPrefixIsWhole(keccak, s1.reference, s1.path, e1, p1[1..], e2, p2[1..]);
      assert p1 == [p1[0]] + p1[1..] && p2 == [p2[0]] + p2[1..];
    } else {
      assert |p1| == 1 && |p2| == 1;
    }
  }
}
