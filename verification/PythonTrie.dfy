/** The release checker's proof walk, and its agreement with the service's. */
module PythonTrie {
  import opened ByteStrings
  import opened Rlp
  import opened Trie
  import opened PythonRlp

  predicate PyMatches(keccak: Hash, reference: Bytes, encodedNode: Bytes) {
    !(   (|reference| == 32 && keccak(encodedNode) != reference)
      || (|reference| < 32 && encodedNode != reference))
  }

  /** A slice that is cut short at the end of the key. */
  function Clipped(path: Nibbles, n: nat): Nibbles {
    if n <= |path| then path[..n] else path
  }

  function PyNodeStep(node: Value, path: Nibbles, expected: Bytes, last: bool): Step {
    if !node.List? then
      Done(false)
    else if |node.list| == 17 then
      if path == [] then
        Done(last && node.list[16].Str? && node.list[16].payload == expected)
      else
        var child := Reference(node.list[path[0]]);
        if child.None? then Done(false) else Descend(child.value, path[1..])
    else if |node.list| == 2 then
      if node.list[0].List? || DecodeCompactPath(node.list[0].payload).None? then
        Done(false)
      else
        var (segment, leaf) := DecodeCompactPath(node.list[0].payload).value;
        if Clipped(path, |segment|) != segment then
          Done(false)
        else if leaf then
          Done(path[|segment|..] == [] && last && node.list[1].Str? && node.list[1].payload == expected)
        else
          var child := Reference(node.list[1]);
          if child.None? then Done(false) else Descend(child.value, path[|segment|..])
    else
      Done(false)
  }

  lemma NodeStepsAgree(node: Value, path: Nibbles, expected: Bytes, last: bool)
    ensures PyNodeStep(node, path, expected, last) == NodeStep(node, path, expected, last)
  {
  }

  function PyStepAt(keccak: Hash, reference: Bytes, path: Nibbles, expected: Bytes, encoded: Bytes, last: bool): Step {
    if !PyMatches(keccak, reference, encoded) then
      Done(false)
    else
      match DecodeFront(encoded, 0)
      case None => Done(false)
      case Some((node, consumed)) =>
        if consumed != |encoded| then Done(false) else PyNodeStep(node, path, expected, last)
  }

  predicate PyWalk(keccak: Hash, reference: Bytes, path: Nibbles, expected: Bytes, proof: seq<Bytes>)
    decreases |proof|
  {
    if proof == [] then
      false
    else
      match PyStepAt(keccak, reference, path, expected, proof[0], |proof| == 1)
      case Done(accepted) => accepted
      case Descend(child, rest) => PyWalk(keccak, child, rest, expected, proof[1..])
  }

  predicate PyIncluded(keccak: Hash, root: Bytes, key: Bytes, expected: Bytes, proof: seq<Bytes>) {
    |root| == 32 && ValidProofSize(proof) && PyWalk(keccak, root, ToNibbles(key), expected, proof)
  }

  /** Some value has this string as its whole encoding and breaks the item limit. */
  ghost predicate Oversized(encoded: Bytes) {
    DecodeFront(encoded, 0).Some? && !ItemBounded(DecodeFront(encoded, 0).value.0)
  }

  lemma StepsAgree(keccak: Hash, reference: Bytes, path: Nibbles, expected: Bytes, encoded: Bytes, last: bool)
    requires 0 < |reference| <= 32 && |encoded| <= MAX_INT
    ensures Oversized(encoded) ==> StepAt(keccak, reference, path, expected, encoded, last) == Done(false)
    ensures !Oversized(encoded) ==>
              StepAt(keccak, reference, path, expected, encoded, last)
              == PyStepAt(keccak, reference, path, expected, encoded, last)
  {
    if Decode(encoded, 0).Some? {
      var (v, n) := Decode(encoded, 0).value;
      DecodersAgree(encoded, v, n);
      NodeStepsAgree(v, path, expected, last);
    } else if DecodeFront(encoded, 0).Some? {
      var (v, n) := DecodeFront(encoded, 0).value;
      DecodersAgree(encoded, v, n);
    }
  }

  /** A reference the walk descends to is one to thirty-two bytes long. */
  lemma DescendReference(
      keccak: Hash, reference: Bytes, path: Nibbles, expected: Bytes, encoded: Bytes, last: bool)
    ensures var step := StepAt(keccak, reference, path, expected, encoded, last);
            step.Descend? ==> 0 < |step.reference| <= 32
  {
    DecodeSound(encoded, 0);
    if Decode(encoded, 0).Some? {
      var v := Decode(encoded, 0).value.0;
      if v.List? {
        forall i | 0 <= i < |v.list|
          ensures |v.list[i].raw| >= 1
        {
          assert Consistent(v.list[i]);
        }
      }
    }
  }

  lemma {:induction false} WalksAgree(
      keccak: Hash, reference: Bytes, path: Nibbles, expected: Bytes, proof: seq<Bytes>)
    requires 0 < |reference| <= 32
    requires forall i :: 0 <= i < |proof| ==> |proof[i]| <= MAX_INT
    ensures Walk(keccak, reference, path, expected, proof)
            <==> PyWalk(keccak, reference, path, expected, proof)
                 && forall i :: 0 <= i < |proof| ==> !Oversized(proof[i])
    decreases |proof|
  {
    if proof != [] {
      StepsAgree(keccak, reference, path, expected, proof[0], |proof| == 1);
      DescendReference(keccak, reference, path, expected, proof[0], |proof| == 1);
      if !Oversized(proof[0]) {
        var step := StepAt(keccak, reference, path, expected, proof[0], |proof| == 1);
        if step.Descend? {
          WalksAgree(keccak, step.reference, step.path, expected, proof[1..]);
          assert (forall i :: 0 <= i < |proof| ==> !Oversized(proof[i]))
                 <==> (forall i :: 0 <= i < |proof[1..]| ==> !Oversized(proof[1..][i])) by {
            assert proof == [proof[0]] + proof[1..];
          }
        } else if step.accepted {
          assert |proof| == 1;
        }
      }
    }
  }

  /** The two verifiers differ only on the item limit: the service accepts a
      proof exactly when the checker does and no node holds an oversized list. */
  lemma VerifiersAgree(keccak: Hash, root: Bytes, key: Bytes, expected: Bytes, proof: seq<Bytes>)
    ensures Included(keccak, root, key, expected, proof)
            <==> PyIncluded(keccak, root, key, expected, proof)
                 && forall i :: 0 <= i < |proof| ==> !Oversized(proof[i])
  {
    if |root| == 32 && ValidProofSize(proof) {
      WalksAgree(keccak, root, ToNibbles(key), expected, proof);
    }
  }
}
