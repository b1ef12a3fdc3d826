/** An independent reference: tries as trees, their node encodings, and lookup.
    The proof walk accepts exactly what lookup finds. */
module ReferenceTrie {
  import opened ByteStrings
  import opened Rlp
  import opened Trie

  datatype Tree =
    | Nil
    | Leaf(path: Nibbles, value: Bytes)
    | Extension(path: Nibbles, child: Tree)
    | Branch(children: seq<Tree>, value: Bytes)

  ghost predicate WellFormed(t: Tree) {
    match t
    case Nil => true
    case Leaf(_, _) => true
    case Extension(_, child) => WellFormed(child)
    case Branch(children, _) =>
      |children| == 16 && forall i :: 0 <= i < 16 ==> WellFormed(children[i])
  }

  /** The value stored under a path; a branch without a value stores the empty string. */
  function Find(t: Tree, path: Nibbles): Option<Bytes>
    decreases t
  {
    match t
    case Nil => None
    case Leaf(segment, value) => if segment == path then Some(value) else None
    case Extension(segment, child) => if segment <= path then Find(child, path[|segment|..]) else None
    case Branch(children, value) =>
      if path == [] then Some(value)
      else if path[0] < |children| then Find(children[path[0]], path[1..])
      else None
  }

  /** Lookup as a map: the empty string means that nothing is stored. */
  function Lookup(t: Tree, path: Nibbles): Option<Bytes> {
    if Find(t, path) == Some([]) then None else Find(t, path)
  }

  // Node encodings.

  function NodeValue(keccak: Hash, t: Tree): (v: Value)
    ensures v.raw == Encode(v)
    decreases t, 0
  {
    match t
    case Nil => StrOf([])
    case Leaf(path, value) => ListOf([StrOf(CompactPath(path, true)), StrOf(value)])
    case Extension(path, child) => ListOf([StrOf(CompactPath(path, false)), Slot(keccak, child)])
    case Branch(children, value) => ListOf(Slots(keccak, children) + [StrOf(value)])
  }

  /** How a parent holds a child: empty, embedded below 32 bytes, hashed from there on. */
  function Slot(keccak: Hash, t: Tree): Value
    decreases t, 1
  {
    if t.Nil? then StrOf([])
    else
      var node := NodeValue(keccak, t);
      if |node.raw| < 32 then node else StrOf(keccak(node.raw))
  }

  function Slots(keccak: Hash, children: seq<Tree>): (slots: seq<Value>)
    ensures |slots| == |children|
    ensures forall i :: 0 <= i < |children| ==> slots[i] == Slot(keccak, children[i])
    decreases children, 2
  {
    if children == [] then [] else [Slot(keccak, children[0])] + Slots(keccak, children[1..])
  }

  function Span(keccak: Hash, t: Tree): Bytes {
    NodeValue(keccak, t).raw
  }

  function Root(keccak: Hash, t: Tree): Bytes32 {
    keccak(Span(keccak, t))
  }

  /** The node-by-node path to a key, embedded nodes included. */
  function ProofPath(keccak: Hash, t: Tree, path: Nibbles): seq<Bytes>
    decreases t
  {
    match t
    case Nil => []
    case Leaf(_, _) => [Span(keccak, t)]
    case Extension(segment, child) =>
      [Span(keccak, t)] + if segment <= path then ProofPath(keccak, child, path[|segment|..]) else []
    case Branch(children, _) =>
      [Span(keccak, t)] +
      if path != [] && path[0] < |children| then ProofPath(keccak, children[path[0]], path[1..]) else []
  }

  // Every node span is a decodable encoding.

  /** A short encoding is automatically within the nesting and item bounds. */
  lemma {:induction false} ShortIsBounded(v: Value, depth: nat)
    requires Consistent(v) && |v.raw| + depth <= MAX_RLP_DEPTH + 1
    ensures Bounded(v, depth)
    decreases v
  {
    if v.List? {
      forall i | 0 <= i < |v.list|
        ensures Bounded(v.list[i], depth + 1)
      {
        ItemSmaller(v.list, i);
        ShortIsBounded(v.list[i], depth + 1);
      }
      if v.list != [] {
        ItemSmaller(v.list, 0);
      }
    }
  }

  lemma {:induction false} SlotIsBounded(keccak: Hash, t: Tree)
    requires WellFormed(t)
    ensures Bounded(Slot(keccak, t), 1)
    decreases t, 1
  {
    if !t.Nil? {
      NodeIsBounded(keccak, t);
      var node := NodeValue(keccak, t);
      if |node.raw| < 32 {
        ShortIsBounded(node, 1);
      }
    }
  }

  lemma {:induction false} NodeIsBounded(keccak: Hash, t: Tree)
    requires WellFormed(t)
    ensures Bounded(NodeValue(keccak, t), 0)
    decreases t, 0
  {
    match t
    case Nil =>
    case Leaf(path, value) =>
      BoundedList([StrOf(CompactPath(path, true)), StrOf(value)], 0);
    case Extension(path, child) =>
      SlotIsBounded(keccak, child);
      BoundedList([StrOf(CompactPath(path, false)), Slot(keccak, child)], 0);
    case Branch(children, value) =>
      forall i | 0 <= i < |children|
        ensures Bounded(Slot(keccak, children[i]), 1)
      {
        SlotIsBounded(keccak, children[i]);
      }
      BoundedList(Slots(keccak, children) + [StrOf(value)], 0);
  }

  lemma SpanDecodes(keccak: Hash, t: Tree)
    requires WellFormed(t) && |Span(keccak, t)| <= MAX_INT
    ensures DecodeWhole(Span(keccak, t)) == Some(NodeValue(keccak, t))
  {
    NodeIsBounded(keccak, t);
    DecodeComplete(NodeValue(keccak, t), Span(keccak, t), 0);
  }

  /** A child slot yields a reference exactly when there is a child, and that
      reference matches the child's span. */
  lemma SlotReference(keccak: Hash, t: Tree)
    ensures t.Nil? ==> Reference(Slot(keccak, t)).None?
    ensures !t.Nil? ==>
              var r := Reference(Slot(keccak, t));
              r.Some? && Refers(keccak, r.value, t)
  {
  }

  /** `reference` is a reference to node `t`. */
  ghost predicate Refers(keccak: Hash, reference: Bytes, t: Tree) {
    var span := Span(keccak, t);
    reference == keccak(span) || (|span| < 32 && reference == span)
  }

  // One step of the walk mirrors one step of lookup.

  datatype TreeStep = Found(value: Option<Bytes>) | Down(child: Tree, path: Nibbles)

  function StepIn(t: Tree, path: Nibbles): TreeStep
    requires WellFormed(t)
  {
    match t
    case Nil => Found(None)
    case Leaf(segment, value) => Found(if segment == path then Some(value) else None)
    case Extension(segment, child) => if segment <= path then Down(child, path[|segment|..]) else Found(None)
    case Branch(children, value) => if path == [] then Found(Some(value)) else Down(children[path[0]], path[1..])
  }

  lemma NodeStepMirrorsTree(keccak: Hash, t: Tree, path: Nibbles, expected: Bytes, last: bool)
    requires WellFormed(t) && !t.Nil?
    ensures var step := NodeStep(NodeValue(keccak, t), path, expected, last);
            match StepIn(t, path)
            case Found(value) => step == Done(last && value == Some(expected))
            case Down(child, rest) =>
              if child.Nil? then step == Done(false)
              else step.Descend? && step.path == rest && Refers(keccak, step.reference, child)
  {
    match t
    case Leaf(segment, _) =>
      CompactPathBijection(CompactPath(segment, true), segment, true);
      assert segment <= path && |segment| == |path| ==> segment == path;
    case Extension(segment, child) =>
      CompactPathBijection(CompactPath(segment, false), segment, false);
      SlotReference(keccak, child);
    case Branch(children, _) =>
      if path != [] {
        SlotReference(keccak, children[path[0]]);
      }
  }

  // Soundness.

  /** The spans of all nodes of a trie. */
  ghost function Spans(keccak: Hash, t: Tree): (spans: set<Bytes>)
    ensures Span(keccak, t) in spans
    decreases t, 0
  {
    {Span(keccak, t)} +
    match t
    case Nil => {}
    case Leaf(_, _) => {}
    case Extension(_, child) => Spans(keccak, child)
    case Branch(children, _) => AllSpans(keccak, children)
  }

  ghost function AllSpans(keccak: Hash, children: seq<Tree>): (spans: set<Bytes>)
    ensures forall i :: 0 <= i < |children| ==> Spans(keccak, children[i]) <= spans
    decreases children, 1
  {
    if children == [] then {} else Spans(keccak, children[0]) + AllSpans(keccak, children[1..])
  }

  /** No proof node has the digest of a different node of the trie. */
  ghost predicate NoCollision(keccak: Hash, spans: set<Bytes>, proof: seq<Bytes>) {
    forall p, s :: p in proof && s in spans ==> !Collides(keccak, p, s)
  }

  /** The step the walk takes at a proof node that is compared with a reference to `t`. */
  lemma StepAtNode(
      keccak: Hash, t: Tree, reference: Bytes, path: Nibbles, expected: Bytes, encoded: Bytes, last: bool)
    requires WellFormed(t) && !t.Nil? && Refers(keccak, reference, t)
    requires |encoded| <= MAX_INT && !Collides(keccak, encoded, Span(keccak, t))
    ensures var step := StepAt(keccak, reference, path, expected, encoded, last);
            if encoded != Span(keccak, t) then step == Done(false)
            else
              match StepIn(t, path)
              case Found(value) => step == Done(last && value == Some(expected))
              case Down(child, rest) =>
                if child.Nil? then step == Done(false)
                else step.Descend? && step.path == rest && Refers(keccak, step.reference, child)
  {
    if encoded == Span(keccak, t) {
      SpanDecodes(keccak, t);
      NodeStepMirrorsTree(keccak, t, path, expected, last);
    }
  }

  lemma PathDown(keccak: Hash, t: Tree, path: Nibbles)
    requires WellFormed(t) && StepIn(t, path).Down?
    ensures var Down(child, rest) := StepIn(t, path);
            && WellFormed(child)
            && Spans(keccak, child) <= Spans(keccak, t)
            && Find(t, path) == Find(child, rest)
            && ProofPath(keccak, t, path) == [Span(keccak, t)] + ProofPath(keccak, child, rest)
  {
  }

  ghost predicate NodesFit(proof: seq<Bytes>) {
    forall i :: 0 <= i < |proof| ==> |proof[i]| <= MAX_INT
  }

  lemma {:induction false} WalkSound(
      keccak: Hash, t: Tree, reference: Bytes, path: Nibbles, expected: Bytes, proof: seq<Bytes>)
    requires WellFormed(t) && !t.Nil? && Refers(keccak, reference, t)
    requires NodesFit(proof) && NoCollision(keccak, Spans(keccak, t), proof)
    requires Walk(keccak, reference, path, expected, proof)
    ensures Find(t, path) == Some(expected)
    ensures proof == ProofPath(keccak, t, path)
    decreases |proof|, 1
  {
    StepAtNode(keccak, t, reference, path, expected, proof[0], |proof| == 1);
    if StepIn(t, path).Found? {
      assert proof == [proof[0]];
    } else {
      var step := StepAt(keccak, reference, path, expected, proof[0], |proof| == 1);
      WalkSoundBelow(keccak, t, step.reference, path, expected, proof);
    }
  }

  lemma {:induction false} WalkSoundBelow(
      keccak: Hash, t: Tree, reference: Bytes, path: Nibbles, expected: Bytes, proof: seq<Bytes>)
    requires WellFormed(t) && StepIn(t, path).Down? && !StepIn(t, path).child.Nil?
    requires Refers(keccak, reference, StepIn(t, path).child)
    requires proof != [] && proof[0] == Span(keccak, t)
    requires NodesFit(proof) && NoCollision(keccak, Spans(keccak, t), proof)
    requires Walk(keccak, reference, StepIn(t, path).path, expected, proof[1..])
    ensures Find(t, path) == Some(expected)
    ensures proof == ProofPath(keccak, t, path)
    decreases |proof|, 0
  {
    var Down(child, rest) := StepIn(t, path);
    PathDown(keccak, t, path);
    WalkSound(keccak, child, reference, rest, expected, proof[1..]);
    assert proof == [proof[0]] + proof[1..];
  }

  // Completeness.

  lemma {:induction false} WalkComplete(keccak: Hash, t: Tree, reference: Bytes, path: Nibbles, expected: Bytes)
    requires WellFormed(t) && !t.Nil? && Refers(keccak, reference, t)
    requires NodesFit(ProofPath(keccak, t, path))
    requires Find(t, path) == Some(expected)
    ensures Walk(keccak, reference, path, expected, ProofPath(keccak, t, path))
    decreases t
  {
    var proof := ProofPath(keccak, t, path);
    StepAtNode(keccak, t, reference, path, expected, proof[0], |proof| == 1);
    match StepIn(t, path)
    case Found(_) =>
    case Down(child, rest) =>
      var step := StepAt(keccak, reference, path, expected, proof[0], |proof| == 1);
      assert proof[1..] == ProofPath(keccak, child, rest);
      WalkComplete(keccak, child, step.reference, rest, expected);
  }

  /** Soundness of acceptance: an accepted proof under a trie's root is the
      node-by-node path of that trie, and the accepted value is what is stored. */
  lemma InclusionSound(keccak: Hash, t: Tree, key: Bytes, expected: Bytes, proof: seq<Bytes>)
    requires WellFormed(t) && !t.Nil? && NoCollision(keccak, Spans(keccak, t), proof)
    requires Included(keccak, Root(keccak, t), key, expected, proof)
    ensures Find(t, ToNibbles(key)) == Some(expected)
    ensures expected != [] ==> Lookup(t, ToNibbles(key)) == Some(expected)
    ensures proof == ProofPath(keccak, t, ToNibbles(key))
  {
    WalkSound(keccak, t, Root(keccak, t), ToNibbles(key), expected, proof);
  }

  /** Completeness: within the size limits the node-by-node path is accepted for
      exactly the stored value. */
  lemma InclusionExact(keccak: Hash, t: Tree, key: Bytes, expected: Bytes)
    requires WellFormed(t) && !t.Nil?
    requires ValidProofSize(ProofPath(keccak, t, ToNibbles(key)))
    requires NoCollision(keccak, Spans(keccak, t), ProofPath(keccak, t, ToNibbles(key)))
    ensures Included(keccak, Root(keccak, t), key, expected, ProofPath(keccak, t, ToNibbles(key)))
            <==> Find(t, ToNibbles(key)) == Some(expected)
  {
    var path := ToNibbles(key);
    var proof := ProofPath(keccak, t, path);
    if Included(keccak, Root(keccak, t), key, expected, proof) {
      WalkSound(keccak, t, Root(keccak, t), path, expected, proof);
    }
    if Find(t, path) == Some(expected) {
      WalkComplete(keccak, t, Root(keccak, t), path, expected);
    }
  }

  /** Acceptance agrees with lookup-as-a-map exactly for non-empty values: the
      walk also accepts the empty string for a key that ends at a branch without
      a value, where nothing is stored. */
  lemma EmptyValueIsAccepted(keccak: Hash, children: seq<Tree>)
    requires WellFormed(Branch(children, []))
    requires ValidProofSize([Span(keccak, Branch(children, []))])
    ensures var t := Branch(children, []);
            && Included(keccak, Root(keccak, t), [], [], [Span(keccak, t)])
            && Lookup(t, ToNibbles([])) == None
  {
    var t := Branch(children, []);
    assert ProofPath(keccak, t, []) == [Span(keccak, t)];
    WalkComplete(keccak, t, Root(keccak, t), [], []);
  }

  // The single-leaf builders.

  /** The leaf node both fixture builders make for a whole key. */
  function LeafNode(key: Bytes, value: Bytes): Bytes {
    EncodeList(EncodeBytes(CompactPath(ToNibbles(key), true)) + EncodeBytes(value))
  }

  lemma LeafNodeIsSpan(keccak: Hash, key: Bytes, value: Bytes)
    ensures LeafNode(key, value) == Span(keccak, Leaf(ToNibbles(key), value))
  {
    var a, b := StrOf(CompactPath(ToNibbles(key), true)), StrOf(value);
    assert [a, b] == [a] + [b];
    EncodeItemsCons(a, [b]);
    assert [b] == [b] + [];
    EncodeItemsCons(b, []);
    assert Encode(b) + [] == Encode(b);
  }

  /** Every single-leaf proof is accepted under the hash of its leaf. */
  lemma SingleLeafAccepted(keccak: Hash, key: Bytes, value: Bytes)
    requires |LeafNode(key, value)| <= MAX_PROOF_NODE_BYTES
    ensures Included(keccak, keccak(LeafNode(key, value)), key, value, [LeafNode(key, value)])
  {
    var t := Leaf(ToNibbles(key), value);
    LeafNodeIsSpan(keccak, key, value);
    assert TotalLength([LeafNode(key, value)]) == |LeafNode(key, value)| + TotalLength([]) by {
      assert [LeafNode(key, value)][1..] == [];
    }
    WalkComplete(keccak, t, Root(keccak, t), ToNibbles(key), value);
  }

  method TrieLeaf(key: Bytes, value: Bytes) returns (r: Bytes)
    requires |LeafNode(key, value)| <= MAX_INT
    ensures r == LeafNode(key, value)
  {
    var nibbles := BytesToNibbles(key);
    if |nibbles| % 2 == 1 {
      nibbles := [3] + nibbles;
    } else {
      nibbles := [2, 0] + nibbles;
    }
    assert nibbles == Flagged(ToNibbles(key), true);
    var compact := PackPairs(nibbles);
    var first := RlpBytes(compact);
    var second := RlpBytes(value);
    ConcatTwo(first, second);
    r := RlpList([first, second]);
  }

  method PackPairs(nibbles: Nibbles) returns (compact: Bytes)
    requires |nibbles| % 2 == 0
    ensures compact == Pack(nibbles)
  {
    compact := [];
    var index := 0;
    while index < |nibbles| / 2
      invariant 0 <= index <= |nibbles| / 2
      invariant compact + Pack(nibbles[2 * index..]) == Pack(nibbles)
    {
      assert nibbles[2 * index..][2..] == nibbles[2 * (index + 1)..];
      compact := compact + [(nibbles[2 * index] as int) * 16 + nibbles[2 * index + 1] as int];
      index := index + 1;
    }
    assert nibbles[2 * index..] == [];
  }
}
