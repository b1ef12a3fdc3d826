/** Small registries that show why the conditions of the validator and of the final
    comparison are needed. Two contracts, A and B, and three packages: A, B, A. */
module CheckpointWitnesses {
  import opened ByteStrings
  import opened AbiItems
  import opened Checkpoints
  import opened CheckpointSources
  import opened DependencyClosure
  import opened CheckpointGenerator
  import opened Checkouts
  import opened CandidatePackage

  type ClosureHash = map<string, Bytes> -> Bytes

  function Activating(contract: string): Definition {
    Definition(map[contract := []], map[])
  }

  /** A lives at one path and B at another, or at the same one. */
  function Pair(pathA: string, pathB: string, closureHash: ClosureHash): World {
    World(
      ["first", "second", "third"],
      map["first" := Activating("A"), "second" := Activating("B"), "third" := Activating("A")],
      Baseline(["A", "B"], map["A" := Contract(pathA, [], {}), "B" := Contract(pathB, [], {})],
               map[pathA := [0], pathB := [0]]),
      (path: string) => path == pathA || path == pathB, (hashes: map<string, Bytes>) => true,
      (items: seq<Item>) => [], (sources: map<string, Bytes>) => [], closureHash,
      (id: string, r: Revision) => true, (p: Package) => true)
  }

  function Revised(contract: string, number: int, supersedes: Option<Origin>, hash: Bytes, closure: Bytes): Revision {
    Revision(contract, number, supersedes, [], [], hash, [], closure)
  }

  lemma NamesDiffer()
    ensures "A" != "B" && "first" != "second" && "second" != "third" && "first" != "third"
  {
    assert "A"[0] != "B"[0] && "first"[0] != "second"[0] && "second"[0] != "third"[0] && "first"[0] != "third"[0];
  }

  lemma SelectOne(contract: string)
    requires contract in {"A", "B"}
    ensures Select(["A", "B"], {contract}) == [contract]
  {
    NamesDiffer();
    assert ["A", "B"][1..] == ["B"] && ["B"][1..] == [];
    assert Select(["B"], {contract}) == if contract == "B" then ["B"] else [];
  }

  lemma {:induction false} SelectAll(order: seq<string>, wanted: set<string>)
    requires forall i :: 0 <= i < |order| ==> order[i] in wanted
    ensures Select(order, wanted) == order
    decreases |order|
  {
    if order != [] {
      SelectAll(order[1..], wanted);
    }
  }

  /** The registry after one more package with one revision. */
  function Extended(f: Fold, id: string, r: Revision, path: string): Fold {
    Fold(f.latest[r.contract := r], f.origins[r.contract := Origin(id, r.revision)],
         f.sources[path := r.sourceHash], f.abis[r.contract := []], f.observed + [id])
  }

  lemma AdvanceOne(w: World, f: Fold, id: string, r: Revision)
    requires id in w.table && r.contract in w.baseline.contracts
    requires ExpectedAbi(f, w.table[id], r.contract) == Some([])
    ensures Advance(w, f, Package(id, [r])) == Extended(f, id, r, SourcePath(w, r.contract))
  {
    hide ExpectedAbi;
    assert [r][..0] == [];
    assert RecordLatest(f.latest, [r]) == f.latest[r.contract := r];
    assert RecordOrigins(f.origins, id, [r]) == f.origins[r.contract := Origin(id, r.revision)];
    assert Overlay(w, f.sources, [r]) == f.sources[SourcePath(w, r.contract) := r.sourceHash];
    assert RecordAbis(f, w.table[id], [r]) == f.abis[r.contract := []];
  }

  ghost predicate IsPair(w: World) {
    w == Pair(SourcePath(w, "A"), SourcePath(w, "B"), w.closureHash)
  }

  lemma PairIsPair(pathA: string, pathB: string, closureHash: ClosureHash)
    ensures IsPair(Pair(pathA, pathB, closureHash))
    ensures SourcePath(Pair(pathA, pathB, closureHash), "A") == pathA
    ensures SourcePath(Pair(pathA, pathB, closureHash), "B") == pathB
  {
    NamesDiffer();
  }

  lemma PairFacts(w: World, id: string, contract: string)
    requires IsPair(w) && id in w.table && w.table[id] == Activating(contract) && contract in {"A", "B"}
    ensures w.table[id].contracts == map[contract := []] && w.table[id].additions == map[]
    ensures Eligible(w, w.table[id], contract)
    ensures Select(w.baseline.order, w.table[id].contracts.Keys) == [contract]
  {
    SelectOne(contract);
    assert w.table[id].contracts.Keys == {contract};
  }

  /** One package with one revision that activates nothing and adds nothing to an empty ABI. */
  lemma SingleStep(w: World, f: Fold, id: string, r: Revision)
    requires IsPair(w) && id in w.table && id !in f.observed && w.table[id] == Activating(r.contract)
    requires r.contract in {"A", "B"} && r.activated == [] && r.abiHash == [] && r.sourceSetHash == []
    requires r.revision == ExpectedRevision(f, r.contract) && r.supersedes == ExpectedSupersedes(f, r.contract)
    requires r.contract in f.latest ==> f.latest[r.contract].activated == []
    requires r.contract in f.abis && f.abis[r.contract] == []
    requires SourcePath(w, r.contract) in f.sources && f.sources[SourcePath(w, r.contract)] != r.sourceHash
    ensures PackageOk(w, f, Package(id, [r]))
    ensures Advance(w, f, Package(id, [r])) == Extended(f, id, r, SourcePath(w, r.contract))
  {
    hide Select, Advance, Activating, Overlay;
    PairFacts(w, id, r.contract);
    assert AdditivePayload([], []) == Some([]);
    assert ContractsOf([r]) == [r.contract];
    assert RevisionOk(w, f, id, w.table[id], r);
    AdvanceOne(w, f, id, r);
  }

  // The three packages.

  function First(closure: Bytes): Package {
    Package("first", [Revised("A", 1, None, [1], closure)])
  }

  function Second(closure: Bytes): Package {
    Package("second", [Revised("B", 1, None, [2], closure)])
  }

  function Third(closure: Bytes): Package {
    Package("third", [Revised("A", 2, Some(Origin("first", 1)), [3], closure)])
  }

  function AfterFirst(w: World, a: Bytes): Fold {
    Extended(InitialFold(w), "first", First(a).revisions[0], SourcePath(w, "A"))
  }

  function AfterSecond(w: World, a: Bytes, b: Bytes): Fold {
    Extended(AfterFirst(w, a), "second", Second(b).revisions[0], SourcePath(w, "B"))
  }

  function AfterThird(w: World, a: Bytes, b: Bytes, c: Bytes): Fold {
    Extended(AfterSecond(w, a, b), "third", Third(c).revisions[0], SourcePath(w, "A"))
  }

  lemma FoldsFirst(w: World, a: Bytes)
    requires IsPair(w)
    ensures FoldPackages(w, [First(a)]) == Some(AfterFirst(w, a))
  {
    hide PackageOk, Advance;
    NamesDiffer();
    SingleStep(w, InitialFold(w), "first", First(a).revisions[0]);
    FoldSnoc(w, [], InitialFold(w), First(a));
    assert [] + [First(a)] == [First(a)];
  }

  lemma FoldsSecond(w: World, a: Bytes, b: Bytes)
    requires IsPair(w)
    ensures FoldPackages(w, [First(a), Second(b)]) == Some(AfterSecond(w, a, b))
  {
    hide PackageOk, Advance, FoldPackages;
    NamesDiffer();
    FoldsFirst(w, a);
    SingleStep(w, AfterFirst(w, a), "second", Second(b).revisions[0]);
    FoldSnoc(w, [First(a)], AfterFirst(w, a), Second(b));
    assert [First(a)] + [Second(b)] == [First(a), Second(b)];
  }

  lemma FoldsThird(w: World, a: Bytes, b: Bytes, c: Bytes)
    requires IsPair(w)
    ensures FoldPackages(w, [First(a), Second(b), Third(c)]) == Some(AfterThird(w, a, b, c))
  {
    hide PackageOk, Advance, FoldPackages;
    NamesDiffer();
    FoldsSecond(w, a, b);
    SingleStep(w, AfterSecond(w, a, b), "third", Third(c).revisions[0]);
    FoldSnoc(w, [First(a), Second(b)], AfterSecond(w, a, b), Third(c));
    assert [First(a), Second(b)] + [Third(c)] == [First(a), Second(b), Third(c)];
  }

  lemma InOrder(w: World)
    requires IsPair(w)
    ensures InTableOrder(w, ["first", "second"]) && InTableOrder(w, ["first", "second", "third"])
    ensures !InTableOrder(w, ["second", "first"])
  {
    hide Select;
    NamesDiffer();
    SelectAll(w.tableOrder, Signatures(["first", "second", "third"]));
    SelectTwo();
    assert Signatures(["second", "first"]) == {"first", "second"} == Signatures(["first", "second"]);
  }

  lemma SelectTwo()
    ensures Select(["first", "second", "third"], {"first", "second"}) == ["first", "second"]
  {
    NamesDiffer();
    assert ["first", "second", "third"][1..] == ["second", "third"] && ["second", "third"][1..] == ["third"];
    assert ["third"][1..] == [];
    assert Select(["third"], {"first", "second"}) == [];
    assert Select(["second", "third"], {"first", "second"}) == ["second"];
  }

  // Two contracts in one file.

  const FILE := "Shared.sol"

  /** Two contracts may share a file. Revised as A, B, A, the validator accepts the registry,
      the file holds A's revision and not B's latest, and no checkout can pass. */
  lemma SharedFilesCanShadow(closureHash: ClosureHash, a: Bytes, b: Bytes, c: Bytes, names: seq<string>, tree: Checkout)
    requires Enumerates(names, AfterThird(Pair(FILE, FILE, closureHash), a, b, c))
    ensures var w, registry := Pair(FILE, FILE, closureHash), Registry([First(a), Second(b), Third(c)], []);
            var f := AfterThird(w, a, b, c);
            && ValidateCheckpoints(w, registry) == Some(f)
            && f.sources[FILE] != f.latest["B"].sourceHash
            && !CurrentOk(w, f, names, tree)
  {
    hide FoldPackages, InTableOrder, CurrentOk, AllClosuresHold;
    var w := Pair(FILE, FILE, closureHash);
    NamesDiffer();
    PairIsPair(FILE, FILE, closureHash);
    FoldsThird(w, a, b, c);
    InOrder(w);
    assert AfterThird(w, a, b, c).observed == ["first", "second", "third"];
    assert w.sourceSetHash(AfterThird(w, a, b, c).sources) == [];
    CurrentParts(w, [First(a), Second(b), Third(c)], names, tree);
    assert !HoldsLatest(w, AfterThird(w, a, b, c), AfterThird(w, a, b, c).sources, "B");
  }

  // Packages out of order.

  function AfterSwap(w: World, a: Bytes, b: Bytes): Fold {
    Extended(Extended(InitialFold(w), "second", Second(b).revisions[0], SourcePath(w, "B")),
             "first", First(a).revisions[0], SourcePath(w, "A"))
  }

  /** Each package passes by itself and the validator still refuses them in the wrong order. */
  lemma OutOfOrderIsRefused(closureHash: ClosureHash, a: Bytes, b: Bytes)
    ensures var w, packages := Pair("A.sol", "B.sol", closureHash), [Second(b), First(a)];
            && FoldPackages(w, packages) == Some(AfterSwap(w, a, b))
            && ValidateCheckpoints(w, Registry(packages, [])) == None
  {
    hide PackageOk, Advance, InTableOrder;
    var w := Pair("A.sol", "B.sol", closureHash);
    NamesDiffer();
    FilesDiffer();
    PairIsPair("A.sol", "B.sol", closureHash);
    InOrder(w);
    var f := Extended(InitialFold(w), "second", Second(b).revisions[0], SourcePath(w, "B"));
    SingleStep(w, InitialFold(w), "second", Second(b).revisions[0]);
    FoldSnoc(w, [], InitialFold(w), Second(b));
    assert [] + [Second(b)] == [Second(b)];
    SingleStep(w, f, "first", First(a).revisions[0]);
    FoldSnoc(w, [Second(b)], f, First(a));
    assert [Second(b)] + [First(a)] == [Second(b), First(a)];
    assert AfterSwap(w, a, b).observed == ["second", "first"];
  }

  lemma FilesDiffer()
    ensures "A.sol" != "B.sol"
  {
    assert "A.sol"[0] != "B.sol"[0];
  }

  // A dependency revised after its importer.

  /** A imports B. */
  function Tree(a: Bytes, b: Bytes): Checkout {
    map["A.sol" := SourceFile(a, ["B.sol"]), "B.sol" := SourceFile(b, [])]
  }

  /** The closure of A as it was reviewed, with B still at the baseline. */
  const REVIEWED: map<string, Bytes> := map["A.sol" := [1], "B.sol" := [0]]

  lemma {:induction false} ImporterReaches(a: Bytes, b: Bytes, path: string)
    ensures Reaches(ImportGraph(Tree(a, b)), "A.sol", path) <==> path in {"A.sol", "B.sol"}
    ensures Reaches(ImportGraph(Tree(a, b)), "B.sol", path) <==> path == "B.sol"
  {
    hide Reaches;
    FilesDiffer();
    var files := ImportGraph(Tree(a, b));
    ReachesSelf(files, "A.sol");
    ReachesSelf(files, "B.sol");
    assert Imports(files, "A.sol", "B.sol");
    ReachesImport(files, "A.sol", "A.sol", "B.sol");
    if Reaches(files, "A.sol", path) {
      ReachedIsObserved(files, {"A.sol", "B.sol"}, "A.sol", path);
    }
    if Reaches(files, "B.sol", path) {
      ReachedIsObserved(files, {"B.sol"}, "B.sol", path);
    }
  }

  lemma TreeClosures(a: Bytes, b: Bytes)
    ensures Dependencies(Tree(a, b), "A.sol") == Some(map["A.sol" := a, "B.sol" := b])
    ensures Dependencies(Tree(a, b), "B.sol") == Some(map["B.sol" := b])
  {
    hide Reaches;
    FilesDiffer();
    forall path
      ensures Reaches(ImportGraph(Tree(a, b)), "A.sol", path) <==> path in {"A.sol", "B.sol"}
      ensures Reaches(ImportGraph(Tree(a, b)), "B.sol", path) <==> path == "B.sol"
    {
      ImporterReaches(a, b, path);
    }
    assert Dependencies(Tree(a, b), "A.sol").value == map["A.sol" := a, "B.sol" := b];
    assert Dependencies(Tree(a, b), "B.sol").value == map["B.sol" := b];
  }

  /** A is revised and reviewed with the old B, and the checkout passes. Then B is revised: the
      generator prepares its package from the checkout, the validator accepts the registry, no
      file is shared, and the checkout has exactly the sources that the registry arrives at. Yet neither it nor any other checkout in which A
      still imports B passes, unless the closure hash collides. */
  lemma LaterDependencyGoesStale(closureHash: ClosureHash, names: seq<string>, tree: Checkout)
    requires var w := Pair("A.sol", "B.sol", closureHash);
             Enumerates(names, AfterSecond(w, closureHash(REVIEWED), closureHash(map["B.sol" := [2]])))
    requires Reaches(ImportGraph(tree), "A.sol", "B.sol")
    ensures var w, a, b := Pair("A.sol", "B.sol", closureHash), closureHash(REVIEWED), closureHash(map["B.sol" := [2]]);
            var f := AfterSecond(w, a, b);
            && CurrentOk(w, AfterFirst(w, a), ["A"], Tree([1], [0]))
            && FoldPackages(w, [First(a)]) == Some(AfterFirst(w, a)) && "second" in w.table
            && Prepared(w, [First(a)], "second", Tree([1], [2]), ["B"]) == Some(Second(b))
            && ValidateCheckpoints(w, Registry([First(a), Second(b)], [])) == Some(f) && UniquePaths(w)
            && InPlace(w, Tree([1], [2])) && Sources(w, Tree([1], [2])) == f.sources
            && Reaches(ImportGraph(Tree([1], [2])), "A.sol", "B.sol")
            && (CurrentOk(w, f, names, tree) ==>
                  Dependencies(tree, "A.sol").Some? && Clash(w, REVIEWED, Dependencies(tree, "A.sol").value))
  {
    hide ValidateCheckpoints, AfterFirst, AfterSecond, CurrentOk, Reaches, Dependencies, Pair, Tree, Prepared, UniquePaths,
      InPlace, Sources;
    SecondArrives(closureHash);
    SecondIsPrepared(closureHash);
    ImporterReaches([1], [2], "B.sol");
    FirstPasses(closureHash);
    StaleClosure(closureHash, names, tree);
  }

  lemma SecondArrives(closureHash: ClosureHash)
    ensures var w, a, b := Pair("A.sol", "B.sol", closureHash), closureHash(REVIEWED), closureHash(map["B.sol" := [2]]);
            && ValidateCheckpoints(w, Registry([First(a), Second(b)], [])) == Some(AfterSecond(w, a, b)) && UniquePaths(w)
            && InPlace(w, Tree([1], [2]))
            && Sources(w, Tree([1], [2])) == AfterSecond(w, a, b).sources
  {
    hide FoldPackages, InTableOrder, InPlace, Sources;
    var w, a, b := Pair("A.sol", "B.sol", closureHash), closureHash(REVIEWED), closureHash(map["B.sol" := [2]]);
    PairIsPair("A.sol", "B.sol", closureHash);
    NamesDiffer();
    FilesDiffer();
    FoldsSecond(w, a, b);
    InOrder(w);
    TreeSources(w, a, b);
    assert AfterSecond(w, a, b).observed == ["first", "second"];
    assert w.sourceSetHash(AfterSecond(w, a, b).sources) == [];
  }

  lemma TreeSources(w: World, a: Bytes, b: Bytes)
    requires w == Pair("A.sol", "B.sol", w.closureHash)
    ensures InPlace(w, Tree([1], [2]))
    ensures Sources(w, Tree([1], [2])) == AfterSecond(w, a, b).sources
  {
    NamesDiffer();
    FilesDiffer();
    PairIsPair("A.sol", "B.sol", w.closureHash);
    assert AfterSecond(w, a, b).sources == map["A.sol" := [1], "B.sol" := [2]];
  }

  lemma SecondAbi(w: World, a: Bytes)
    requires IsPair(w)
    ensures CandidateAbi(w, [First(a)], w.table["second"], "B") == Some([])
  {
    NamesDiffer();
    assert [First(a)][..0] == [];
    assert AdditivePayload([], []) == Some([]);
    assert GeneratedAbi(w, [], "B") == Some([]);
    assert GeneratedAbi(w, [First(a)], "B") == Some([]);
  }

  lemma SingleCandidate(
      w: World, f: Fold, packages: seq<Package>, d: Definition, tree: Checkout, contract: string, r: Revision)
    requires CandidateOf(w, f, packages, d, tree, contract) == Some(r)
    ensures CandidateList(w, f, packages, d, tree, [contract]) == Some([r])
  {
    hide CandidateOf;
    assert [contract][..0] == [];
    assert CandidateList(w, f, packages, d, tree, []) == Some([]);
    assert [] + [r] == [r];
  }

  lemma SecondCandidate(closureHash: ClosureHash)
    ensures var w, a, b := Pair("A.sol", "B.sol", closureHash), closureHash(REVIEWED), closureHash(map["B.sol" := [2]]);
            && "second" in w.table && Covers(w, Tree([1], [2]))
            && CandidateOf(w, AfterFirst(w, a), [First(a)], w.table["second"], Tree([1], [2]), "B")
               == Some(Second(b).revisions[0])
  {
    hide CandidateAbi, Dependencies;
    var w, a := Pair("A.sol", "B.sol", closureHash), closureHash(REVIEWED);
    NamesDiffer();
    FilesDiffer();
    PairIsPair("A.sol", "B.sol", closureHash);
    SecondAbi(w, a);
    TreeClosures([1], [2]);
    PairFacts(w, "second", "B");
  }

  /** The second package is the one that the generator prepares from the checkout. */
  lemma SecondIsPrepared(closureHash: ClosureHash)
    ensures var w, a, b := Pair("A.sol", "B.sol", closureHash), closureHash(REVIEWED), closureHash(map["B.sol" := [2]]);
            && FoldPackages(w, [First(a)]) == Some(AfterFirst(w, a)) && "second" in w.table
            && Prepared(w, [First(a)], "second", Tree([1], [2]), ["B"]) == Some(Second(b))
  {
    hide FoldPackages, CandidateOf, CandidateList, AfterFirst, Pair, Covers, Tree;
    var w, a, b := Pair("A.sol", "B.sol", closureHash), closureHash(REVIEWED), closureHash(map["B.sol" := [2]]);
    PairIsPair("A.sol", "B.sol", closureHash);
    FoldsFirst(w, a);
    SecondCandidate(closureHash);
    SingleCandidate(w, AfterFirst(w, a), [First(a)], w.table["second"], Tree([1], [2]), "B", Second(b).revisions[0]);
  }

  lemma FirstPasses(closureHash: ClosureHash)
    ensures var w := Pair("A.sol", "B.sol", closureHash);
            CurrentOk(w, AfterFirst(w, closureHash(REVIEWED)), ["A"], Tree([1], [0]))
  {
    hide FoldPackages, CurrentOk, Dependencies;
    var w, a := Pair("A.sol", "B.sol", closureHash), closureHash(REVIEWED);
    NamesDiffer();
    FilesDiffer();
    PairIsPair("A.sol", "B.sol", closureHash);
    FoldsFirst(w, a);
    TreeClosures([1], [0]);
    CurrentParts(w, [First(a)], ["A"], Tree([1], [0]));
    assert HoldsClosure(w, AfterFirst(w, a), Tree([1], [0]), "A");
  }

  lemma StaleClosure(closureHash: ClosureHash, names: seq<string>, tree: Checkout)
    requires var w := Pair("A.sol", "B.sol", closureHash);
             Enumerates(names, AfterSecond(w, closureHash(REVIEWED), closureHash(map["B.sol" := [2]])))
    requires Reaches(ImportGraph(tree), "A.sol", "B.sol")
    ensures var w, a, b := Pair("A.sol", "B.sol", closureHash), closureHash(REVIEWED), closureHash(map["B.sol" := [2]]);
            CurrentOk(w, AfterSecond(w, a, b), names, tree) ==>
              Dependencies(tree, "A.sol").Some? && Clash(w, REVIEWED, Dependencies(tree, "A.sol").value)
  {
    hide FoldPackages, CurrentOk, Reaches, Unshadowed;
    var w, a, b := Pair("A.sol", "B.sol", closureHash), closureHash(REVIEWED), closureHash(map["B.sol" := [2]]);
    NamesDiffer();
    FilesDiffer();
    PairIsPair("A.sol", "B.sol", closureHash);
    FoldsSecond(w, a, b);
    CurrentParts(w, [First(a), Second(b)], names, tree);
    var f := AfterSecond(w, a, b);
    if CurrentOk(w, f, names, tree) {
      assert HoldsClosure(w, f, tree, "A");
      assert f.sources["B.sol"] == [2] && Sources(w, tree)["B.sol"] == tree["B.sol"].hash;
      assert Dependencies(tree, "A.sol").value["B.sol"] == [2];
    }
  }
}
