/** The files of a checkout and the final comparison of the validator: listed sources, the
    latest revision of every contract, and the import closures they were reviewed with. */
module Checkouts {
  import opened ByteStrings
  import opened Checkpoints
  import opened CheckpointSources
  import opened DependencyClosure

  /** A file: the hash of its bytes and the files its imports resolve to. */
  datatype SourceFile = SourceFile(hash: Bytes, imports: seq<string>)

  type Checkout = map<string, SourceFile>

  function Hashes(tree: Checkout): map<string, Bytes> {
    map path | path in tree :: tree[path].hash
  }

  /** The listed sources that the checkout holds. */
  function Sources(w: World, tree: Checkout): (sources: map<string, Bytes>)
    ensures forall path :: path in sources <==> path in tree && path in w.baseline.sources
    ensures forall path :: path in sources ==> sources[path] == tree[path].hash
  {
    map path | path in tree && path in w.baseline.sources :: tree[path].hash
  }

  /** The files under the source roots. */
  function RootPaths(w: World, tree: Checkout): set<string> {
    set path | path in tree && w.inRoots(path)
  }

  function SourcePath(w: World, contract: string): string {
    if contract in w.baseline.contracts then w.baseline.contracts[contract].sourcePath else ""
  }

  // Import closures.

  function ImportGraph(tree: Checkout): Repository {
    map path | path in tree :: tree[path].imports
  }

  /** The files that a file reaches by imports, with their hashes; none if one is missing. */
  ghost function Dependencies(tree: Checkout, root: string): Option<map<string, Bytes>> {
    if Complete(ImportGraph(tree), root)
    then Some(map path | path in tree && Reaches(ImportGraph(tree), root, path) :: tree[path].hash)
    else None
  }

  method DependencyHashes(tree: Checkout, root: string) returns (r: Option<map<string, Bytes>>)
    ensures r == Dependencies(tree, root)
  {
    hide Reaches;
    var paths := DependencyPaths(ImportGraph(tree), root);
    if paths.None? {
      return None;
    }
    var hashes := map path | path in paths.value :: tree[path].hash;
    assert Dependencies(tree, root).value == hashes;
    return Some(hashes);
  }

  lemma ClosureHoldsRoot(tree: Checkout, root: string)
    requires Dependencies(tree, root).Some?
    ensures root in tree && root in Dependencies(tree, root).value
    ensures Dependencies(tree, root).value[root] == tree[root].hash
  {
    hide Reaches;
    ReachesSelf(ImportGraph(tree), root);
  }

  /** Equal bytes at one path resolve their imports alike. */
  predicate SameImports(before: Checkout, after: Checkout) {
    forall path :: path in before && path in after && before[path].hash == after[path].hash ==>
      before[path].imports == after[path].imports
  }

  /** A file that the root reached is gone or has other bytes. */
  ghost predicate ClosureChanged(before: Checkout, after: Checkout, root: string) {
    exists path :: path in before && Reaches(ImportGraph(before), root, path)
                   && (path !in after || after[path].hash != before[path].hash)
  }

  /** Every file reached in one graph has the same imports in the other. */
  ghost predicate Mirrors(files: Repository, others: Repository, root: string) {
    forall path :: Reaches(files, root, path) ==>
      path in files && path in others && files[path] == others[path]
  }

  lemma {:induction false} PathMirrors(files: Repository, others: Repository, root: string, path: seq<string>)
    requires Mirrors(files, others, root) && path != [] && path[0] == root
    requires IsPath(files, path) || IsPath(others, path)
    ensures IsPath(files, path) && IsPath(others, path)
    ensures Reaches(files, root, path[|path| - 1])
    decreases |path|
  {
    hide Reaches;
    if |path| == 1 {
      ReachesSelf(files, root);
    } else {
      var init, n := path[..|path| - 1], |path| - 1;
      assert IsPath(files, path) ==> IsPath(files, init);
      assert IsPath(others, path) ==> IsPath(others, init);
      PathMirrors(files, others, root, init);
      var last := init[|init| - 1];
      assert last == path[n - 1];
      assert Imports(files, last, path[n]) && Imports(others, last, path[n]);
      ReachesImport(files, root, last, path[n]);
    }
  }

  lemma MirrorReaches(files: Repository, others: Repository, root: string, target: string)
    requires Mirrors(files, others, root)
    ensures Reaches(files, root, target) <==> Reaches(others, root, target)
  {
    if Reaches(files, root, target) {
      var path :| IsPath(files, path) && path[0] == root && path[|path| - 1] == target;
      PathMirrors(files, others, root, path);
    }
    if Reaches(others, root, target) {
      var path :| IsPath(others, path) && path[0] == root && path[|path| - 1] == target;
      PathMirrors(files, others, root, path);
    }
  }

  /** A closure stays the same exactly when none of its files changed. */
  lemma ClosureStays(before: Checkout, after: Checkout, root: string)
    requires Dependencies(before, root).Some? && SameImports(before, after)
    ensures Dependencies(after, root) == Dependencies(before, root) <==> !ClosureChanged(before, after, root)
  {
    hide Reaches;
    var a, b := ImportGraph(before), ImportGraph(after);
    if Dependencies(after, root) == Dependencies(before, root) {
      forall path | path in before && Reaches(a, root, path)
        ensures path in after && after[path].hash == before[path].hash
      {
        assert path in Dependencies(before, root).value;
      }
    }
    if !ClosureChanged(before, after, root) {
      assert Mirrors(a, b, root);
      forall path ensures Reaches(a, root, path) <==> Reaches(b, root, path) {
        MirrorReaches(a, b, root, path);
      }
      assert Dependencies(after, root).value == Dependencies(before, root).value;
    }
  }

  // The comparison.

  /** The hash expected of each revised file: later contracts of the enumeration win. */
  function ImplementedPaths(w: World, f: Fold, names: seq<string>): map<string, Bytes>
    decreases |names|
  {
    if names == [] then map[]
    else
      var last := names[|names| - 1];
      var before := ImplementedPaths(w, f, names[..|names| - 1]);
      if last in w.baseline.contracts && last in f.latest
      then before[w.baseline.contracts[last].sourcePath := f.latest[last].sourceHash]
      else before
  }

  function ExpectedHash(w: World, implemented: map<string, Bytes>, path: string): Bytes
    requires path in w.baseline.sources
  {
    if path in implemented then implemented[path] else w.baseline.sources[path]
  }

  /** The file of the contract is its latest revision. */
  predicate HoldsLatest(w: World, f: Fold, files: map<string, Bytes>, contract: string) {
    contract in f.latest ==>
      var path := SourcePath(w, contract);
      path in files && files[path] == f.latest[contract].sourceHash
  }

  /** The import closure of the contract hashes to what its latest revision names. */
  ghost predicate HoldsClosure(w: World, f: Fold, tree: Checkout, contract: string) {
    contract in f.latest ==>
      var closure := Dependencies(tree, SourcePath(w, contract));
      closure.Some? && w.closureHash(closure.value) == f.latest[contract].closureHash
  }

  /** The comparison of the checkout, with `names` the revised contracts in some order. */
  ghost predicate CurrentOk(w: World, f: Fold, names: seq<string>, tree: Checkout) {
    && RootPaths(w, tree) == w.baseline.sources.Keys
    && (forall path :: path in w.baseline.sources ==>
          path in tree && tree[path].hash == ExpectedHash(w, ImplementedPaths(w, f, names), path))
    && w.sourceSetHash(Sources(w, tree)) == w.sourceSetHash(f.sources)
    && (forall c :: c in names ==> HoldsLatest(w, f, Hashes(tree), c) && HoldsClosure(w, f, tree, c))
    && w.snapshotsFrozen(Hashes(tree))
  }

  /** The listed files and no other are under the source roots, and the snapshots are frozen. */
  predicate InPlace(w: World, tree: Checkout) {
    RootPaths(w, tree) == w.baseline.sources.Keys && w.snapshotsFrozen(Hashes(tree))
  }

  method BuildImplementedPaths(w: World, f: Fold, names: seq<string>) returns (implemented: map<string, Bytes>)
    ensures implemented == ImplementedPaths(w, f, names)
  {
    implemented := map[];
    for i := 0 to |names|
      invariant implemented == ImplementedPaths(w, f, names[..i])
    {
      var name := names[i];
      assert names[..i + 1][..i] == names[..i] && names[..i + 1][i] == name;
      if name in w.baseline.contracts && name in f.latest {
        implemented := implemented[w.baseline.contracts[name].sourcePath := f.latest[name].sourceHash];
      }
    }
    assert names[..|names|] == names;
  }

  method CheckLatest(w: World, f: Fold, tree: Checkout, contract: string) returns (ok: bool)
    ensures ok <==> HoldsLatest(w, f, Hashes(tree), contract) && HoldsClosure(w, f, tree, contract)
  {
    hide Dependencies;
    if contract !in f.latest {
      return true;
    }
    var path := SourcePath(w, contract);
    if path !in tree || tree[path].hash != f.latest[contract].sourceHash {
      return false;
    }
    var closure := DependencyHashes(tree, path);
    return closure.Some? && w.closureHash(closure.value) == f.latest[contract].closureHash;
  }

  method CheckCurrent(w: World, f: Fold, names: seq<string>, order: seq<string>, tree: Checkout) returns (ok: bool)
    requires forall path :: path in order <==> path in w.baseline.sources
    ensures ok <==> CurrentOk(w, f, names, tree)
  {
    hide HoldsLatest, HoldsClosure, ExpectedHash, ImplementedPaths, Hashes;
    if RootPaths(w, tree) != w.baseline.sources.Keys {
      return false;
    }
    var implemented := BuildImplementedPaths(w, f, names);
    for i := 0 to |order|
      invariant forall j :: 0 <= j < i ==>
                  order[j] in tree && tree[order[j]].hash == ExpectedHash(w, implemented, order[j])
    {
      assert order[i] in order;
      if order[i] !in tree || tree[order[i]].hash != ExpectedHash(w, implemented, order[i]) {
        return false;
      }
    }
    if w.sourceSetHash(Sources(w, tree)) != w.sourceSetHash(f.sources) {
      return false;
    }
    for i := 0 to |names|
      invariant forall j :: 0 <= j < i ==>
                  HoldsLatest(w, f, Hashes(tree), names[j]) && HoldsClosure(w, f, tree, names[j])
    {
      var latest := CheckLatest(w, f, tree, names[i]);
      if !latest {
        assert names[i] in names;
        return false;
      }
    }
    return w.snapshotsFrozen(Hashes(tree));
  }

  // When a checkout passes.

  lemma {:induction false} ImplementedAt(w: World, f: Fold, names: seq<string>, path: string)
    ensures path in ImplementedPaths(w, f, names) ==>
              exists c :: c in names && c in f.latest && LivesAt(w, c, path)
                          && ImplementedPaths(w, f, names)[path] == f.latest[c].sourceHash
    ensures path !in ImplementedPaths(w, f, names) ==>
              forall c :: c in names && c in f.latest ==> !LivesAt(w, c, path)
    decreases |names|
  {
    if names != [] {
      var init, last := names[..|names| - 1], names[|names| - 1];
      assert names == init + [last];
      ImplementedAt(w, f, init, path);
      if last in f.latest && LivesAt(w, last, path) {
        assert last in names;
      }
    }
  }

  /** Each revised contract's file still holds its latest revision, as the registry has it. */
  predicate Unshadowed(w: World, f: Fold) {
    forall c :: c in f.latest ==> HoldsLatest(w, f, f.sources, c)
  }

  ghost predicate AllClosuresHold(w: World, f: Fold, tree: Checkout) {
    forall c :: c in f.latest ==> HoldsClosure(w, f, tree, c)
  }

  ghost predicate Enumerates(names: seq<string>, f: Fold) {
    forall c :: c in names <==> c in f.latest
  }

  lemma PassingFile(w: World, packages: seq<Package>, names: seq<string>, tree: Checkout, path: string)
    requires FoldPackages(w, packages).Some? && Enumerates(names, FoldPackages(w, packages).value)
    requires CurrentOk(w, FoldPackages(w, packages).value, names, tree) && path in w.baseline.sources
    ensures path in FoldPackages(w, packages).value.sources
    ensures path in tree && tree[path].hash == FoldPackages(w, packages).value.sources[path]
  {
    hide FoldPackages, AllRevisions, ImplementedPaths, HoldsClosure;
    var f := FoldPackages(w, packages).value;
    SourceAt(w, packages, path);
    ImplementedAt(w, f, names, path);
    match LastAt(w, AllRevisions(packages), path)
    case Some(r) => assert HoldsLatest(w, f, Hashes(tree), r.contract);
    case None =>
  }

  lemma UnshadowedPasses(w: World, packages: seq<Package>, names: seq<string>, path: string)
    requires FoldPackages(w, packages).Some? && Enumerates(names, FoldPackages(w, packages).value)
    requires Unshadowed(w, FoldPackages(w, packages).value) && path in w.baseline.sources
    ensures var f := FoldPackages(w, packages).value;
            path in f.sources && f.sources[path] == ExpectedHash(w, ImplementedPaths(w, f, names), path)
  {
    hide FoldPackages, AllRevisions, ImplementedPaths;
    var f := FoldPackages(w, packages).value;
    SourceAt(w, packages, path);
    ImplementedAt(w, f, names, path);
    if path in ImplementedPaths(w, f, names) {
      var c :| c in names && c in f.latest && LivesAt(w, c, path)
               && ImplementedPaths(w, f, names)[path] == f.latest[c].sourceHash;
      assert HoldsLatest(w, f, f.sources, c);
    }
  }

  lemma LatestInSources(w: World, packages: seq<Package>, tree: Checkout, contract: string)
    requires FoldPackages(w, packages).Some? && Sources(w, tree) == FoldPackages(w, packages).value.sources
    ensures var f := FoldPackages(w, packages).value;
            HoldsLatest(w, f, Hashes(tree), contract) <==> HoldsLatest(w, f, f.sources, contract)
  {
    hide FoldPackages;
    var f := FoldPackages(w, packages).value;
    if contract in f.latest {
      RevisedLives(w, packages, contract);
    }
  }

  /** The comparison in its parts: the order in which the revised contracts are enumerated
      does not matter. */
  lemma CurrentParts(w: World, packages: seq<Package>, names: seq<string>, tree: Checkout)
    requires FoldPackages(w, packages).Some? && Enumerates(names, FoldPackages(w, packages).value)
    ensures var f := FoldPackages(w, packages).value;
            CurrentOk(w, f, names, tree) <==>
            && InPlace(w, tree) && Sources(w, tree) == f.sources && Unshadowed(w, f) && AllClosuresHold(w, f, tree)
  {
    hide FoldPackages, HoldsLatest, HoldsClosure, ExpectedHash, ImplementedPaths, Hashes;
    var f := FoldPackages(w, packages).value;
    SourceKeys(w, packages);
    if CurrentOk(w, f, names, tree) {
      forall path | path in w.baseline.sources ensures path in f.sources && path in tree && tree[path].hash == f.sources[path] {
        PassingFile(w, packages, names, tree, path);
      }
      assert Sources(w, tree) == f.sources;
      forall c | c in f.latest ensures HoldsLatest(w, f, f.sources, c) {
        LatestInSources(w, packages, tree, c);
      }
    }
    if InPlace(w, tree) && Sources(w, tree) == f.sources && Unshadowed(w, f) {
      forall path | path in w.baseline.sources
        ensures path in tree && tree[path].hash == ExpectedHash(w, ImplementedPaths(w, f, names), path)
      {
        UnshadowedPasses(w, packages, names, path);
        assert path in Sources(w, tree);
      }
      forall c | c in f.latest ensures HoldsLatest(w, f, Hashes(tree), c) {
        LatestInSources(w, packages, tree, c);
      }
    }
  }

  /** `at` is the checkout from which the latest revision of each contract was taken. */
  ghost predicate TakenFrom(w: World, f: Fold, at: map<string, Checkout>) {
    forall c :: c in f.latest ==> c in at && HoldsClosure(w, f, at[c], c)
  }

  predicate Clash(w: World, a: map<string, Bytes>, b: map<string, Bytes>) {
    a != b && w.closureHash(a) == w.closureHash(b)
  }

  /** The closure is what it was, or the hash cannot tell. */
  ghost predicate ClosureKept(w: World, before: Checkout, after: Checkout, root: string) {
    var a, b := Dependencies(before, root), Dependencies(after, root);
    a.Some? && b.Some? && (a == b || Clash(w, a.value, b.value))
  }

  /** A checkout passes exactly when it has the listed files and no other, its snapshots are the
      frozen ones, the files are the ones the registry arrives at, no latest revision has been overwritten by one of another
      contract, and the import closure of every revised contract, files outside the listed
      ones included, is the one its latest revision was taken with. */
  lemma CurrentIsExact(
      w: World, packages: seq<Package>, names: seq<string>, at: map<string, Checkout>, tree: Checkout)
    requires FoldPackages(w, packages).Some? && Enumerates(names, FoldPackages(w, packages).value)
    requires TakenFrom(w, FoldPackages(w, packages).value, at)
    ensures var f := FoldPackages(w, packages).value;
            CurrentOk(w, f, names, tree) <==>
            && InPlace(w, tree) && Sources(w, tree) == f.sources && Unshadowed(w, f)
            && forall c :: c in f.latest ==> ClosureKept(w, at[c], tree, SourcePath(w, c))
  {
    hide FoldPackages, CurrentOk, Unshadowed, Dependencies, InPlace, Sources;
    var f := FoldPackages(w, packages).value;
    CurrentParts(w, packages, names, tree);
    forall c | c in f.latest
      ensures HoldsClosure(w, f, tree, c) <==> ClosureKept(w, at[c], tree, SourcePath(w, c))
    {
      assert HoldsClosure(w, f, at[c], c);
    }
  }

  /** A helper that any revised contract imports, listed or not, cannot change alone. */
  lemma HelperChangeIsRefused(
      w: World, packages: seq<Package>, names: seq<string>, at: map<string, Checkout>, tree: Checkout, contract: string,
      helper: string)
    requires FoldPackages(w, packages).Some? && Enumerates(names, FoldPackages(w, packages).value)
    requires TakenFrom(w, FoldPackages(w, packages).value, at) && contract in FoldPackages(w, packages).value.latest
    requires helper in at[contract] && Reaches(ImportGraph(at[contract]), SourcePath(w, contract), helper)
    requires helper in tree ==> tree[helper].hash != at[contract][helper].hash
    ensures CurrentOk(w, FoldPackages(w, packages).value, names, tree) ==>
              var root := SourcePath(w, contract);
              && Dependencies(tree, root).Some? && Dependencies(at[contract], root).Some?
              && Clash(w, Dependencies(at[contract], root).value, Dependencies(tree, root).value)
  {
    hide FoldPackages, CurrentOk, Unshadowed, Reaches, InPlace, Sources;
    CurrentIsExact(w, packages, names, at, tree);
    var root := SourcePath(w, contract);
    assert HoldsClosure(w, FoldPackages(w, packages).value, at[contract], contract);
    assert helper in Dependencies(at[contract], root).value;
    if CurrentOk(w, FoldPackages(w, packages).value, names, tree) {
      assert ClosureKept(w, at[contract], tree, root);
    }
  }

  /** Contracts that do not share files are never overwritten. */
  lemma UniquePathsUnshadowed(w: World, packages: seq<Package>)
    requires FoldPackages(w, packages).Some? && UniquePaths(w)
    ensures Unshadowed(w, FoldPackages(w, packages).value)
  {
    hide FoldPackages, UniquePaths;
    var f := FoldPackages(w, packages).value;
    forall c | c in f.latest ensures HoldsLatest(w, f, f.sources, c) {
      RevisedLives(w, packages, c);
      EffectiveSources(w, packages, c);
    }
  }
}
