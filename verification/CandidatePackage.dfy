/** The package that the generator prepares from a checkout, and when the validator accepts
    it and that checkout. */
module CandidatePackage {
  import opened ByteStrings
  import opened AbiItems
  import opened Checkpoints
  import opened CheckpointSources
  import opened CheckpointGenerator
  import opened Checkouts

  /** The revision prepared for one contract: its file, its import closure and the listed
      sources are hashed as they are. */
  ghost function CandidateOf(
    w: World, f: Fold, packages: seq<Package>, d: Definition, tree: Checkout, contract: string)
    : (r: Option<Revision>)
    ensures r.Some? ==> r.value.contract == contract
  {
    if !Eligible(w, d, contract) then None
    else
      var path := SourcePath(w, contract);
      match (CandidateAbi(w, packages, d, contract), Dependencies(tree, path))
      case (Some(abi), Some(closure)) =>
        ClosureHoldsRoot(tree, path);
        Some(Revision(
               contract, CandidateRevision(f, contract), CandidateSupersedes(f, packages, contract),
               d.contracts[contract], w.abiHash(abi), tree[path].hash, w.sourceSetHash(Sources(w, tree)),
               w.closureHash(closure)))
      case _ => None
  }

  /** One revision for each contract, in the order in which the definition lists them. */
  ghost function CandidateList(
    w: World, f: Fold, packages: seq<Package>, d: Definition, tree: Checkout, listed: seq<string>)
    : (r: Option<seq<Revision>>)
    ensures r.Some? ==> |r.value| == |listed|
    decreases |listed|
  {
    if listed == [] then Some([])
    else
      match (CandidateList(w, f, packages, d, tree, listed[..|listed| - 1]),
             CandidateOf(w, f, packages, d, tree, listed[|listed| - 1]))
      case (Some(init), Some(last)) => Some(init + [last])
      case _ => None
  }

  lemma {:induction false} CandidateAt(
      w: World, f: Fold, packages: seq<Package>, d: Definition, tree: Checkout, listed: seq<string>, i: nat)
    requires CandidateList(w, f, packages, d, tree, listed).Some? && i < |listed|
    ensures CandidateOf(w, f, packages, d, tree, listed[i])
            == Some(CandidateList(w, f, packages, d, tree, listed).value[i])
    decreases |listed|
  {
    hide CandidateOf;
    if i < |listed| - 1 {
      CandidateAt(w, f, packages, d, tree, listed[..|listed| - 1], i);
    }
  }

  /** Every listed source is there to be hashed. */
  predicate Covers(w: World, tree: Checkout) {
    w.baseline.sources.Keys <= tree.Keys
  }

  ghost function Candidates(
    w: World, f: Fold, packages: seq<Package>, d: Definition, tree: Checkout, listed: seq<string>)
    : Option<seq<Revision>>
  {
    if Covers(w, tree) then CandidateList(w, f, packages, d, tree, listed) else None
  }

  method BuildCandidate(w: World, f: Fold, packages: seq<Package>, d: Definition, tree: Checkout, contract: string)
    returns (r: Option<Revision>)
    ensures r == CandidateOf(w, f, packages, d, tree, contract)
  {
    hide CandidateAbi, OriginOf, Dependencies;
    if !Eligible(w, d, contract) {
      return None;
    }
    var path := SourcePath(w, contract);
    var abi := GenerateAbi(w, packages, d, contract);
    if abi.None? {
      return None;
    }
    var priorRevision, priorOrigin := 0, None;
    if contract in f.latest {
      priorRevision := f.latest[contract].revision;
      priorOrigin := FindOrigin(packages, f.latest[contract]);
    }
    var closure := DependencyHashes(tree, path);
    if closure.None? {
      return None;
    }
    ClosureHoldsRoot(tree, path);
    return Some(Revision(
                  contract, priorRevision + 1, priorOrigin, d.contracts[contract], w.abiHash(abi.value),
                  tree[path].hash, w.sourceSetHash(Sources(w, tree)), w.closureHash(closure.value)));
  }

  method BuildCandidates(
    w: World, f: Fold, packages: seq<Package>, d: Definition, tree: Checkout, listed: seq<string>)
    returns (r: Option<seq<Revision>>)
    ensures r == Candidates(w, f, packages, d, tree, listed)
  {
    hide CandidateOf;
    if !Covers(w, tree) {
      return None;
    }
    var revisions: seq<Revision> := [];
    for i := 0 to |listed|
      invariant CandidateList(w, f, packages, d, tree, listed[..i]) == Some(revisions)
    {
      assert listed[..i + 1][..i] == listed[..i] && listed[..i + 1][i] == listed[i];
      var revision := BuildCandidate(w, f, packages, d, tree, listed[i]);
      if revision.None? {
        NoCandidates(w, f, packages, d, tree, listed, i);
        return None;
      }
      revisions := revisions + [revision.value];
    }
    assert listed[..|listed|] == listed;
    return Some(revisions);
  }

  lemma NoCandidates(
      w: World, f: Fold, packages: seq<Package>, d: Definition, tree: Checkout, listed: seq<string>, i: nat)
    requires i < |listed| && CandidateOf(w, f, packages, d, tree, listed[i]).None?
    ensures CandidateList(w, f, packages, d, tree, listed).None?
  {
    hide CandidateOf, CandidateList;
    if CandidateList(w, f, packages, d, tree, listed).Some? {
      CandidateAt(w, f, packages, d, tree, listed, i);
    }
  }

  // When the validator accepts the package.

  /** The definition activates mutators of the contract, at least those already active. */
  predicate Extends(w: World, f: Fold, d: Definition, contract: string) {
    && Eligible(w, d, contract)
    && Signatures(d.contracts[contract]) <= w.baseline.contracts[contract].mutators
    && (contract in f.latest ==> Signatures(f.latest[contract].activated) <= Signatures(d.contracts[contract]))
  }

  predicate Changed(f: Fold, tree: Checkout, path: string) {
    path in tree && path in f.sources && tree[path].hash != f.sources[path]
  }

  /** One candidate passes exactly when its definition extends, its file changed and its review holds. */
  lemma CandidateConditions(
      w: World, packages: seq<Package>, id: string, d: Definition, tree: Checkout, contract: string)
    requires FoldPackages(w, packages).Some?
    requires CandidateOf(w, FoldPackages(w, packages).value, packages, d, tree, contract).Some?
    ensures var f := FoldPackages(w, packages).value;
            var r := CandidateOf(w, f, packages, d, tree, contract).value;
            RevisionOk(w, f, id, d, r) <==>
            && Extends(w, f, d, contract) && Changed(f, tree, SourcePath(w, contract))
            && w.reviewedRevision(id, r)
  {
    hide FoldPackages, GeneratedAbi, AdditivePayload, ExpectedRevision, ExpectedSupersedes, CandidateRevision,
      CandidateSupersedes, DistinctItems, Supported, Signatures, Dependencies;
    CandidatesSatisfyValidator(w, packages, d, contract);
    ClosureHoldsRoot(tree, SourcePath(w, contract));
  }

  /** A listed contract lives at the path. */
  predicate ListedAt(w: World, listed: seq<string>, path: string) {
    exists c :: c in listed && LivesAt(w, c, path)
  }

  /** The file of every listed contract changed, and no other listed source did. */
  predicate ChangesListed(w: World, f: Fold, tree: Checkout, listed: seq<string>) {
    && (forall c :: c in listed ==> Changed(f, tree, SourcePath(w, c)))
    && OnlyListed(w, f, tree, listed)
  }

  predicate OnlyListed(w: World, f: Fold, tree: Checkout, listed: seq<string>) {
    forall path :: path in f.sources && Changed(f, tree, path) ==> ListedAt(w, listed, path)
  }

  lemma {:induction false} LastAtListed(w: World, revisions: seq<Revision>, path: string)
    ensures match LastAt(w, revisions, path)
            case Some(r) => r in revisions
            case None => forall i :: 0 <= i < |revisions| ==> !LivesAt(w, revisions[i].contract, path)
    decreases |revisions|
  {
    if revisions != [] {
      LastAtListed(w, revisions[..|revisions| - 1], path);
    }
  }

  /** What the generator wrote for a contract it lists. */
  lemma CandidateFields(
      w: World, f: Fold, packages: seq<Package>, d: Definition, tree: Checkout, listed: seq<string>, i: nat)
    requires Candidates(w, f, packages, d, tree, listed).Some? && i < |listed|
    ensures |Candidates(w, f, packages, d, tree, listed).value| == |listed|
    ensures var r, path := Candidates(w, f, packages, d, tree, listed).value[i], SourcePath(w, listed[i]);
            && CandidateOf(w, f, packages, d, tree, listed[i]) == Some(r)
            && r.contract == listed[i] && Eligible(w, d, listed[i]) && LivesAt(w, listed[i], path)
            && path in tree && r.sourceHash == tree[path].hash && r.sourceSetHash == w.sourceSetHash(Sources(w, tree))
            && Dependencies(tree, path).Some? && r.closureHash == w.closureHash(Dependencies(tree, path).value)
  {
    hide CandidateList, CandidateAbi, Dependencies;
    CandidateAt(w, f, packages, d, tree, listed, i);
    ClosureHoldsRoot(tree, SourcePath(w, listed[i]));
  }

  lemma OverlaidFile(
      w: World, f: Fold, packages: seq<Package>, d: Definition, tree: Checkout, listed: seq<string>, path: string)
    requires Candidates(w, f, packages, d, tree, listed).Some?
    requires f.sources.Keys == w.baseline.sources.Keys
    requires forall c :: c in listed ==> SourcePath(w, c) in f.sources
    ensures var overlaid := Overlay(w, f.sources, Candidates(w, f, packages, d, tree, listed).value);
            && (path in overlaid <==> path in f.sources)
            && (path in f.sources ==>
                  path in tree && overlaid[path] == if ListedAt(w, listed, path) then tree[path].hash else f.sources[path])
  {
    hide CandidateList, CandidateOf, Overlay, LastAt, Dependencies;
    var revisions := Candidates(w, f, packages, d, tree, listed).value;
    OverlayAt(w, f.sources, revisions, path);
    LastAtListed(w, revisions, path);
    match LastAt(w, revisions, path)
    case Some(r) =>
      var i :| 0 <= i < |revisions| && revisions[i] == r;
      CandidateFields(w, f, packages, d, tree, listed, i);
      assert listed[i] in listed && LivesAt(w, listed[i], path);
    case None =>
      forall c | c in listed ensures !LivesAt(w, c, path) {
        var i :| 0 <= i < |listed| && listed[i] == c;
        CandidateFields(w, f, packages, d, tree, listed, i);
      }
  }

  /** The checkout is the overlay of the candidates exactly when nothing else changed. */
  lemma OverlaidCheckout(
      w: World, f: Fold, packages: seq<Package>, d: Definition, tree: Checkout, listed: seq<string>)
    requires Candidates(w, f, packages, d, tree, listed).Some?
    requires f.sources.Keys == w.baseline.sources.Keys
    requires forall c :: c in listed ==> SourcePath(w, c) in f.sources
    ensures Overlay(w, f.sources, Candidates(w, f, packages, d, tree, listed).value) == Sources(w, tree) <==>
            OnlyListed(w, f, tree, listed)
  {
    hide CandidateList, Overlay, ListedAt, SourcePath;
    var overlaid := Overlay(w, f.sources, Candidates(w, f, packages, d, tree, listed).value);
    forall path
      ensures path in overlaid <==> path in f.sources
      ensures path in f.sources ==>
                path in tree && overlaid[path] == if ListedAt(w, listed, path) then tree[path].hash else f.sources[path]
    {
      OverlaidFile(w, f, packages, d, tree, listed, path);
    }
    if OnlyListed(w, f, tree, listed) {
      assert forall path :: path in f.sources ==> overlaid[path] == tree[path].hash;
      assert overlaid == Sources(w, tree);
    } else {
      var path :| path in f.sources && Changed(f, tree, path) && !ListedAt(w, listed, path);
      assert overlaid[path] != Sources(w, tree)[path];
    }
  }

  // The whole package.

  /** The order in which a definition lists its contracts. */
  ghost predicate Lists(listed: seq<string>, d: Definition) {
    NoRepeats(listed) && forall c :: c in listed <==> c in d.contracts
  }

  /** The conditions on the definition: new, additions only to its own contracts, contracts in
      the order of the baseline, activations that extend. */
  predicate DefinitionFits(w: World, f: Fold, id: string, d: Definition, listed: seq<string>) {
    && id !in f.observed && d.additions.Keys <= d.contracts.Keys
    && listed != [] && listed == Select(w.baseline.order, d.contracts.Keys)
    && forall c :: c in listed ==> Extends(w, f, d, c)
  }

  predicate Reviewed(w: World, p: Package) {
    w.reviewedPackage(p) && forall i :: 0 <= i < |p.revisions| ==> w.reviewedRevision(p.checkpointId, p.revisions[i])
  }

  lemma CandidateNames(
      w: World, f: Fold, packages: seq<Package>, d: Definition, tree: Checkout, listed: seq<string>)
    requires Candidates(w, f, packages, d, tree, listed).Some?
    ensures ContractsOf(Candidates(w, f, packages, d, tree, listed).value) == listed
  {
    hide CandidateList, CandidateOf;
    var names := ContractsOf(Candidates(w, f, packages, d, tree, listed).value);
    forall i | 0 <= i < |listed| ensures names[i] == listed[i] {
      CandidateAt(w, f, packages, d, tree, listed, i);
    }
  }

  /** All revisions of the package pass exactly when the definition extends, every listed
      contract's file changed and the reviews hold. */
  lemma AllCandidatesPass(
      w: World, packages: seq<Package>, id: string, d: Definition, tree: Checkout, listed: seq<string>)
    requires FoldPackages(w, packages).Some?
    requires Candidates(w, FoldPackages(w, packages).value, packages, d, tree, listed).Some?
    ensures var f := FoldPackages(w, packages).value;
            var revisions := Candidates(w, f, packages, d, tree, listed).value;
            AllRevisionsOk(w, f, id, d, revisions) <==>
            && (forall c :: c in listed ==> Extends(w, f, d, c) && Changed(f, tree, SourcePath(w, c)))
            && forall i :: 0 <= i < |revisions| ==> w.reviewedRevision(id, revisions[i])
  {
    hide FoldPackages, CandidateList, CandidateOf, RevisionOk, Extends, Changed, SourcePath;
    var f := FoldPackages(w, packages).value;
    var revisions := Candidates(w, f, packages, d, tree, listed).value;
    forall i | 0 <= i < |listed|
      ensures RevisionOk(w, f, id, d, revisions[i]) <==>
              && Extends(w, f, d, listed[i]) && Changed(f, tree, SourcePath(w, listed[i]))
              && w.reviewedRevision(id, revisions[i])
    {
      CandidateAt(w, f, packages, d, tree, listed, i);
      CandidateConditions(w, packages, id, d, tree, listed[i]);
    }
    if AllRevisionsOk(w, f, id, d, revisions) {
      forall c | c in listed ensures Extends(w, f, d, c) && Changed(f, tree, SourcePath(w, c)) {
        var i :| 0 <= i < |listed| && listed[i] == c;
        assert RevisionOk(w, f, id, d, revisions[i]);
      }
    }
  }

  lemma ChangedPathsListed(w: World, f: Fold, tree: Checkout, listed: seq<string>)
    requires forall c :: c in listed ==> Changed(f, tree, SourcePath(w, c))
    ensures forall c :: c in listed ==> SourcePath(w, c) in f.sources
  {
  }

  /** The package generated for the definition from the checkout; without a revision there is
      nothing to record. */
  ghost function Prepared(w: World, packages: seq<Package>, id: string, tree: Checkout, listed: seq<string>)
    : (r: Option<Package>)
    requires FoldPackages(w, packages).Some? && id in w.table
    ensures r.Some? ==> r.value.checkpointId == id
  {
    match Candidates(w, FoldPackages(w, packages).value, packages, w.table[id], tree, listed)
    case None => None
    case Some(revisions) => if listed == [] then None else Some(Package(id, revisions))
  }

  /** The source-set hash tells the checkout from what the package would make of the sources. */
  ghost predicate SetsDiffer(w: World, f: Fold, p: Package, tree: Checkout) {
    w.sourceSetHash(Sources(w, tree)) == w.sourceSetHash(Overlay(w, f.sources, p.revisions)) ==>
      Sources(w, tree) == Overlay(w, f.sources, p.revisions)
  }

  /** The package passes the per-package checks if and only if its definition fits, the
      sources that changed are exactly those of its contracts, and the reviews hold. */
  lemma PackageConditions(w: World, packages: seq<Package>, id: string, tree: Checkout, listed: seq<string>)
    requires FoldPackages(w, packages).Some? && id in w.table && Lists(listed, w.table[id])
    requires Prepared(w, packages, id, tree, listed).Some?
    requires SetsDiffer(w, FoldPackages(w, packages).value, Prepared(w, packages, id, tree, listed).value, tree)
    ensures var f, p := FoldPackages(w, packages).value, Prepared(w, packages, id, tree, listed).value;
            && (PackageOk(w, f, p) <==>
                DefinitionFits(w, f, id, w.table[id], listed) && ChangesListed(w, f, tree, listed) && Reviewed(w, p))
            && (PackageOk(w, f, p) ==> Overlay(w, f.sources, p.revisions) == Sources(w, tree))
  {
    hide FoldPackages, Candidates, AllRevisionsOk, Extends, Changed, OnlyListed, Select, Overlay, SourcePath;
    var f, d := FoldPackages(w, packages).value, w.table[id];
    var p := Prepared(w, packages, id, tree, listed).value;
    CandidateNames(w, f, packages, d, tree, listed);
    SourceKeys(w, packages);
    AllCandidatesPass(w, packages, id, d, tree, listed);
    forall i | 0 <= i < |listed| ensures p.revisions[i].sourceSetHash == w.sourceSetHash(Sources(w, tree)) {
      CandidateFields(w, f, packages, d, tree, listed, i);
    }
    if forall c :: c in listed ==> Changed(f, tree, SourcePath(w, c)) {
      ChangedPathsListed(w, f, tree, listed);
      OverlaidCheckout(w, f, packages, d, tree, listed);
    }
    if PackageOk(w, f, p) {
      assert p.revisions[0].sourceSetHash == w.sourceSetHash(Sources(w, tree));
      assert DefinitionFits(w, f, id, d, listed);
    }
    if DefinitionFits(w, f, id, d, listed) && ChangesListed(w, f, tree, listed) && Reviewed(w, p) {
      assert AllRevisionsOk(w, f, id, d, p.revisions);
    }
  }

  /** The registry with the package appended names the source set of its first revision. */
  function Updated(packages: seq<Package>, p: Package): Registry
    requires p.revisions != []
  {
    Registry(packages + [p], p.revisions[0].sourceSetHash)
  }

  lemma FoldLast(w: World, packages: seq<Package>, p: Package)
    requires FoldPackages(w, packages).Some?
    ensures var f := FoldPackages(w, packages).value;
            FoldPackages(w, packages + [p]) == if PackageOk(w, f, p) then Some(Advance(w, f, p)) else None
  {
    hide PackageOk, Advance;
    assert (packages + [p])[..|packages|] == packages;
  }

  /** The generated package passes the validator if and only if its definition fits, it stands
      in the order of the table, the sources that changed are exactly those of its contracts,
      and the reviews hold; short of a collision of source sets. The registry then arrives at
      the sources of the checkout. */
  lemma CandidateIsAccepted(w: World, packages: seq<Package>, id: string, tree: Checkout, listed: seq<string>)
    requires FoldPackages(w, packages).Some? && id in w.table && Lists(listed, w.table[id])
    requires Prepared(w, packages, id, tree, listed).Some?
    requires SetsDiffer(w, FoldPackages(w, packages).value, Prepared(w, packages, id, tree, listed).value, tree)
    ensures Prepared(w, packages, id, tree, listed).value.revisions != []
    ensures var f, p := FoldPackages(w, packages).value, Prepared(w, packages, id, tree, listed).value;
            var validated := ValidateCheckpoints(w, Updated(packages, p));
            && (validated.Some? <==>
                && DefinitionFits(w, f, id, w.table[id], listed) && InTableOrder(w, f.observed + [id])
                && ChangesListed(w, f, tree, listed) && Reviewed(w, p))
            && (validated.Some? ==> validated.value == Advance(w, f, p) && validated.value.sources == Sources(w, tree))
  {
    hide FoldPackages, Candidates, PackageOk, DefinitionFits, ChangesListed, Reviewed, InTableOrder, Overlay,
      RecordLatest, RecordOrigins, RecordAbis, SetsDiffer;
    var f, p := FoldPackages(w, packages).value, Prepared(w, packages, id, tree, listed).value;
    CandidateFields(w, f, packages, w.table[id], tree, listed, 0);
    PackageConditions(w, packages, id, tree, listed);
    FoldLast(w, packages, p);
  }

  // When the checkout passes as well.

  /** A listed contract has the prepared revision as its latest, any other keeps its own. */
  lemma PreparedLatest(w: World, packages: seq<Package>, id: string, tree: Checkout, listed: seq<string>, contract: string)
    requires FoldPackages(w, packages).Some? && id in w.table
    requires Prepared(w, packages, id, tree, listed).Some?
    ensures var f, p := FoldPackages(w, packages).value, Prepared(w, packages, id, tree, listed).value;
            var latest, path := Advance(w, f, p).latest, SourcePath(w, contract);
            if contract in listed then
              && contract in latest && path in tree && latest[contract].sourceHash == tree[path].hash
              && Dependencies(tree, path).Some?
              && latest[contract].closureHash == w.closureHash(Dependencies(tree, path).value)
            else
              && (contract in latest <==> contract in f.latest)
              && (contract in f.latest ==> latest[contract] == f.latest[contract])
  {
    hide FoldPackages, Candidates, Advance, FindRevision, Dependencies, SourcePath;
    var f, d := FoldPackages(w, packages).value, w.table[id];
    var p := Prepared(w, packages, id, tree, listed).value;
    AdvancedLatest(w, f, p, contract);
    CandidateNames(w, f, packages, d, tree, listed);
    if contract in listed {
      var i :| 0 <= i < |listed| && listed[i] == contract;
      FindExists(p.revisions, i);
    }
    if RevisionOf(p, contract).Some? {
      var r := RevisionOf(p, contract).value;
      var i :| 0 <= i < |p.revisions| && p.revisions[i] == r;
      CandidateFields(w, f, packages, d, tree, listed, i);
    }
  }

  /** Registries built by the generator know the checkout behind every latest revision. */
  lemma PreparedTakenFrom(
      w: World, packages: seq<Package>, id: string, tree: Checkout, listed: seq<string>, at: map<string, Checkout>)
    requires FoldPackages(w, packages).Some? && id in w.table
    requires Prepared(w, packages, id, tree, listed).Some? && TakenFrom(w, FoldPackages(w, packages).value, at)
    ensures var f, p := FoldPackages(w, packages).value, Prepared(w, packages, id, tree, listed).value;
            TakenFrom(w, Advance(w, f, p),
                      map c | c in Advance(w, f, p).latest && (c in listed || c in at) ::
                        if c in listed then tree else at[c])
  {
    hide FoldPackages, Prepared, Advance, Dependencies, SourcePath;
    var f, p := FoldPackages(w, packages).value, Prepared(w, packages, id, tree, listed).value;
    var later := map c | c in Advance(w, f, p).latest && (c in listed || c in at) :: if c in listed then tree else at[c];
    forall c | c in Advance(w, f, p).latest ensures c in later && HoldsClosure(w, Advance(w, f, p), later[c], c) {
      PreparedLatest(w, packages, id, tree, listed, c);
      if c !in listed {
        assert HoldsClosure(w, f, at[c], c);
      }
    }
  }

  /** Every earlier revised contract whose import closure is not what it was is listed too. */
  ghost predicate StaleListed(w: World, f: Fold, before: Checkout, tree: Checkout, listed: seq<string>) {
    forall c :: c in f.latest && Dependencies(tree, SourcePath(w, c)) != Dependencies(before, SourcePath(w, c)) ==>
      c in listed
  }

  /** The closure hashes tell the two checkouts apart. */
  ghost predicate ClosuresDiffer(w: World, f: Fold, before: Checkout, tree: Checkout) {
    forall c :: c in f.latest && ClosureKept(w, before, tree, SourcePath(w, c)) ==>
      Dependencies(tree, SourcePath(w, c)) == Dependencies(before, SourcePath(w, c))
  }

  /** One contract of the enlarged registry: its closure holds exactly when it is listed or
      its closure stayed, and then its file is its latest revision. */
  lemma LatestAfter(
      w: World, packages: seq<Package>, id: string, before: Checkout, tree: Checkout, listed: seq<string>, contract: string)
    requires FoldPackages(w, packages).Some? && id in w.table
    requires Prepared(w, packages, id, tree, listed).Some?
    requires var f := FoldPackages(w, packages).value;
             && HoldsClosure(w, f, before, contract) && HoldsLatest(w, f, Hashes(before), contract)
             && ClosuresDiffer(w, f, before, tree)
             && contract in Advance(w, f, Prepared(w, packages, id, tree, listed).value).latest
    ensures var f, path := FoldPackages(w, packages).value, SourcePath(w, contract);
            var after := Advance(w, f, Prepared(w, packages, id, tree, listed).value);
            && (HoldsClosure(w, after, tree, contract) <==>
                contract in listed || Dependencies(tree, path) == Dependencies(before, path))
            && (HoldsClosure(w, after, tree, contract) ==> HoldsLatest(w, after, Hashes(tree), contract))
  {
    hide FoldPackages, Prepared, Advance, Dependencies, SourcePath;
    PreparedLatest(w, packages, id, tree, listed, contract);
    var f, path := FoldPackages(w, packages).value, SourcePath(w, contract);
    if contract !in listed {
      assert Dependencies(before, path).Some?;
      ClosureHoldsRoot(before, path);
      if Dependencies(tree, path).Some? {
        ClosureHoldsRoot(tree, path);
      }
    }
  }

  /** Whatever passed before, the checkout that a package was accepted with passes exactly when
      its files and snapshots are in place and no earlier contract is left behind. */
  lemma AcceptedCheckoutPasses(
      w: World, packages: seq<Package>, id: string, before: Checkout, tree: Checkout, listed: seq<string>,
      names: seq<string>, later: seq<string>)
    requires FoldPackages(w, packages).Some? && id in w.table
    requires Prepared(w, packages, id, tree, listed).Some?
    requires var f, p := FoldPackages(w, packages).value, Prepared(w, packages, id, tree, listed).value;
             && Enumerates(names, f) && CurrentOk(w, f, names, before) && ClosuresDiffer(w, f, before, tree)
             && FoldPackages(w, packages + [p]) == Some(Advance(w, f, p)) && Enumerates(later, Advance(w, f, p))
             && Advance(w, f, p).sources == Sources(w, tree)
    ensures var f, p := FoldPackages(w, packages).value, Prepared(w, packages, id, tree, listed).value;
            CurrentOk(w, Advance(w, f, p), later, tree) <==>
            InPlace(w, tree) && StaleListed(w, f, before, tree, listed)
  {
    hide FoldPackages, Prepared, Advance, Dependencies, SourcePath, HoldsLatest, HoldsClosure, Hashes, ExpectedHash,
      ImplementedPaths, InPlace, ClosuresDiffer, Sources;
    var f, p := FoldPackages(w, packages).value, Prepared(w, packages, id, tree, listed).value;
    var after := Advance(w, f, p);
    CurrentParts(w, packages + [p], later, tree);
    CurrentParts(w, packages, names, before);
    forall c | c in after.latest
      ensures var path := SourcePath(w, c);
              && (HoldsClosure(w, after, tree, c) <==>
                  c in listed || Dependencies(tree, path) == Dependencies(before, path))
              && (HoldsClosure(w, after, tree, c) ==> HoldsLatest(w, after, after.sources, c))
    {
      HoldsVacuously(w, f, names, before, c);
      LatestAfter(w, packages, id, before, tree, listed, c);
      LatestInSources(w, packages + [p], tree, c);
    }
    forall c | c in f.latest ensures c in after.latest {
      PreparedLatest(w, packages, id, tree, listed, c);
    }
    if StaleListed(w, f, before, tree, listed) {
      forall c | c in after.latest ensures HoldsClosure(w, after, tree, c) {
        PreparedLatest(w, packages, id, tree, listed, c);
      }
    }
  }

  lemma HoldsVacuously(w: World, f: Fold, names: seq<string>, before: Checkout, contract: string)
    requires Enumerates(names, f) && CurrentOk(w, f, names, before)
    ensures HoldsClosure(w, f, before, contract) && HoldsLatest(w, f, Hashes(before), contract)
  {
    hide Dependencies, SourcePath, ExpectedHash, ImplementedPaths, RootPaths, Hashes;
  }

  /** The generator's final validation, of the enlarged registry and the checkout together. If a
      checkout passed before the package, the new one passes if and only if the definition
      fits and stands in order, the sources that changed are exactly those of its contracts,
      the reviews hold, the source roots hold no other file, the snapshots are the frozen ones,
      and every earlier revised contract whose import closure is not what it was is listed
      too; short of collisions. */
  lemma CheckoutPasses(
      w: World, packages: seq<Package>, id: string, before: Checkout, tree: Checkout, listed: seq<string>,
      names: seq<string>, later: seq<string>)
    requires FoldPackages(w, packages).Some? && id in w.table && Lists(listed, w.table[id])
    requires Prepared(w, packages, id, tree, listed).Some?
    requires var f, p := FoldPackages(w, packages).value, Prepared(w, packages, id, tree, listed).value;
             && Enumerates(names, f) && CurrentOk(w, f, names, before) && Enumerates(later, Advance(w, f, p))
             && SetsDiffer(w, f, p, tree) && ClosuresDiffer(w, f, before, tree)
    ensures Prepared(w, packages, id, tree, listed).value.revisions != []
    ensures var f, p := FoldPackages(w, packages).value, Prepared(w, packages, id, tree, listed).value;
            var validated := ValidateCheckpoints(w, Updated(packages, p));
            validated.Some? && CurrentOk(w, validated.value, later, tree) <==>
            && DefinitionFits(w, f, id, w.table[id], listed) && InTableOrder(w, f.observed + [id])
            && ChangesListed(w, f, tree, listed) && Reviewed(w, p)
            && InPlace(w, tree) && StaleListed(w, f, before, tree, listed)
  {
    hide FoldPackages, Prepared, Advance, DefinitionFits, InTableOrder, ChangesListed, Reviewed, CurrentOk,
      ClosuresDiffer, SetsDiffer, StaleListed, InPlace, Enumerates, Sources;
    var f, p := FoldPackages(w, packages).value, Prepared(w, packages, id, tree, listed).value;
    CandidateIsAccepted(w, packages, id, tree, listed);
    if ValidateCheckpoints(w, Updated(packages, p)).Some? {
      AcceptedCheckoutPasses(w, packages, id, before, tree, listed, names, later);
    }
  }

  /** Where equal bytes resolve imports alike, a closure is not what it was exactly when one of
      its files changed, so that condition can be read off the changed files. */
  lemma StaleMeansChanged(w: World, f: Fold, names: seq<string>, before: Checkout, tree: Checkout, listed: seq<string>)
    requires Enumerates(names, f) && CurrentOk(w, f, names, before) && SameImports(before, tree)
    ensures StaleListed(w, f, before, tree, listed) <==>
            forall c :: c in f.latest && ClosureChanged(before, tree, SourcePath(w, c)) ==> c in listed
  {
    hide CurrentOk, Enumerates, ClosureChanged, Dependencies, SourcePath, SameImports;
    forall c | c in f.latest
      ensures Dependencies(tree, SourcePath(w, c)) != Dependencies(before, SourcePath(w, c)) <==>
              ClosureChanged(before, tree, SourcePath(w, c))
    {
      HoldsVacuously(w, f, names, before, c);
      ClosureStays(before, tree, SourcePath(w, c));
    }
  }
}
