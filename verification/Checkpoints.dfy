/** The layered checkpoint registry: the validator folds accepted packages over a
    frozen baseline; the generator prepares the next package with a fold of its own. */
module Checkpoints {
  import opened ByteStrings
  import opened AbiItems

  datatype Origin = Origin(checkpointId: string, revision: int)

  datatype Revision = Revision(
    contract: string, revision: int, supersedes: Option<Origin>, activated: seq<string>,
    abiHash: Bytes, sourceHash: Bytes, sourceSetHash: Bytes, closureHash: Bytes)

  datatype Package = Package(checkpointId: string, revisions: seq<Revision>)

  datatype Registry = Registry(packages: seq<Package>, currentSourceSet: Bytes)

  /** What a package may activate: signatures and ABI additions by contract. */
  datatype Definition = Definition(contracts: map<string, seq<string>>, additions: map<string, seq<Item>>)

  datatype Contract = Contract(sourcePath: string, abi: seq<Item>, mutators: set<string>)

  /** The frozen baseline, with the eligible contracts in manifest order. */
  datatype Baseline = Baseline(order: seq<string>, contracts: map<string, Contract>, sources: map<string, Bytes>)

  /** The table of packages in canonical order, the baseline, which paths the source roots
      hold, whether the ABI and storage snapshots of a checkout are the frozen ones, the payload
      hashes, and the checks against reviews, backlogs and Git objects. */
  datatype World = World(
    tableOrder: seq<string>, table: map<string, Definition>, baseline: Baseline, inRoots: string -> bool,
    snapshotsFrozen: map<string, Bytes> -> bool,
    abiHash: seq<Item> -> Bytes, sourceSetHash: map<string, Bytes> -> Bytes, closureHash: map<string, Bytes> -> Bytes,
    reviewedRevision: (string, Revision) -> bool, reviewedPackage: Package -> bool)

  datatype Fold = Fold(
    latest: map<string, Revision>, origins: map<string, Origin>, sources: map<string, Bytes>,
    abis: map<string, seq<Item>>, observed: seq<string>)

  function InitialFold(w: World): Fold {
    Fold(map[], map[], w.baseline.sources, map c | c in w.baseline.contracts :: w.baseline.contracts[c].abi, [])
  }

  // The validator.

  function AdditionsFor(d: Definition, contract: string): seq<Item> {
    if contract in d.additions then d.additions[contract] else []
  }

  function ExpectedRevision(f: Fold, contract: string): int {
    if contract in f.latest then f.latest[contract].revision + 1 else 1
  }

  function ExpectedSupersedes(f: Fold, contract: string): Option<Origin> {
    if contract in f.latest && contract in f.origins then Some(f.origins[contract]) else None
  }

  function ExpectedAbi(f: Fold, d: Definition, contract: string): Option<seq<Item>> {
    if contract in f.abis then AdditivePayload(f.abis[contract], AdditionsFor(d, contract)) else None
  }

  function Signatures(activated: seq<string>): set<string> {
    set s | s in activated
  }

  predicate Eligible(w: World, d: Definition, contract: string) {
    contract in w.baseline.order && contract in w.baseline.contracts && contract in d.contracts
  }

  predicate RevisionOk(w: World, f: Fold, id: string, d: Definition, r: Revision) {
    && Eligible(w, d, r.contract)
    && r.activated == d.contracts[r.contract]
    && Signatures(r.activated) <= w.baseline.contracts[r.contract].mutators
    && r.revision == ExpectedRevision(f, r.contract)
    && r.supersedes == ExpectedSupersedes(f, r.contract)
    && (r.contract in f.latest ==> Signatures(f.latest[r.contract].activated) <= Signatures(r.activated))
    && ExpectedAbi(f, d, r.contract).Some? && r.abiHash == w.abiHash(ExpectedAbi(f, d, r.contract).value)
    && w.baseline.contracts[r.contract].sourcePath in f.sources
    && r.sourceHash != f.sources[w.baseline.contracts[r.contract].sourcePath]
    && w.reviewedRevision(id, r)
  }

  function ContractsOf(revisions: seq<Revision>): (names: seq<string>)
    ensures |names| == |revisions|
    ensures forall i :: 0 <= i < |revisions| ==> names[i] == revisions[i].contract
  {
    seq(|revisions|, i requires 0 <= i < |revisions| => revisions[i].contract)
  }

  function Select(order: seq<string>, wanted: set<string>): seq<string> {
    if order == [] then []
    else (if order[0] in wanted then [order[0]] else []) + Select(order[1..], wanted)
  }

  predicate AllRevisionsOk(w: World, f: Fold, id: string, d: Definition, revisions: seq<Revision>) {
    forall i :: 0 <= i < |revisions| ==> RevisionOk(w, f, id, d, revisions[i])
  }

  /** Source hashes after the revisions, in order. */
  function Overlay(w: World, sources: map<string, Bytes>, revisions: seq<Revision>): map<string, Bytes>
    decreases |revisions|
  {
    if revisions == [] then sources
    else
      var last := revisions[|revisions| - 1];
      var before := Overlay(w, sources, revisions[..|revisions| - 1]);
      if last.contract in w.baseline.contracts
      then before[w.baseline.contracts[last.contract].sourcePath := last.sourceHash]
      else before
  }

  predicate PackageOk(w: World, f: Fold, p: Package) {
    && p.checkpointId in w.table && p.checkpointId !in f.observed
    && w.table[p.checkpointId].additions.Keys <= w.table[p.checkpointId].contracts.Keys
    && p.revisions != []
    && NoRepeats(ContractsOf(p.revisions))
    && ContractsOf(p.revisions) == Select(w.baseline.order, w.table[p.checkpointId].contracts.Keys)
    && AllRevisionsOk(w, f, p.checkpointId, w.table[p.checkpointId], p.revisions)
    && (forall i :: 0 <= i < |p.revisions| ==>
          p.revisions[i].sourceSetHash == w.sourceSetHash(Overlay(w, f.sources, p.revisions)))
    && w.reviewedPackage(p)
  }

  /** The latest revision of each contract after the package. */
  function RecordLatest(latest: map<string, Revision>, revisions: seq<Revision>): map<string, Revision>
    decreases |revisions|
  {
    if revisions == [] then latest
    else
      var last := revisions[|revisions| - 1];
      RecordLatest(latest, revisions[..|revisions| - 1])[last.contract := last]
  }

  function RecordOrigins(origins: map<string, Origin>, id: string, revisions: seq<Revision>): map<string, Origin>
    decreases |revisions|
  {
    if revisions == [] then origins
    else
      var last := revisions[|revisions| - 1];
      RecordOrigins(origins, id, revisions[..|revisions| - 1])[last.contract := Origin(id, last.revision)]
  }

  function RecordAbis(f: Fold, d: Definition, revisions: seq<Revision>): map<string, seq<Item>>
    decreases |revisions|
  {
    if revisions == [] then f.abis
    else
      var last := revisions[|revisions| - 1];
      var before := RecordAbis(f, d, revisions[..|revisions| - 1]);
      if ExpectedAbi(f, d, last.contract).Some?
      then before[last.contract := ExpectedAbi(f, d, last.contract).value]
      else before
  }

  function Advance(w: World, f: Fold, p: Package): Fold
    requires p.checkpointId in w.table
  {
    Fold(
      RecordLatest(f.latest, p.revisions),
      RecordOrigins(f.origins, p.checkpointId, p.revisions),
      Overlay(w, f.sources, p.revisions),
      RecordAbis(f, w.table[p.checkpointId], p.revisions),
      f.observed + [p.checkpointId])
  }

  function FoldPackages(w: World, packages: seq<Package>): Option<Fold>
    decreases |packages|
  {
    if packages == [] then Some(InitialFold(w))
    else
      match FoldPackages(w, packages[..|packages| - 1])
      case None => None
      case Some(f) =>
        var p := packages[|packages| - 1];
        if PackageOk(w, f, p) then Some(Advance(w, f, p)) else None
  }

  predicate InTableOrder(w: World, observed: seq<string>) {
    observed == Select(w.tableOrder, Signatures(observed))
  }

  /** Accepted packages also stand in the order of the table, and the registry names the
      source set they arrive at. */
  function ValidateCheckpoints(w: World, registry: Registry): Option<Fold> {
    match FoldPackages(w, registry.packages)
    case None => None
    case Some(f) =>
      if InTableOrder(w, f.observed) && registry.currentSourceSet == w.sourceSetHash(f.sources) then Some(f) else None
  }

  // The loops of the validator.

  method RunValidator(w: World, registry: Registry) returns (r: Option<Fold>)
    ensures r == ValidateCheckpoints(w, registry)
  {
    hide PackageOk, Advance, Select;
    var packages := registry.packages;
    var f := InitialFold(w);
    for i := 0 to |packages|
      invariant FoldPackages(w, packages[..i]) == Some(f)
    {
      assert packages[..i + 1][..i] == packages[..i] && packages[..i + 1][i] == packages[i];
      if !PackageOk(w, f, packages[i]) {
        FailsFromPrefix(w, packages, i + 1);
        return None;
      }
      PackageIsActivated(w, f, packages[i]);
      f := AdvanceFold(w, f, packages[i]);
    }
    assert packages[..|packages|] == packages;
    if f.observed != Select(w.tableOrder, Signatures(f.observed)) || registry.currentSourceSet != w.sourceSetHash(f.sources) {
      return None;
    }
    return Some(f);
  }

  lemma PackageIsActivated(w: World, f: Fold, p: Package)
    requires PackageOk(w, f, p)
    ensures p.checkpointId in w.table
  {
  }

  lemma {:induction false} FailsFromPrefix(w: World, packages: seq<Package>, n: nat)
    requires n <= |packages| && FoldPackages(w, packages[..n]).None?
    ensures FoldPackages(w, packages).None?
    decreases |packages|
  {
    hide PackageOk, Advance;
    if n < |packages| {
      assert packages[..|packages| - 1][..n] == packages[..n];
      FailsFromPrefix(w, packages[..|packages| - 1], n);
    } else {
      assert packages[..n] == packages;
    }
  }

  /** Updates the dictionaries for one accepted package. */
  method AdvanceFold(w: World, f: Fold, p: Package) returns (r: Fold)
    requires p.checkpointId in w.table
    ensures r == Advance(w, f, p)
  {
    hide ExpectedAbi;
    var d := w.table[p.checkpointId];
    var latest, origins, sources, abis := f.latest, f.origins, f.sources, f.abis;
    for i := 0 to |p.revisions|
      invariant latest == RecordLatest(f.latest, p.revisions[..i])
      invariant origins == RecordOrigins(f.origins, p.checkpointId, p.revisions[..i])
      invariant sources == Overlay(w, f.sources, p.revisions[..i])
      invariant abis == RecordAbis(f, d, p.revisions[..i])
    {
      var revision := p.revisions[i];
      var done := p.revisions[..i + 1];
      assert done[..i] == p.revisions[..i] && done[i] == revision && |done| == i + 1;
      var abi := ExpectedAbi(f, d, revision.contract);
      if abi.Some? {
        abis := abis[revision.contract := abi.value];
      }
      if revision.contract in w.baseline.contracts {
        sources := sources[w.baseline.contracts[revision.contract].sourcePath := revision.sourceHash];
      }
      latest := latest[revision.contract := revision];
      origins := origins[revision.contract := Origin(p.checkpointId, revision.revision)];
    }
    assert p.revisions[..|p.revisions|] == p.revisions;
    return Fold(latest, origins, sources, abis, f.observed + [p.checkpointId]);
  }

  // Histories.

  datatype Entry = Entry(checkpointId: string, revision: Revision)

  /** The revision of the contract in the package, if there is one. */
  function RevisionOf(p: Package, contract: string): Option<Revision> {
    FindRevision(p.revisions, contract)
  }

  function FindRevision(revisions: seq<Revision>, contract: string): (r: Option<Revision>)
    ensures r.Some? ==> r.value.contract == contract && r.value in revisions
    decreases |revisions|
  {
    if revisions == [] then None
    else if revisions[|revisions| - 1].contract == contract then Some(revisions[|revisions| - 1])
    else FindRevision(revisions[..|revisions| - 1], contract)
  }

  /** All revisions of a contract in registry order. */
  function History(packages: seq<Package>, contract: string): seq<Entry>
    decreases |packages|
  {
    if packages == [] then []
    else
      var p := packages[|packages| - 1];
      History(packages[..|packages| - 1], contract)
      + if RevisionOf(p, contract).Some? then [Entry(p.checkpointId, RevisionOf(p, contract).value)] else []
  }

  /** Revisions 1, 2, 3, ... each superseding the one before and activating at least as much. */
  predicate IsChain(h: seq<Entry>) {
    forall k :: 0 <= k < |h| ==> ChainLink(h, k)
  }

  predicate ChainLink(h: seq<Entry>, k: nat)
    requires k < |h|
  {
    && h[k].revision.revision == k + 1
    && (if k == 0 then h[k].revision.supersedes.None?
        else
          && h[k].revision.supersedes == Some(Origin(h[k - 1].checkpointId, k))
          && Signatures(h[k - 1].revision.activated) <= Signatures(h[k].revision.activated))
  }

  /** The fold remembers the end of the history. */
  predicate Remembers(f: Fold, h: seq<Entry>, contract: string) {
    if h == [] then contract !in f.latest
    else
      && contract in f.latest && f.latest[contract] == h[|h| - 1].revision
      && contract in f.origins && f.origins[contract] == Origin(h[|h| - 1].checkpointId, |h|)
  }

  lemma {:induction false} RecordedLatest(latest: map<string, Revision>, revisions: seq<Revision>, contract: string)
    ensures var after := RecordLatest(latest, revisions);
            match FindRevision(revisions, contract)
            case Some(r) => contract in after && after[contract] == r
            case None => (contract in after <==> contract in latest)
                         && (contract in latest ==> after[contract] == latest[contract])
    decreases |revisions|
  {
    if revisions != [] {
      RecordedLatest(latest, revisions[..|revisions| - 1], contract);
    }
  }

  lemma {:induction false} RecordedOrigin(origins: map<string, Origin>, id: string, revisions: seq<Revision>, contract: string)
    ensures var after := RecordOrigins(origins, id, revisions);
            match FindRevision(revisions, contract)
            case Some(r) => contract in after && after[contract] == Origin(id, r.revision)
            case None => contract in origins ==> contract in after && after[contract] == origins[contract]
    decreases |revisions|
  {
    if revisions != [] {
      RecordedOrigin(origins, id, revisions[..|revisions| - 1], contract);
    }
  }

  lemma FoundIsOk(w: World, f: Fold, p: Package, contract: string)
    requires PackageOk(w, f, p) && RevisionOf(p, contract).Some?
    ensures RevisionOk(w, f, p.checkpointId, w.table[p.checkpointId], RevisionOf(p, contract).value)
  {
    hide RevisionOk, NoRepeats, Select, Overlay;
    var r := RevisionOf(p, contract).value;
    var i :| 0 <= i < |p.revisions| && p.revisions[i] == r;
  }

  lemma ChainExtends(w: World, f: Fold, p: Package, h: seq<Entry>, contract: string)
    requires PackageOk(w, f, p) && RevisionOf(p, contract).Some? && IsChain(h) && Remembers(f, h, contract)
    ensures IsChain(h + [Entry(p.checkpointId, RevisionOf(p, contract).value)])
    ensures RevisionOf(p, contract).value.revision == |h| + 1
  {
    hide PackageOk, ExpectedAbi, Eligible, Signatures;
    FoundIsOk(w, f, p, contract);
    var e := Entry(p.checkpointId, RevisionOf(p, contract).value);
    var after := h + [e];
    if h != [] {
      assert ChainLink(h, |h| - 1);
    }
    forall k | 0 <= k < |after| ensures ChainLink(after, k) {
      if k < |h| {
        assert ChainLink(h, k);
      }
    }
  }

  /** Every accepted registry gives each contract one supersession chain of revisions
      1..n with growing activations, and the validator returns its end. */
  lemma {:induction false} ContractsFormChains(w: World, packages: seq<Package>, contract: string)
    requires FoldPackages(w, packages).Some?
    ensures IsChain(History(packages, contract))
    ensures Remembers(FoldPackages(w, packages).value, History(packages, contract), contract)
    decreases |packages|
  {
    hide PackageOk, RevisionOk, IsChain;
    if packages == [] {
      EmptyChain();
    } else {
      var init, p := packages[..|packages| - 1], packages[|packages| - 1];
      ContractsFormChains(w, init, contract);
      var f, h := FoldPackages(w, init).value, History(init, contract);
      RecordedLatest(f.latest, p.revisions, contract);
      RecordedOrigin(f.origins, p.checkpointId, p.revisions, contract);
      if RevisionOf(p, contract).Some? {
        ChainExtends(w, f, p, h, contract);
      } else {
        assert h + [] == h;
      }
    }
  }

  lemma EmptyChain()
    ensures IsChain([])
  {
  }
}
