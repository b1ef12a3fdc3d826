/** The source files behind accepted checkpoints: which revision each file holds. */
module CheckpointSources {
  import opened ByteStrings
  import opened Checkpoints

  /** All revisions of the registry, in order. */
  function AllRevisions(packages: seq<Package>): seq<Revision>
    decreases |packages|
  {
    if packages == [] then []
    else AllRevisions(packages[..|packages| - 1]) + packages[|packages| - 1].revisions
  }

  lemma {:induction false} OverlayAppend(w: World, sources: map<string, Bytes>, a: seq<Revision>, b: seq<Revision>)
    ensures Overlay(w, sources, a + b) == Overlay(w, Overlay(w, sources, a), b)
    decreases |b|
  {
    if b == [] {
      assert a + b == a;
    } else {
      assert (a + b)[..|a + b| - 1] == a + b[..|b| - 1] && (a + b)[|a + b| - 1] == b[|b| - 1];
      OverlayAppend(w, sources, a, b[..|b| - 1]);
    }
  }

  /** The effective sources are the baseline overlaid with every revision in order. */
  lemma {:induction false} SourcesAreOverlaid(w: World, packages: seq<Package>)
    requires FoldPackages(w, packages).Some?
    ensures FoldPackages(w, packages).value.sources == Overlay(w, w.baseline.sources, AllRevisions(packages))
    decreases |packages|
  {
    hide PackageOk, Overlay;
    if packages == [] {
      EmptyOverlay(w, w.baseline.sources);
    } else {
      var init, p := packages[..|packages| - 1], packages[|packages| - 1];
      SourcesAreOverlaid(w, init);
      OverlayAppend(w, w.baseline.sources, AllRevisions(init), p.revisions);
    }
  }

  lemma EmptyOverlay(w: World, sources: map<string, Bytes>)
    ensures Overlay(w, sources, []) == sources
  {
  }

  // Which revision a file holds.

  predicate LivesAt(w: World, contract: string, path: string) {
    contract in w.baseline.contracts && w.baseline.contracts[contract].sourcePath == path
  }

  /** The last revision of any contract that lives at the path. */
  function LastAt(w: World, revisions: seq<Revision>, path: string): (r: Option<Revision>)
    ensures r.Some? ==> LivesAt(w, r.value.contract, path)
    decreases |revisions|
  {
    if revisions == [] then None
    else if LivesAt(w, revisions[|revisions| - 1].contract, path) then Some(revisions[|revisions| - 1])
    else LastAt(w, revisions[..|revisions| - 1], path)
  }

  lemma {:induction false} OverlayAt(w: World, sources: map<string, Bytes>, revisions: seq<Revision>, path: string)
    ensures var after := Overlay(w, sources, revisions);
            match LastAt(w, revisions, path)
            case Some(r) => path in after && after[path] == r.sourceHash
            case None => (path in after <==> path in sources) && (path in sources ==> after[path] == sources[path])
    decreases |revisions|
  {
    if revisions != [] {
      OverlayAt(w, sources, revisions[..|revisions| - 1], path);
    }
  }

  /** The last revision at a path is the last of its contract, and there is none only if no
      contract of that path was ever revised. */
  lemma {:induction false} LastAtIsLatest(w: World, revisions: seq<Revision>, path: string)
    ensures match LastAt(w, revisions, path)
            case Some(r) => FindRevision(revisions, r.contract) == Some(r)
            case None => forall c :: LivesAt(w, c, path) ==> FindRevision(revisions, c).None?
    decreases |revisions|
  {
    if revisions != [] {
      LastAtIsLatest(w, revisions[..|revisions| - 1], path);
    }
  }

  lemma {:induction false} FindAppend(a: seq<Revision>, b: seq<Revision>, contract: string)
    ensures FindRevision(a + b, contract)
            == if FindRevision(b, contract).Some? then FindRevision(b, contract) else FindRevision(a, contract)
    decreases |b|
  {
    if b == [] {
      assert a + b == a;
    } else {
      assert (a + b)[..|a + b| - 1] == a + b[..|b| - 1] && (a + b)[|a + b| - 1] == b[|b| - 1];
      FindAppend(a, b[..|b| - 1], contract);
    }
  }

  lemma {:induction false} LatestIsFound(w: World, packages: seq<Package>, contract: string)
    requires FoldPackages(w, packages).Some?
    ensures var f := FoldPackages(w, packages).value;
            FindRevision(AllRevisions(packages), contract)
            == if contract in f.latest then Some(f.latest[contract]) else None
    decreases |packages|
  {
    hide PackageOk, RevisionOk;
    if packages != [] {
      var init, p := packages[..|packages| - 1], packages[|packages| - 1];
      LatestIsFound(w, init, contract);
      FindAppend(AllRevisions(init), p.revisions, contract);
      RecordedLatest(FoldPackages(w, init).value.latest, p.revisions, contract);
    }
  }

  /** A file holds the last revision of any contract that lives there, which is the latest of
      its contract; a file whose contracts were never revised is as the baseline has it. */
  lemma SourceAt(w: World, packages: seq<Package>, path: string)
    requires FoldPackages(w, packages).Some?
    ensures var f := FoldPackages(w, packages).value;
            match LastAt(w, AllRevisions(packages), path)
            case Some(r) =>
              && path in f.sources && f.sources[path] == r.sourceHash
              && r.contract in f.latest && f.latest[r.contract] == r
            case None =>
              && (path in f.sources <==> path in w.baseline.sources)
              && (path in w.baseline.sources ==> f.sources[path] == w.baseline.sources[path])
              && forall c :: LivesAt(w, c, path) ==> c !in f.latest
  {
    hide FoldPackages, Overlay, FindRevision, AllRevisions, LastAt;
    var all := AllRevisions(packages);
    SourcesAreOverlaid(w, packages);
    OverlayAt(w, w.baseline.sources, all, path);
    LastAtIsLatest(w, all, path);
    forall c ensures FindRevision(all, c)
                     == if c in FoldPackages(w, packages).value.latest
                        then Some(FoldPackages(w, packages).value.latest[c]) else None
    {
      LatestIsFound(w, packages, c);
    }
  }

  /** Files of no contract are as the baseline has them. */
  lemma UntouchedSources(w: World, packages: seq<Package>, path: string)
    requires FoldPackages(w, packages).Some?
    requires forall c :: c in w.baseline.contracts ==> w.baseline.contracts[c].sourcePath != path
    ensures var f := FoldPackages(w, packages).value;
            (path in f.sources <==> path in w.baseline.sources)
            && (path in w.baseline.sources ==> f.sources[path] == w.baseline.sources[path])
  {
    hide FoldPackages;
    SourceAt(w, packages, path);
  }

  predicate UniquePaths(w: World) {
    forall a, b :: a in w.baseline.contracts && b in w.baseline.contracts && a != b ==>
      w.baseline.contracts[a].sourcePath != w.baseline.contracts[b].sourcePath
  }

  /** Where contracts do not share files, a revised contract's file holds its latest revision. */
  lemma EffectiveSources(w: World, packages: seq<Package>, contract: string)
    requires FoldPackages(w, packages).Some? && UniquePaths(w) && contract in w.baseline.contracts
    ensures var f, path := FoldPackages(w, packages).value, w.baseline.contracts[contract].sourcePath;
            if contract in f.latest then path in f.sources && f.sources[path] == f.latest[contract].sourceHash
            else (path in f.sources <==> path in w.baseline.sources)
                 && (path in w.baseline.sources ==> f.sources[path] == w.baseline.sources[path])
  {
    hide FoldPackages, AllRevisions;
    var path := w.baseline.contracts[contract].sourcePath;
    SourceAt(w, packages, path);
    assert LivesAt(w, contract, path);
  }

  // What accepted packages keep.

  lemma {:induction false} OverlayKeys(w: World, f: Fold, id: string, d: Definition, revisions: seq<Revision>)
    requires AllRevisionsOk(w, f, id, d, revisions)
    ensures Overlay(w, f.sources, revisions).Keys == f.sources.Keys
    decreases |revisions|
  {
    hide ExpectedAbi, Signatures, Eligible;
    if revisions != [] {
      OverlayKeys(w, f, id, d, revisions[..|revisions| - 1]);
      assert RevisionOk(w, f, id, d, revisions[|revisions| - 1]);
    }
  }

  /** Accepted packages neither add nor drop a file. */
  lemma {:induction false} SourceKeys(w: World, packages: seq<Package>)
    requires FoldPackages(w, packages).Some?
    ensures FoldPackages(w, packages).value.sources.Keys == w.baseline.sources.Keys
    decreases |packages|
  {
    hide AllRevisionsOk, Overlay, Select;
    if packages != [] {
      var init, p := packages[..|packages| - 1], packages[|packages| - 1];
      SourceKeys(w, init);
      OverlayKeys(w, FoldPackages(w, init).value, p.checkpointId, w.table[p.checkpointId], p.revisions);
    }
  }

  /** A contract with an accepted revision is in the baseline, and its file is among the sources. */
  lemma {:induction false} RevisedLives(w: World, packages: seq<Package>, contract: string)
    requires FoldPackages(w, packages).Some? && contract in FoldPackages(w, packages).value.latest
    ensures contract in w.baseline.contracts && w.baseline.contracts[contract].sourcePath in w.baseline.sources
    decreases |packages|
  {
    hide PackageOk, Signatures, ExpectedAbi, Advance;
    if packages != [] {
      var init, p := packages[..|packages| - 1], packages[|packages| - 1];
      var f := FoldPackages(w, init).value;
      PackageIsActivated(w, f, p);
      AdvancedLatest(w, f, p, contract);
      if RevisionOf(p, contract).Some? {
        FoundIsOk(w, f, p, contract);
        SourceKeys(w, init);
      } else {
        RevisedLives(w, init, contract);
      }
    }
  }

  lemma AdvancedLatest(w: World, f: Fold, p: Package, contract: string)
    requires p.checkpointId in w.table
    ensures var after := Advance(w, f, p).latest;
            match RevisionOf(p, contract)
            case Some(r) => contract in after && after[contract] == r
            case None => (contract in after <==> contract in f.latest)
                         && (contract in f.latest ==> after[contract] == f.latest[contract])
  {
    hide RecordLatest, RecordAbis, RecordOrigins, Overlay, FindRevision;
    RecordedLatest(f.latest, p.revisions, contract);
  }

  lemma FoldSnoc(w: World, packages: seq<Package>, f: Fold, p: Package)
    requires FoldPackages(w, packages) == Some(f) && PackageOk(w, f, p)
    ensures FoldPackages(w, packages + [p]) == Some(Advance(w, f, p))
  {
    hide PackageOk, Advance;
    assert (packages + [p])[..|packages|] == packages;
  }
}
