/** The candidate generator and its agreement with the validator. */
module CheckpointGenerator {
  import opened ByteStrings
  import opened AbiItems
  import opened Checkpoints
  import opened CheckpointSources

  /** The generator folds the additions of every package, activated or not, over the
      frozen ABI, sorting each time. */
  function GeneratedAbi(w: World, packages: seq<Package>, contract: string): Option<seq<Item>>
    decreases |packages|
  {
    if packages == [] then
      if contract in w.baseline.contracts then Some(w.baseline.contracts[contract].abi) else None
    else
      match GeneratedAbi(w, packages[..|packages| - 1], contract)
      case None => None
      case Some(abi) =>
        var id := packages[|packages| - 1].checkpointId;
        if id in w.table then AdditivePayload(abi, AdditionsFor(w.table[id], contract)) else None
  }

  /** The package that holds the revision, searching all packages and keeping the last find. */
  function OriginOf(packages: seq<Package>, prior: Revision): Option<Origin>
    decreases |packages|
  {
    if packages == [] then None
    else if prior in packages[|packages| - 1].revisions
    then Some(Origin(packages[|packages| - 1].checkpointId, prior.revision))
    else OriginOf(packages[..|packages| - 1], prior)
  }

  function CandidateRevision(f: Fold, contract: string): int {
    (if contract in f.latest then f.latest[contract].revision else 0) + 1
  }

  function CandidateSupersedes(f: Fold, packages: seq<Package>, contract: string): Option<Origin> {
    if contract in f.latest then OriginOf(packages, f.latest[contract]) else None
  }

  function CandidateAbi(w: World, packages: seq<Package>, d: Definition, contract: string): Option<seq<Item>> {
    match GeneratedAbi(w, packages, contract)
    case None => None
    case Some(abi) => AdditivePayload(abi, AdditionsFor(d, contract))
  }

  // The loops of the generator.

  method GenerateAbi(w: World, packages: seq<Package>, d: Definition, contract: string) returns (r: Option<seq<Item>>)
    ensures r == CandidateAbi(w, packages, d, contract)
  {
    hide AdditivePayload;
    if contract !in w.baseline.contracts {
      NoGeneratedAbi(w, packages, contract, 0);
      return None;
    }
    var current := w.baseline.contracts[contract].abi;
    for i := 0 to |packages|
      invariant GeneratedAbi(w, packages[..i], contract) == Some(current)
    {
      assert packages[..i + 1][..i] == packages[..i] && packages[..i + 1][i] == packages[i];
      var id := packages[i].checkpointId;
      if id !in w.table {
        NoGeneratedAbi(w, packages, contract, i + 1);
        return None;
      }
      var next := BuildAdditivePayload(current, AdditionsFor(w.table[id], contract));
      if next.None? {
        NoGeneratedAbi(w, packages, contract, i + 1);
        return None;
      }
      current := next.value;
    }
    assert packages[..|packages|] == packages;
    r := BuildAdditivePayload(current, AdditionsFor(d, contract));
  }

  lemma {:induction false} NoGeneratedAbi(w: World, packages: seq<Package>, contract: string, n: nat)
    requires n <= |packages| && GeneratedAbi(w, packages[..n], contract).None?
    ensures GeneratedAbi(w, packages, contract).None?
    decreases |packages|
  {
    hide AdditivePayload;
    if n < |packages| {
      assert packages[..|packages| - 1][..n] == packages[..n];
      NoGeneratedAbi(w, packages[..|packages| - 1], contract, n);
    } else {
      assert packages[..n] == packages;
    }
  }

  method FindOrigin(packages: seq<Package>, prior: Revision) returns (r: Option<Origin>)
    ensures r == OriginOf(packages, prior)
  {
    r := None;
    for i := 0 to |packages|
      invariant r == OriginOf(packages[..i], prior)
    {
      assert packages[..i + 1][..i] == packages[..i] && packages[..i + 1][i] == packages[i];
      var found := false;
      for j := 0 to |packages[i].revisions|
        invariant found <==> prior in packages[i].revisions[..j]
      {
        assert packages[i].revisions[..j + 1] == packages[i].revisions[..j] + [packages[i].revisions[j]];
        if packages[i].revisions[j] == prior {
          found := true;
        }
      }
      assert packages[i].revisions[..|packages[i].revisions|] == packages[i].revisions;
      if found {
        r := Some(Origin(packages[i].checkpointId, prior.revision));
      }
    }
    assert packages[..|packages|] == packages;
  }

  // Revision numbers and supersession.

  /** In an accepted package a contract has at most one revision. */
  lemma {:induction false} FindIsUnique(revisions: seq<Revision>, r: Revision)
    requires NoRepeats(ContractsOf(revisions)) && r in revisions
    ensures FindRevision(revisions, r.contract) == Some(r)
    decreases |revisions|
  {
    var init, last := revisions[..|revisions| - 1], revisions[|revisions| - 1];
    var i :| 0 <= i < |revisions| && revisions[i] == r;
    if i < |revisions| - 1 {
      assert init[i] == r;
      assert ContractsOf(revisions)[i] != ContractsOf(revisions)[|revisions| - 1];
      forall a, b | 0 <= a < b < |init| ensures ContractsOf(init)[a] != ContractsOf(init)[b] {
        assert ContractsOf(revisions)[a] != ContractsOf(revisions)[b];
      }
      FindIsUnique(init, r);
    }
  }

  /** No earlier package than the last one of the history can hold the latest revision,
      because revision numbers grow. */
  lemma {:induction false} OriginIsLast(w: World, packages: seq<Package>, contract: string)
    requires FoldPackages(w, packages).Some? && contract in FoldPackages(w, packages).value.latest
    ensures var f := FoldPackages(w, packages).value;
            contract in f.origins && OriginOf(packages, f.latest[contract]) == Some(f.origins[contract])
    decreases |packages|
  {
    hide PackageOk, RevisionOk, IsChain;
    ContractsFormChains(w, packages, contract);
    if packages != [] {
      var init, p := packages[..|packages| - 1], packages[|packages| - 1];
      var f, g := FoldPackages(w, packages).value, FoldPackages(w, init).value;
      RecordedLatest(g.latest, p.revisions, contract);
      RecordedOrigin(g.origins, p.checkpointId, p.revisions, contract);
      if RevisionOf(p, contract).None? {
        OriginIsLast(w, init, contract);
        ContractsFormChains(w, init, contract);
        LatestNamesContract(w, init, contract);
        NotThere(p, f.latest[contract]);
      }
    }
  }

  lemma {:induction false} LatestNamesContract(w: World, packages: seq<Package>, contract: string)
    requires FoldPackages(w, packages).Some? && contract in FoldPackages(w, packages).value.latest
    ensures FoldPackages(w, packages).value.latest[contract].contract == contract
    decreases |packages|
  {
    hide PackageOk, FindRevision;
    LatestIsFound(w, packages, contract);
    FindNames(AllRevisions(packages), contract);
  }

  lemma FindNames(revisions: seq<Revision>, contract: string)
    requires FindRevision(revisions, contract).Some?
    ensures FindRevision(revisions, contract).value.contract == contract
  {
    hide FindRevision;
  }

  lemma {:induction false} NotFoundNotThere(revisions: seq<Revision>, r: Revision)
    requires FindRevision(revisions, r.contract).None?
    ensures r !in revisions
    decreases |revisions|
  {
    if revisions != [] {
      NotFoundNotThere(revisions[..|revisions| - 1], r);
      assert revisions == revisions[..|revisions| - 1] + [revisions[|revisions| - 1]];
    }
  }

  lemma NotThere(p: Package, r: Revision)
    requires RevisionOf(p, r.contract).None?
    ensures r !in p.revisions
  {
    NotFoundNotThere(p.revisions, r);
  }

  // The ABI.

  /** The generator's payload and the validator's hold the same items. */
  ghost predicate Agree(generated: seq<Item>, effective: seq<Item>) {
    generated == effective || SameItems(generated, effective)
  }

  lemma {:induction false} RecordedAbi(f: Fold, d: Definition, revisions: seq<Revision>, contract: string)
    ensures var after := RecordAbis(f, d, revisions);
            if FindRevision(revisions, contract).Some? && ExpectedAbi(f, d, contract).Some?
            then contract in after && after[contract] == ExpectedAbi(f, d, contract).value
            else contract in f.abis ==> contract in after && after[contract] == f.abis[contract]
    decreases |revisions|
  {
    hide ExpectedAbi;
    if revisions != [] {
      RecordedAbi(f, d, revisions[..|revisions| - 1], contract);
    }
  }

  lemma AgreeingPayloads(generated: seq<Item>, effective: seq<Item>, additions: seq<Item>)
    requires Agree(generated, effective)
    ensures AdditivePayload(generated, additions) == AdditivePayload(effective, additions)
  {
    hide AdditivePayload;
    if generated != effective {
      AdditiveIsCanonical(generated, effective, additions);
    }
  }

  lemma SortedStillAgrees(generated: seq<Item>, effective: seq<Item>)
    requires Agree(generated, effective) && AdditivePayload(generated, []).Some?
    ensures Agree(AdditivePayload(generated, []).value, effective)
  {
    hide SortItems;
    assert generated + [] == generated;
    AdditiveContents(generated, []);
  }

  lemma ContractWithoutRevision(w: World, f: Fold, p: Package, contract: string)
    requires PackageOk(w, f, p) && RevisionOf(p, contract).None? && contract in w.baseline.order
    ensures AdditionsFor(w.table[p.checkpointId], contract) == []
  {
    hide AllRevisionsOk, Overlay, NoRepeats;
    var d := w.table[p.checkpointId];
    if contract in d.contracts {
      SelectHas(w.baseline.order, d.contracts.Keys, contract);
      var i :| 0 <= i < |p.revisions| && ContractsOf(p.revisions)[i] == contract;
      FindExists(p.revisions, i);
    }
  }

  lemma {:induction false} SelectHas(order: seq<string>, wanted: set<string>, name: string)
    requires name in order && name in wanted
    ensures name in Select(order, wanted)
  {
    if order[0] != name {
      assert order == [order[0]] + order[1..];
      SelectHas(order[1..], wanted, name);
    }
  }

  lemma {:induction false} FindExists(revisions: seq<Revision>, i: nat)
    requires i < |revisions|
    ensures FindRevision(revisions, revisions[i].contract).Some?
    decreases |revisions|
  {
    if i < |revisions| - 1 {
      assert revisions[..|revisions| - 1][i] == revisions[i];
      FindExists(revisions[..|revisions| - 1], i);
    }
  }

  lemma AgreeStep(w: World, f: Fold, p: Package, contract: string, generated: seq<Item>)
    requires PackageOk(w, f, p) && contract in w.baseline.order
    requires contract in f.abis && Agree(generated, f.abis[contract])
    requires AdditivePayload(generated, AdditionsFor(w.table[p.checkpointId], contract)).Some?
    ensures contract in Advance(w, f, p).abis
    ensures Agree(AdditivePayload(generated, AdditionsFor(w.table[p.checkpointId], contract)).value,
                  Advance(w, f, p).abis[contract])
  {
    hide AdditivePayload, AllRevisionsOk, Overlay, NoRepeats, PackageOk, Agree, FindRevision, RecordLatest, RecordOrigins;
    PackageIsActivated(w, f, p);
    var d := w.table[p.checkpointId];
    RecordedAbi(f, d, p.revisions, contract);
    if RevisionOf(p, contract).Some? {
      FoundIsOk(w, f, p, contract);
      FindNames(p.revisions, contract);
      AgreeingPayloads(generated, f.abis[contract], AdditionsFor(d, contract));
      EqualAgrees(Advance(w, f, p).abis[contract]);
    } else {
      ContractWithoutRevision(w, f, p, contract);
      SortedStillAgrees(generated, f.abis[contract]);
    }
  }

  lemma EqualAgrees(items: seq<Item>)
    ensures Agree(items, items)
  {
  }

  lemma {:induction false} GeneratedAgrees(w: World, packages: seq<Package>, contract: string)
    requires FoldPackages(w, packages).Some? && GeneratedAbi(w, packages, contract).Some?
    requires contract in w.baseline.order
    ensures var f := FoldPackages(w, packages).value;
            contract in f.abis && Agree(GeneratedAbi(w, packages, contract).value, f.abis[contract])
    decreases |packages|
  {
    hide PackageOk, AdditivePayload, Advance, Agree;
    if packages == [] {
      EqualAgrees(w.baseline.contracts[contract].abi);
    } else {
      var init, p := packages[..|packages| - 1], packages[|packages| - 1];
      GeneratedAgrees(w, init, contract);
      AgreeStep(w, FoldPackages(w, init).value, p, contract, GeneratedAbi(w, init, contract).value);
    }
  }

  lemma {:induction false} SupportedGenerates(w: World, packages: seq<Package>, contract: string)
    requires FoldPackages(w, packages).Some? && contract in w.baseline.order && contract in w.baseline.contracts
    requires DistinctItems(w.baseline.contracts[contract].abi) && Supported(w.baseline.contracts[contract].abi)
    ensures GeneratedAbi(w, packages, contract).Some?
    ensures DistinctItems(GeneratedAbi(w, packages, contract).value) && Supported(GeneratedAbi(w, packages, contract).value)
    decreases |packages|
  {
    hide PackageOk, AdditivePayload, Advance, Agree, DistinctItems, Supported;
    if packages != [] {
      var init, p := packages[..|packages| - 1], packages[|packages| - 1];
      var f := FoldPackages(w, init).value;
      SupportedGenerates(w, init, contract);
      GeneratedAgrees(w, init, contract);
      PackageIsActivated(w, f, p);
      PayloadExists(w, f, p, contract, GeneratedAbi(w, init, contract).value);
      PayloadIsSupported(GeneratedAbi(w, init, contract).value, AdditionsFor(w.table[p.checkpointId], contract));
    }
  }

  lemma PayloadIsSupported(base: seq<Item>, additions: seq<Item>)
    requires AdditivePayload(base, additions).Some?
    ensures DistinctItems(AdditivePayload(base, additions).value) && Supported(AdditivePayload(base, additions).value)
  {
    hide AdditivePayload, Ordered;
    AdditiveContents(base, additions);
  }

  lemma PayloadExists(w: World, f: Fold, p: Package, contract: string, generated: seq<Item>)
    requires PackageOk(w, f, p) && contract in w.baseline.order
    requires contract in f.abis && Agree(generated, f.abis[contract])
    requires DistinctItems(generated) && Supported(generated)
    ensures AdditivePayload(generated, AdditionsFor(w.table[p.checkpointId], contract)).Some?
  {
    hide PackageOk, Agree, FindRevision, SortItems;
    PackageIsActivated(w, f, p);
    if RevisionOf(p, contract).Some? {
      FoundIsOk(w, f, p, contract);
      FindNames(p.revisions, contract);
      AgreeingPayloads(generated, f.abis[contract], AdditionsFor(w.table[p.checkpointId], contract));
    } else {
      ContractWithoutRevision(w, f, p, contract);
      assert generated + [] == generated;
    }
  }

  /** For every accepted registry and every package of the table: the revision number, the
      supersession and the ABI that the generator prepares are exactly those the validator
      will expect, and the ABI is always prepared when the frozen one is well formed. */
  lemma CandidatesSatisfyValidator(w: World, packages: seq<Package>, d: Definition, contract: string)
    requires FoldPackages(w, packages).Some? && contract in w.baseline.order && contract in w.baseline.contracts
    ensures var f := FoldPackages(w, packages).value;
            && CandidateRevision(f, contract) == ExpectedRevision(f, contract)
            && CandidateSupersedes(f, packages, contract) == ExpectedSupersedes(f, contract)
            && (GeneratedAbi(w, packages, contract).Some? ==>
                  CandidateAbi(w, packages, d, contract) == ExpectedAbi(f, d, contract))
            && (DistinctItems(w.baseline.contracts[contract].abi) && Supported(w.baseline.contracts[contract].abi) ==>
                  GeneratedAbi(w, packages, contract).Some?)
  {
    hide FoldPackages, GeneratedAbi, AdditivePayload, OriginOf, DistinctItems, Supported;
    var f := FoldPackages(w, packages).value;
    if contract in f.latest {
      OriginIsLast(w, packages, contract);
    }
    if GeneratedAbi(w, packages, contract).Some? {
      GeneratedAgrees(w, packages, contract);
      AgreeingPayloads(GeneratedAbi(w, packages, contract).value, f.abis[contract], AdditionsFor(d, contract));
    }
    if DistinctItems(w.baseline.contracts[contract].abi) && Supported(w.baseline.contracts[contract].abi) {
      SupportedGenerates(w, packages, contract);
    }
  }
}
