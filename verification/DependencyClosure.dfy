/** The import closure of a source file, as the checkpoint tool computes it with a
    worklist. */
module DependencyClosure {
  import opened ByteStrings

  /** The repository: the imports of each file it holds. */
  type Repository = map<string, seq<string>>

  predicate Imports(files: Repository, f: string, g: string) {
    f in files && g in files[f]
  }

  /** A chain of imports from the first file to the last. */
  predicate IsPath(files: Repository, path: seq<string>) {
    path != [] && forall i :: 0 < i < |path| ==> Imports(files, path[i - 1], path[i])
  }

  ghost predicate Reaches(files: Repository, root: string, target: string) {
    exists path :: IsPath(files, path) && path[0] == root && path[|path| - 1] == target
  }

  /** Every file that the root reaches is in the repository. */
  ghost predicate Complete(files: Repository, root: string) {
    forall f :: Reaches(files, root, f) ==> f in files
  }

  lemma ReachesSelf(files: Repository, root: string)
    ensures Reaches(files, root, root)
  {
    assert IsPath(files, [root]);
  }

  lemma ReachesImport(files: Repository, root: string, f: string, g: string)
    requires Reaches(files, root, f) && Imports(files, f, g)
    ensures Reaches(files, root, g)
  {
    var path :| IsPath(files, path) && path[0] == root && path[|path| - 1] == f;
    assert IsPath(files, path + [g]);
  }

  /** Every observed file has its imports observed or pending. */
  ghost predicate Frontier(files: Repository, observed: set<string>, pending: seq<string>) {
    forall f, g :: f in observed && Imports(files, f, g) ==> g in observed || g in pending
  }

  /** A set that holds the root and is closed under imports holds everything reachable. */
  lemma {:induction false} ClosureHolds(files: Repository, observed: set<string>, path: seq<string>)
    requires Frontier(files, observed, []) && IsPath(files, path) && path[0] in observed
    ensures path[|path| - 1] in observed
    decreases |path|
  {
    if |path| > 1 {
      var init := path[..|path| - 1];
      assert IsPath(files, init);
      ClosureHolds(files, observed, init);
      assert Imports(files, init[|init| - 1], path[|path| - 1]);
    }
  }

  lemma ReachedIsObserved(files: Repository, observed: set<string>, root: string, f: string)
    requires Frontier(files, observed, []) && root in observed && Reaches(files, root, f)
    ensures f in observed
  {
    var path :| IsPath(files, path) && path[0] == root && path[|path| - 1] == f;
    ClosureHolds(files, observed, path);
  }

  lemma Shrinks(all: set<string>, observed: set<string>, current: string)
    requires current in all && current !in observed
    ensures |all - (observed + {current})| < |all - observed|
  {
    assert all - observed == (all - (observed + {current})) + {current};
  }

  /** Terminates on every import graph, cyclic ones included. It fails exactly when some
      reachable file is missing; otherwise it finds exactly the reachable files. */
  method DependencyPaths(files: Repository, root: string) returns (r: Option<set<string>>)
    ensures r.Some? <==> Complete(files, root)
    ensures r.Some? ==> forall f :: f in r.value <==> Reaches(files, root, f)
  {
    hide Reaches, Imports;
    ReachesSelf(files, root);
    if root !in files {
      return None;
    }
    var pending := [root];
    var observed: set<string> := {};
    while pending != []
      invariant observed <= files.Keys
      invariant forall f :: f in pending ==> f in files && Reaches(files, root, f)
      invariant forall f :: f in observed ==> Reaches(files, root, f)
      invariant root in observed || root in pending
      invariant Frontier(files, observed, pending)
      decreases |files.Keys - observed|, |pending|
    {
      var current, rest := pending[|pending| - 1], pending[..|pending| - 1];
      assert pending == rest + [current];
      if current in observed {
        pending := rest;
        continue;
      }
      Shrinks(files.Keys, observed, current);
      observed := observed + {current};
      var pushed := PushImports(files, root, current, observed, rest);
      if pushed.None? {
        return None;
      }
      pending := pushed.value;
    }
    forall f | Reaches(files, root, f) ensures f in observed {
      ReachedIsObserved(files, observed, root, f);
    }
    return Some(observed);
  }

  /** Appends the imports of a file that have not been observed, unless one is missing. */
  method PushImports(files: Repository, ghost root: string, current: string, observed: set<string>, rest: seq<string>)
    returns (pending: Option<seq<string>>)
    requires current in files && current in observed && Reaches(files, root, current)
    requires Frontier(files, observed - {current}, rest + [current])
    requires forall f :: f in rest ==> f in files && Reaches(files, root, f)
    ensures pending.None? ==> !Complete(files, root)
    ensures pending.Some? ==> forall f :: f in pending.value ==> f in files && Reaches(files, root, f)
    ensures pending.Some? ==> Frontier(files, observed, pending.value)
    ensures pending.Some? ==> forall f :: f in rest ==> f in pending.value
  {
    hide Reaches;
    var extended := rest;
    var imports := files[current];
    for i := 0 to |imports|
      invariant forall f :: f in extended ==> f in files && Reaches(files, root, f)
      invariant forall f :: f in rest ==> f in extended
      invariant forall k :: 0 <= k < i ==> imports[k] in observed || imports[k] in extended
    {
      ReachesImport(files, root, current, imports[i]);
      if imports[i] !in files {
        return None;
      }
      if imports[i] !in observed {
        extended := extended + [imports[i]];
      }
    }
    forall f, g | f in observed && Imports(files, f, g) ensures g in observed || g in extended {
      if f == current {
        var k :| 0 <= k < |imports| && imports[k] == g;
      } else {
        assert f in observed - {current};
        assert g in observed - {current} || g in rest + [current];
      }
    }
    return Some(extended);
  }
}
