/**
 * The three analysis steps as functions of their inputs: indexing the asset
 * database, collecting the references of every indexed asset, and the
 * seeds and starting marks of the reference-chain walk. The synchronous and
 * the time-sliced runs of each step are both measured against these.
 */
module Phases {
  import opened Strings
  import opened Collections
  import opened References
  import opened AssetTypes
  import opened Project
  import ClassNames
  import opened Scanners
  import opened Reachability

  /** The marker a path must contain to be indexed as a `Resources.Load` target. */
  const RESOURCES_MARK := "Resources"

  // ----- Step 1: indexing -----

  /** The tables indexing fills: assets by GUID, resources by path, the class tables. */
  datatype IndexTables = IndexTables(guidToPath: Dict<string>, resPathToGuid: Dict<string>, classes: ClassNames.ClassTables)
  {
    ghost predicate Valid()
    {
      guidToPath.Valid() && resPathToGuid.Valid() && classes.Valid()
    }
  }

  /** The tables so far, and whether indexing ran without an exception. */
  datatype Indexing = Indexing(tables: IndexTables, ok: bool)

  /** The tables every indexing starts from. */
  function EmptyIndex(): (t: IndexTables)
    ensures t.Valid()
  {
    IndexTables(EmptyDict(), EmptyDict(), ClassNames.ClassTables(EmptyDict(), EmptyDict()))
  }

  /**
   * Indexing one path: a project asset is added under its GUID (a GUID seen
   * before throws), a path containing `Resources` is also added by path,
   * then the asset is classified (which may throw) and a script's class
   * declarations are indexed.
   */
  function IndexAsset(h: Host, path: string, t: IndexTables): Indexing
  {
    if !IsProjectAsset(h, path) then Indexing(t, true)
    else
      var guid := h.guidOf(path);
      if guid in t.guidToPath.m then Indexing(t, false)
      else
        var byGuid := t.guidToPath.Add(guid, path);
        if Contains(path, RESOURCES_MARK) && path in t.resPathToGuid.m then
          Indexing(IndexTables(byGuid, t.resPathToGuid, t.classes), false)
        else
          var byPath := if Contains(path, RESOURCES_MARK) then t.resPathToGuid.Add(path, guid) else t.resPathToGuid;
          match KindOf(h, path)
          case Throws => Indexing(IndexTables(byGuid, byPath, t.classes), false)
          case Ok(kind) =>
            if kind == Script || kind == EditorTool then
              var x := ClassNames.ExtractClassNames(h.text(path), guid, t.classes);
              Indexing(IndexTables(byGuid, byPath, x.tables), x.ok)
            else Indexing(IndexTables(byGuid, byPath, t.classes), true)
  }

  /**
   * What indexing one path does to the GUID table: nothing for a path
   * outside the project, a throw for a GUID seen before, and otherwise the
   * GUID is added.
   */
  lemma IndexAssetGuids(h: Host, path: string, t: IndexTables)
    ensures var r := IndexAsset(h, path, t);
      && (!IsProjectAsset(h, path) ==> r == Indexing(t, true))
      && (IsProjectAsset(h, path) && h.guidOf(path) in t.guidToPath.m ==> r == Indexing(t, false))
      && (IsProjectAsset(h, path) && h.guidOf(path) !in t.guidToPath.m ==>
          r.tables.guidToPath == t.guidToPath.Add(h.guidOf(path), path))
  {
  }

  /**
   * What indexing one path does to the `Resources` table: a project path
   * containing `Resources` is added under its GUID, unless it is there
   * already (which throws); the table is otherwise left alone.
   */
  lemma IndexAssetResources(h: Host, path: string, t: IndexTables)
    ensures var r := IndexAsset(h, path, t);
      && (r.tables.resPathToGuid == t.resPathToGuid
          || (IsProjectAsset(h, path) && Contains(path, RESOURCES_MARK) && path !in t.resPathToGuid.m
              && r.tables.resPathToGuid == t.resPathToGuid.Add(path, h.guidOf(path))))
      && (r.ok && IsProjectAsset(h, path) && Contains(path, RESOURCES_MARK) ==>
          path in r.tables.resPathToGuid.m && r.tables.resPathToGuid.m[path] == h.guidOf(path))
  {
  }

  /** Indexing one path keeps well-formed tables well formed. */
  lemma IndexAssetValid(h: Host, path: string, t: IndexTables)
    requires t.Valid()
    ensures IndexAsset(h, path, t).tables.Valid()
  {
    var guid := h.guidOf(path);
    if IsProjectAsset(h, path) && guid !in t.guidToPath.m {
      t.guidToPath.AddValid(guid, path);
      if Contains(path, RESOURCES_MARK) && path !in t.resPathToGuid.m {
        t.resPathToGuid.AddValid(path, guid);
      }
    }
  }

  /**
   * Indexing a path again after it threw throws again at once and changes
   * nothing: by then the path's GUID is in the table.
   */
  lemma IndexAssetRetry(h: Host, path: string, t: IndexTables)
    requires t.Valid() && !IndexAsset(h, path, t).ok
    ensures var r := IndexAsset(h, path, t);
      IndexAsset(h, path, r.tables) == Indexing(r.tables, false)
  {
    var r := IndexAsset(h, path, t);
    IndexAssetGuids(h, path, t);
    assert h.guidOf(path) in r.tables.guidToPath.m;
    IndexAssetGuids(h, path, r.tables);
  }

  /** Every step keeps the tables well formed. */
  ghost predicate KeepsValid(step: (string, IndexTables) -> Indexing)
  {
    forall p: string, t: IndexTables :: t.Valid() ==> step(p, t).tables.Valid()
  }

  /**
   * What a step does to `guidToPath`, for the assets `asset` accepts and the
   * GUIDs `guidOf` gives: an asset with a new GUID is added under it, a GUID
   * seen before throws, anything else is left alone.
   */
  ghost predicate RecordsGuids(asset: string -> bool, guidOf: string -> string, step: (string, IndexTables) -> Indexing)
  {
    forall p: string, t: IndexTables {:trigger step(p, t)} ::
      && (!asset(p) ==> step(p, t) == Indexing(t, true))
      && (asset(p) && guidOf(p) in t.guidToPath.m ==> step(p, t) == Indexing(t, false))
      && (asset(p) && guidOf(p) !in t.guidToPath.m ==> step(p, t).tables.guidToPath == t.guidToPath.Add(guidOf(p), p))
  }

  /** `IsProjectAsset` as a function value. */
  function ProjectAssets(h: Host): (asset: string -> bool)
    ensures forall p :: asset(p) == IsProjectAsset(h, p)
  {
    p => IsProjectAsset(h, p)
  }

  /** A loop over `paths` from empty tables that stops at the first exception. */
  function IndexFold(step: (string, IndexTables) -> Indexing, paths: seq<string>, n: nat): (r: Indexing)
    requires n <= |paths|
    ensures KeepsValid(step) ==> r.tables.Valid()
  {
    if n == 0 then Indexing(EmptyIndex(), true)
    else
      var p := IndexFold(step, paths, n - 1);
      if !p.ok then p else step(paths[n - 1], p.tables)
  }

  /** The body of the indexing loop. */
  function IndexStep(h: Host): (string, IndexTables) -> Indexing
  {
    (p, t) => IndexAsset(h, p, t)
  }

  /** The body of the indexing loop keeps the tables well formed and records the GUIDs of project assets. */
  lemma IndexStepSpec(h: Host)
    ensures KeepsValid(IndexStep(h)) && RecordsGuids(ProjectAssets(h), h.guidOf, IndexStep(h))
  {
    forall p: string, t: IndexTables
      ensures var r := IndexStep(h)(p, t);
        && (t.Valid() ==> r.tables.Valid())
        && (!IsProjectAsset(h, p) ==> r == Indexing(t, true))
        && (IsProjectAsset(h, p) && h.guidOf(p) in t.guidToPath.m ==> r == Indexing(t, false))
        && (IsProjectAsset(h, p) && h.guidOf(p) !in t.guidToPath.m ==> r.tables.guidToPath == t.guidToPath.Add(h.guidOf(p), p))
    {
      IndexAssetGuids(h, p, t);
      if t.Valid() {
        IndexAssetValid(h, p, t);
      }
    }
  }

  /** The indexing loop after the first `n` paths, from empty tables; an exception ends it. */
  function IndexPaths(h: Host, paths: seq<string>, n: nat): (r: Indexing)
    requires n <= |paths|
    ensures r.tables.Valid()
  {
    IndexStepSpec(h);
    IndexFold(IndexStep(h), paths, n)
  }

  /** One more path: the loop body applied to the tables so far, unless an exception already ended the loop. */
  lemma IndexPathsNext(h: Host, paths: seq<string>, n: nat)
    requires n < |paths|
    ensures IndexPaths(h, paths, n + 1) ==
      if IndexPaths(h, paths, n).ok then IndexAsset(h, paths[n], IndexPaths(h, paths, n).tables) else IndexPaths(h, paths, n)
  {
  }

  /** After an exception, later paths change nothing. */
  lemma {:induction false} IndexFoldStuck(step: (string, IndexTables) -> Indexing, paths: seq<string>, n: nat, m: nat)
    requires n <= m <= |paths| && !IndexFold(step, paths, n).ok
    ensures IndexFold(step, paths, m) == IndexFold(step, paths, n)
    decreases m
  {
    if m > n {
      IndexFoldStuck(step, paths, n, m - 1);
    }
  }

  /** Every GUID of `m` is that of an asset among the first `n` paths, mapped to its path. */
  ghost predicate FromPaths(asset: string -> bool, guidOf: string -> string, paths: seq<string>, n: nat, m: map<string, string>)
    requires n <= |paths|
  {
    forall g :: g in m ==> exists i :: 0 <= i < n && asset(paths[i]) && guidOf(paths[i]) == g && m[g] == paths[i]
  }

  /** Every asset among the first `n` paths is mapped from its GUID. */
  ghost predicate HasPaths(asset: string -> bool, guidOf: string -> string, paths: seq<string>, n: nat, m: map<string, string>)
    requires n <= |paths|
  {
    forall i :: 0 <= i < n && asset(paths[i]) ==> guidOf(paths[i]) in m && m[guidOf(paths[i])] == paths[i]
  }

  /** `IndexFoldStuck` for the indexing loop itself. */
  lemma IndexPathsStuck(h: Host, paths: seq<string>, n: nat, m: nat)
    requires n <= m <= |paths| && !IndexPaths(h, paths, n).ok
    ensures IndexPaths(h, paths, m) == IndexPaths(h, paths, n)
  {
    IndexFoldStuck(IndexStep(h), paths, n, m);
  }

  /**
   * What indexing records: every GUID it holds is the GUID of an asset
   * among the paths read, mapped to that path; and when no exception
   * occurred, every asset read is mapped from its GUID.
   */
  lemma {:induction false} IndexFoldMaps(asset: string -> bool, guidOf: string -> string, step: (string, IndexTables) -> Indexing, paths: seq<string>, n: nat)
    requires n <= |paths| && RecordsGuids(asset, guidOf, step)
    ensures FromPaths(asset, guidOf, paths, n, IndexFold(step, paths, n).tables.guidToPath.m)
    ensures IndexFold(step, paths, n).ok ==> HasPaths(asset, guidOf, paths, n, IndexFold(step, paths, n).tables.guidToPath.m)
  {
    if n > 0 {
      IndexFoldMaps(asset, guidOf, step, paths, n - 1);
      var p := IndexFold(step, paths, n - 1);
      var pm := p.tables.guidToPath.m;
      var m := IndexFold(step, paths, n).tables.guidToPath.m;
      var x := paths[n - 1];
      if p.ok {
        assert IndexFold(step, paths, n) == step(x, p.tables);
        if asset(x) && guidOf(x) !in pm {
          assert m == pm[guidOf(x) := x];
        } else {
          assert asset(x) ==> !IndexFold(step, paths, n).ok;
          assert m == pm;
        }
      } else {
        assert IndexFold(step, paths, n) == p;
      }
      FromPathsStep(asset, guidOf, paths, n, pm, m);
      if IndexFold(step, paths, n).ok {
        HasPathsStep(asset, guidOf, paths, n, pm, m);
      }
    }
  }

  /** One more path read keeps every entry traced back to a path. */
  lemma FromPathsStep(asset: string -> bool, guidOf: string -> string, paths: seq<string>, n: nat, pm: map<string, string>, m: map<string, string>)
    requires 0 < n <= |paths| && FromPaths(asset, guidOf, paths, n - 1, pm)
    requires m == pm || (asset(paths[n - 1]) && guidOf(paths[n - 1]) !in pm && m == pm[guidOf(paths[n - 1]) := paths[n - 1]])
    ensures FromPaths(asset, guidOf, paths, n, m)
  {
    var x := paths[n - 1];
    forall g | g in m
      ensures exists i :: 0 <= i < n && asset(paths[i]) && guidOf(paths[i]) == g && m[g] == paths[i]
    {
      if g in pm && m[g] == pm[g] {
        var i :| 0 <= i < n - 1 && asset(paths[i]) && guidOf(paths[i]) == g && pm[g] == paths[i];
      } else {
        assert asset(x) && guidOf(x) == g && m[g] == x;
      }
    }
  }

  /** One more path read, when it does not throw, keeps every asset read mapped from its GUID. */
  lemma HasPathsStep(asset: string -> bool, guidOf: string -> string, paths: seq<string>, n: nat, pm: map<string, string>, m: map<string, string>)
    requires 0 < n <= |paths| && HasPaths(asset, guidOf, paths, n - 1, pm)
    requires !asset(paths[n - 1]) ==> m == pm
    requires asset(paths[n - 1]) ==> guidOf(paths[n - 1]) !in pm && m == pm[guidOf(paths[n - 1]) := paths[n - 1]]
    ensures HasPaths(asset, guidOf, paths, n, m)
  {
  }

  /** `IndexFoldMaps` for the indexing loop itself. */
  lemma IndexPathsMaps(h: Host, paths: seq<string>, n: nat)
    requires n <= |paths|
    ensures FromPaths(ProjectAssets(h), h.guidOf, paths, n, IndexPaths(h, paths, n).tables.guidToPath.m)
    ensures IndexPaths(h, paths, n).ok ==> HasPaths(ProjectAssets(h), h.guidOf, paths, n, IndexPaths(h, paths, n).tables.guidToPath.m)
  {
    IndexStepSpec(h);
    IndexFoldMaps(ProjectAssets(h), h.guidOf, IndexStep(h), paths, n);
  }

  /** Two assets with the same GUID make the loop throw. */
  lemma IndexFoldDuplicateThrows(asset: string -> bool, guidOf: string -> string, step: (string, IndexTables) -> Indexing,
                                 paths: seq<string>, i: nat, j: nat, n: nat)
    requires i < j < n <= |paths| && RecordsGuids(asset, guidOf, step)
    requires asset(paths[i]) && asset(paths[j]) && guidOf(paths[i]) == guidOf(paths[j])
    ensures !IndexFold(step, paths, n).ok
  {
    var p := IndexFold(step, paths, j);
    if p.ok {
      IndexFoldMaps(asset, guidOf, step, paths, j);
      assert HasPaths(asset, guidOf, paths, j, p.tables.guidToPath.m);
      assert guidOf(paths[j]) in p.tables.guidToPath.m;
      IndexFoldKnownThrows(asset, guidOf, step, paths, j);
      IndexFoldStuck(step, paths, j + 1, n);
    } else {
      IndexFoldStuck(step, paths, j, n);
    }
  }

  /** Reading an asset whose GUID is already indexed throws. */
  lemma IndexFoldKnownThrows(asset: string -> bool, guidOf: string -> string, step: (string, IndexTables) -> Indexing,
                             paths: seq<string>, j: nat)
    requires j < |paths| && RecordsGuids(asset, guidOf, step) && asset(paths[j])
    requires guidOf(paths[j]) in IndexFold(step, paths, j).tables.guidToPath.m
    ensures !IndexFold(step, paths, j + 1).ok
  {
    var p := IndexFold(step, paths, j);
    if p.ok {
      assert !step(paths[j], p.tables).ok;
      assert IndexFold(step, paths, j + 1) == step(paths[j], p.tables);
    }
  }

  /** Two project assets with the same GUID make indexing throw: GUIDs are never silently shared. */
  lemma IndexPathsDuplicateThrows(h: Host, paths: seq<string>, i: nat, j: nat, n: nat)
    requires i < j < n <= |paths|
    requires IsProjectAsset(h, paths[i]) && IsProjectAsset(h, paths[j]) && h.guidOf(paths[i]) == h.guidOf(paths[j])
    ensures !IndexPaths(h, paths, n).ok
  {
    IndexStepSpec(h);
    IndexFoldDuplicateThrows(ProjectAssets(h), h.guidOf, IndexStep(h), paths, i, j, n);
  }

  // ----- Step 2: references -----

  /** The tables the reference scanners read, once indexing is over. */
  function ScanTables(t: IndexTables): (r: Tables)
    ensures t.Valid() ==> r.Valid()
  {
    Tables(t.guidToPath, t.resPathToGuid, t.classes.classToGuids, t.classes.classToEditor)
  }

  /** Every reference a scan of the asset `guid` stores has `guid` at one end. */
  ghost predicate TouchesFile(file: (string, string) -> Scan)
  {
    forall p: string, g: string, e: Edge {:trigger e in file(p, g).edges} :: e in file(p, g).edges ==> e.referrer == g || e.referenced == g
  }

  /** A loop over the assets of `assets`, in enumeration order, that stops at the first exception. */
  function AnalyzeFold(file: (string, string) -> Scan, assets: Dict<string>, n: nat): Scan
    requires assets.Valid() && n <= |assets.keys|
  {
    if n == 0 then NOTHING
    else
      var guid := assets.keys[n - 1];
      Then(AnalyzeFold(file, assets, n - 1), file(assets.m[guid], guid))
  }

  /** The body of the analysis loop: `ManageFile(path, guid)`. */
  function FileStep(h: Host, t: Tables): (string, string) -> Scan
    requires t.Valid()
  {
    (p, g) => FileEdges(h, p, g, t)
  }

  /** The body of the analysis loop only stores references that have the scanned asset at one end. */
  lemma FileStepTouches(h: Host, t: Tables)
    requires t.Valid()
    ensures TouchesFile(FileStep(h, t))
  {
  }

  /**
   * The analysis loop after the first `n` indexed assets, in enumeration
   * order: `ManageFile(path, guid)` for each, until one throws.
   */
  function AnalyzeAssets(h: Host, t: Tables, n: nat): Scan
    requires t.Valid() && n <= |t.guidToPath.keys|
  {
    AnalyzeFold(FileStep(h, t), t.guidToPath, n)
  }

  /** One more asset: its references appended, unless an exception already ended the loop. */
  lemma AnalyzeAssetsNext(h: Host, t: Tables, n: nat)
    requires t.Valid() && n < |t.guidToPath.keys|
    ensures AnalyzeAssets(h, t, n + 1) ==
      Then(AnalyzeAssets(h, t, n), FileEdges(h, t.guidToPath.m[t.guidToPath.keys[n]], t.guidToPath.keys[n], t))
  {
  }

  /**
   * The asset an analysis slice threw on throws again when read again, and
   * storing its references a second time changes no table.
   */
  lemma AnalysisRetry(h: Host, t: Tables, n: nat, g: Graph)
    requires t.Valid() && n < |t.guidToPath.keys|
    requires AnalyzeAssets(h, t, n).ok && !AnalyzeAssets(h, t, n + 1).ok
    ensures var guid := t.guidToPath.keys[n];
      var f := FileEdges(h, t.guidToPath.m[guid], guid, t);
      var s := AnalyzeAssets(h, t, n + 1);
      !f.ok && ApplyEdges(ApplyEdges(g, s.edges), f.edges) == ApplyEdges(g, s.edges)
  {
    var guid := t.guidToPath.keys[n];
    var f := FileEdges(h, t.guidToPath.m[guid], guid, t);
    var p := AnalyzeAssets(h, t, n);
    AnalyzeAssetsNext(h, t, n);
    ApplyEdgesAppend(g, p.edges, f.edges);
    ApplyEdgesAgain(ApplyEdges(g, p.edges), f.edges);
  }

  /** After an exception, later assets add nothing. */
  lemma {:induction false} AnalyzeFoldStuck(file: (string, string) -> Scan, assets: Dict<string>, n: nat, m: nat)
    requires assets.Valid() && n <= m <= |assets.keys| && !AnalyzeFold(file, assets, n).ok
    ensures AnalyzeFold(file, assets, m) == AnalyzeFold(file, assets, n)
    decreases m
  {
    if m > n {
      AnalyzeFoldStuck(file, assets, n, m - 1);
    }
  }

  /** `AnalyzeFoldStuck` for the analysis loop itself. */
  lemma AnalyzeAssetsStuck(h: Host, t: Tables, n: nat, m: nat)
    requires t.Valid() && n <= m <= |t.guidToPath.keys| && !AnalyzeAssets(h, t, n).ok
    ensures AnalyzeAssets(h, t, m) == AnalyzeAssets(h, t, n)
  {
    AnalyzeFoldStuck(FileStep(h, t), t.guidToPath, n, m);
  }

  /** Every reference the loop stores involves one of the assets it has read. */
  lemma {:induction false} AnalyzeFoldTouchRead(file: (string, string) -> Scan, assets: Dict<string>, n: nat)
    requires assets.Valid() && n <= |assets.keys| && TouchesFile(file)
    ensures forall e :: e in AnalyzeFold(file, assets, n).edges ==>
      e.referrer in assets.keys[..n] || e.referenced in assets.keys[..n]
  {
    if n > 0 {
      AnalyzeFoldTouchRead(file, assets, n - 1);
      assert assets.keys[..n] == assets.keys[..n - 1] + [assets.keys[n - 1]];
    }
  }

  /** Every reference the analysis stores involves an indexed asset it has read. */
  lemma AnalyzeAssetsTouchRead(h: Host, t: Tables, n: nat)
    requires t.Valid() && n <= |t.guidToPath.keys|
    ensures forall e :: e in AnalyzeAssets(h, t, n).edges ==>
      e.referrer in t.guidToPath.keys[..n] || e.referenced in t.guidToPath.keys[..n]
  {
    FileStepTouches(h, t);
    AnalyzeFoldTouchRead(FileStep(h, t), t.guidToPath, n);
  }

  /**
   * The tables the analysis builds from empty ones record each reference in
   * both directions.
   */
  lemma AnalysisSymmetric(h: Host, t: Tables, n: nat)
    requires t.Valid() && n <= |t.guidToPath.keys|
    ensures ApplyEdges(EmptyGraph(), AnalyzeAssets(h, t, n).edges).Symmetric()
    ensures ApplyEdges(EmptyGraph(), AnalyzeAssets(h, t, n).edges).Valid()
  {
    ApplyEdgesSymmetric(EmptyGraph(), AnalyzeAssets(h, t, n).edges);
    ApplyEdgesValid(EmptyGraph(), AnalyzeAssets(h, t, n).edges);
  }

  // ----- Step 3: reference chains -----

  /** The GUIDs of the open scenes, in `SceneManager` order. */
  function SceneGuids(h: Host): (gs: seq<string>)
    ensures |gs| == |h.openScenes|
    ensures forall i :: 0 <= i < |gs| ==> gs[i] == h.guidOf(h.openScenes[i])
  {
    seq(|h.openScenes|, i requires 0 <= i < |h.openScenes| => h.guidOf(h.openScenes[i]))
  }

  /** The lists of the asset-bundle keys from the `i`-th key on, concatenated in key order. */
  function BundleSeedsFrom(refs: Dict<seq<string>>, i: nat): (gs: seq<string>)
    requires refs.Valid() && i <= |refs.keys|
    ensures i == |refs.keys| ==> gs == []
    decreases |refs.keys| - i
  {
    if i == |refs.keys| then []
    else
      var k := refs.keys[i];
      (if Contains(k, ASSET_BUNDLE_FLAG) then refs.m[k] else []) + BundleSeedsFrom(refs, i + 1)
  }

  /** A GUID is among these seeds exactly when the list of an asset-bundle key from the `i`-th on holds it. */
  lemma {:induction false} BundleSeedsMembers(refs: Dict<seq<string>>, i: nat)
    requires refs.Valid() && i <= |refs.keys|
    ensures forall g :: g in BundleSeedsFrom(refs, i) <==>
      exists k :: k in refs.keys[i..] && Contains(k, ASSET_BUNDLE_FLAG) && g in refs.m[k]
    decreases |refs.keys| - i
  {
    if i < |refs.keys| {
      BundleSeedsMembers(refs, i + 1);
      assert refs.keys[i..] == [refs.keys[i]] + refs.keys[i + 1..];
    }
  }

  /** The number of asset-bundle keys from the `i`-th key on. */
  function BundleCountFrom(refs: Dict<seq<string>>, i: nat): (c: nat)
    requires i <= |refs.keys|
    ensures c <= |refs.keys| - i
    decreases |refs.keys| - i
  {
    if i == |refs.keys| then 0
    else (if Contains(refs.keys[i], ASSET_BUNDLE_FLAG) then 1 else 0) + BundleCountFrom(refs, i + 1)
  }

  /** Where the walk starts: the open scenes, then every asset of every asset bundle. */
  function Seeds(h: Host, refs: Dict<seq<string>>): (gs: seq<string>)
    requires refs.Valid()
    ensures |h.openScenes| <= |gs| && gs[..|h.openScenes|] == SceneGuids(h)
  {
    var gs := SceneGuids(h) + BundleSeedsFrom(refs, 0);
    assert gs[..|h.openScenes|] == SceneGuids(h);
    gs
  }

  /** The seeds are the GUIDs of the open scenes and the assets listed under an asset-bundle key. */
  lemma SeedsMembers(h: Host, refs: Dict<seq<string>>)
    requires refs.Valid()
    ensures forall g :: g in Seeds(h, refs) <==>
      (exists i :: 0 <= i < |h.openScenes| && g == h.guidOf(h.openScenes[i]))
      || (exists k :: k in refs.m && Contains(k, ASSET_BUNDLE_FLAG) && g in refs.m[k])
  {
    BundleSeedsMembers(refs, 0);
    assert refs.keys[0..] == refs.keys;
    forall g | g in SceneGuids(h) ensures exists i :: 0 <= i < |h.openScenes| && g == h.guidOf(h.openScenes[i]) {
      var i :| 0 <= i < |SceneGuids(h)| && SceneGuids(h)[i] == g;
    }
  }

  /** Every indexed asset starts unmarked, in index order. */
  function InitialStatus(guidToPath: Dict<string>): (d: Dict<bool>)
    requires guidToPath.Valid()
    ensures d.Valid() && d.keys == guidToPath.keys
    ensures forall k :: k in d.m <==> k in guidToPath.m
    ensures forall k :: k in d.m ==> !d.m[k]
  {
    Dict(guidToPath.keys, map k | k in guidToPath.m :: false)
  }

  /** The walk `SyncRefAnalysis` starts. */
  function WalkStart(h: Host, guidToPath: Dict<string>, refs: Dict<seq<string>>): Walk
    requires guidToPath.Valid() && refs.Valid()
  {
    Walk(InitialStatus(guidToPath), Seeds(h, refs), 0)
  }

  /** A number of iterations after which the walk is sure to be over. */
  ghost function WalkBound(h: Host, refs: Dict<seq<string>>): nat
    requires refs.Valid()
  {
    |Seeds(h, refs)| + |AllTargets(refs)|
  }

  /** The walk run to its end. */
  ghost function WalkEnd(h: Host, guidToPath: Dict<string>, refs: Dict<seq<string>>): Walk
    requires guidToPath.Valid() && refs.Valid()
  {
    Run(WalkStart(h, guidToPath, refs), refs, WalkBound(h, refs))
  }

  /** The walk from the start keeps its invariant after any number of iterations. */
  lemma WalkFromStart(h: Host, guidToPath: Dict<string>, refs: Dict<seq<string>>, n: nat)
    requires guidToPath.Valid() && refs.Valid()
    ensures WalkInv(Run(WalkStart(h, guidToPath, refs), refs, n), refs, Seeds(h, refs), InitialStatus(guidToPath))
  {
    WalkInvInit(refs, Seeds(h, refs), InitialStatus(guidToPath));
    RunKeepsInv(WalkStart(h, guidToPath, refs), refs, Seeds(h, refs), InitialStatus(guidToPath), n);
  }

  /** The worklist never outgrows `WalkBound`, and the marks stay a well-formed dictionary. */
  lemma WalkWithinBound(h: Host, guidToPath: Dict<string>, refs: Dict<seq<string>>, n: nat)
    requires guidToPath.Valid() && refs.Valid()
    ensures var w := Run(WalkStart(h, guidToPath, refs), refs, n);
      w.index <= |w.list| <= WalkBound(h, refs) && w.status.Valid()
  {
    WalkFromStart(h, guidToPath, refs, n);
    ListBound(Run(WalkStart(h, guidToPath, refs), refs, n), refs, Seeds(h, refs), InitialStatus(guidToPath));
  }

  /** Any run of the walk from the start that has reached its end has the same result as `WalkEnd`. */
  lemma WalkEndUnique(h: Host, guidToPath: Dict<string>, refs: Dict<seq<string>>, n: nat)
    requires guidToPath.Valid() && refs.Valid()
    requires Run(WalkStart(h, guidToPath, refs), refs, n).Done()
    ensures Run(WalkStart(h, guidToPath, refs), refs, n) == WalkEnd(h, guidToPath, refs)
  {
    var w := WalkStart(h, guidToPath, refs);
    var b := WalkBound(h, refs);
    WalkInvInit(refs, Seeds(h, refs), InitialStatus(guidToPath));
    RunTerminates(w, refs, Seeds(h, refs), InitialStatus(guidToPath), b);
    if n <= b {
      RunDone(w, refs, n, b);
    } else {
      RunDone(w, refs, b, n);
    }
  }

  /**
   * The outcome of step 3: once the walk is over, every indexed asset has a
   * mark, and it is set exactly when a chain of references leads to the
   * asset from an open scene or an asset bundle.
   */
  lemma RefAnalysisMarksReachable(h: Host, guidToPath: Dict<string>, refs: Dict<seq<string>>, g: string)
    requires guidToPath.Valid() && refs.Valid() && g in guidToPath.m
    ensures var w := WalkEnd(h, guidToPath, refs);
      w.Done() && g in w.status.m && (w.status.m[g] <==> Reachable(refs, Seeds(h, refs), g))
  {
    var w := WalkStart(h, guidToPath, refs);
    WalkInvInit(refs, Seeds(h, refs), InitialStatus(guidToPath));
    RunTerminates(w, refs, Seeds(h, refs), InitialStatus(guidToPath), WalkBound(h, refs));
    WalkFromStart(h, guidToPath, refs, WalkBound(h, refs));
    WalkDoneMarksReachable(WalkEnd(h, guidToPath, refs), refs, Seeds(h, refs), InitialStatus(guidToPath), g);
  }
}
