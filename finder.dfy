/**
 * The editor window's analysis state and the methods that drive it: the
 * shared dictionaries, the phase status with its cursor `progressIndex`,
 * the cancel flag, and the synchronous and time-sliced run of each of the
 * three steps. Each method is proved against the step functions of
 * `Phases`, so a time-sliced run that is resumed any number of times ends
 * with the same tables as the one-shot run.
 */
module Finder {
  import opened Strings
  import opened Collections
  import opened References
  import AssetTypes
  import opened Project
  import ClassNames
  import opened Scanners
  import opened Reachability
  import opened Phases
  import opened ResultTables

  /** A reference that may be `null`. */
  datatype Option<T> = None | Some(value: T)

  /** Where the analysis is: before it, in the one-shot run, in one of the three time-sliced steps, or done. */
  datatype AnalysisStatus = Before | RunningSync | AsyncAssetIndexing | AsyncAnalysis | AsyncRefAnalysis | Results

  /**
   * One half of `AddAssetReference`: a missing list is created empty, then
   * `x` is appended when the list does not hold it yet.
   */
  method AddToListInPlace(d: Dict<seq<string>>, k: string, x: string) returns (r: Dict<seq<string>>)
    ensures r == AddToList(d, k, x)
  {
    r := d;
    if k !in r.m {
      r := r.Add(k, []);
    }
    if x !in r.m[k] {
      assert k !in d.m ==> r.m[k] + [x] == [x];
      r := r.Set(k, r.m[k] + [x]);
    }
  }

  class UnusedAssetsFinder {
    /** The tables that are published and saved. */
    const results: AnalysisResults
    var resPathToGuid: Dict<string>
    var classToGuids: Dict<seq<string>>
    var classToEditor: Dict<string>
    var guidToReferences: Dict<seq<string>>
    var status: AnalysisStatus
    var progressIndex: nat
    var cancelFlag: bool
    /** The asset paths of the time-sliced indexing, fetched on its first slice (`null` before). */
    var asyncAssetPaths: Option<seq<string>>
    /** The number of seed-collecting iterations of the time-sliced reference-chain step. */
    var asyncMaxIndex: nat
    /** The worklist of the time-sliced reference-chain step. */
    var asyncAssetToValidate: seq<string>

    ghost predicate Valid()
      reads this, results
    {
      results.Valid() && Index().Valid() && Store().Valid()
    }

    /** The object is well formed when its parts are, whatever the heap they were read from. */
    lemma ValidFromParts(ix: IndexTables, rs: Dict<bool>)
      requires ix.Valid() && Index() == ix && rs.Valid() && results.guidToRefStatus == rs && Store().Valid()
      ensures Valid()
    {
    }

    /** The same, from the fields one by one: the tables read back are the given ones. */
    lemma ValidFromFields(ix: IndexTables, g: Graph)
      requires ix.Valid() && g.Valid() && results.guidToRefStatus.Valid()
      requires results.guidToPath == ix.guidToPath && resPathToGuid == ix.resPathToGuid
      requires classToGuids == ix.classes.classToGuids && classToEditor == ix.classes.classToEditor
      requires guidToReferences == g.refs && results.guidToSources == g.sources
      ensures Valid() && Index() == ix && Store() == g
    {
    }

    /** What indexing fills. */
    function Index(): IndexTables
      reads this, results
    {
      IndexTables(results.guidToPath, resPathToGuid, ClassNames.ClassTables(classToGuids, classToEditor))
    }

    /** The reference store: the forward and the reverse table. */
    function Store(): Graph
      reads this, results
    {
      Graph(guidToReferences, results.guidToSources)
    }

    /** What the reference scanners read. */
    function Tables(): Tables
      reads this, results
    {
      ScanTables(Index())
    }

    constructor ()
      ensures Valid() && fresh(results)
      ensures Index() == EmptyIndex() && Store() == EmptyGraph() && results.guidToRefStatus == EmptyDict()
      ensures status == Before && progressIndex == 0 && !cancelFlag && asyncAssetPaths == None
    {
      results := new AnalysisResults();
      resPathToGuid := EmptyDict();
      classToGuids := EmptyDict();
      classToEditor := EmptyDict();
      guidToReferences := EmptyDict();
      status := Before;
      progressIndex := 0;
      cancelFlag := false;
      asyncAssetPaths := None;
      asyncMaxIndex := 0;
      asyncAssetToValidate := [];
    }

    // ----- The reference store -----

    /**
     * `AddAssetReference(guid, refGuid)`: `refGuid` joins the forward list of
     * `guid` and `guid` the reverse list of `refGuid`, each list created
     * when missing and never given a repeat.
     */
    method AddAssetReference(guid: string, refGuid: string)
      modifies this`guidToReferences, results`guidToSources
      ensures Store() == AddEdge(old(Store()), Edge(guid, refGuid))
    {
      guidToReferences := AddToListInPlace(guidToReferences, guid, refGuid);
      results.guidToSources := AddToListInPlace(results.guidToSources, refGuid, guid);
    }

    /** A `foreach` that calls `AddAssetReference` for each reference in turn. */
    method AddAssetReferences(es: seq<Edge>)
      modifies this`guidToReferences, results`guidToSources
      ensures Store() == ApplyEdges(old(Store()), es)
    {
      var i: nat := 0;
      while i < |es|
        invariant 0 <= i <= |es|
        invariant Store() == ApplyEdges(old(Store()), es[..i])
      {
        AddAssetReference(es[i].referrer, es[i].referenced);
        PrefixNext(es, i);
        i := i + 1;
      }
      assert es[..i] == es;
    }

    // ----- Step 1: indexing -----

    /**
     * `ExtractClassNames(guid, path)`: for each cut of the script text, an
     * accepted cut registers its class name for `guid`; a `CustomEditor`
     * lead-in then records the inspected type, which throws when the type
     * cannot be read or already has an editor.
     */
    method ExtractClassNames(h: Host, guid: string, path: string) returns (ok: bool)
      modifies this`classToGuids, this`classToEditor
      ensures ClassNames.Indexed(Index().classes, ok) == ClassNames.ExtractClassNames(h.text(path), guid, old(Index().classes))
    {
      var cuts := ClassNames.ReadCuts(Split(h.text(path), ClassNames.CLASS_KEYWORD));
      ok := IndexCuts(cuts, guid);
    }

    /** The loop of `ExtractClassNames` over the cuts of the script text. */
    method IndexCuts(cuts: seq<ClassNames.Cut>, guid: string) returns (ok: bool)
      modifies this`classToGuids, this`classToEditor
      ensures ClassNames.Indexed(Index().classes, ok) == ClassNames.IndexCuts(cuts, guid, old(Index().classes), |cuts|)
    {
      var i: nat := 0;
      while i < |cuts|
        invariant 0 <= i <= |cuts|
        invariant ClassNames.IndexCuts(cuts, guid, old(Index().classes), i) == ClassNames.Indexed(Index().classes, true)
      {
        var c := cuts[i];
        if c.accepted {
          classToGuids := AddToListInPlace(classToGuids, c.name, guid);
          if c.editor {
            if c.inspected.Throws? || c.inspected.value in classToEditor.m {
              ClassNames.IndexCutsStuck(cuts, guid, old(Index().classes), i + 1, |cuts|);
              return false;
            }
            classToEditor := classToEditor.Add(c.inspected.value, c.name);
          }
        }
        i := i + 1;
      }
      return true;
    }

    /**
     * The body of both indexing loops for one path: a project asset is
     * added under its GUID (a GUID already there throws), under its path
     * too when the path contains `Resources` (a path already there throws),
     * then classified (which may throw), and a script's classes are indexed.
     */
    method IndexAssetPath(h: Host, path: string) returns (ok: bool)
      modifies results`guidToPath, this`resPathToGuid, this`classToGuids, this`classToEditor
      ensures Indexing(Index(), ok) == IndexAsset(h, path, old(Index()))
    {
      if !IsProjectAsset(h, path) {
        return true;
      }
      var guid := h.guidOf(path);
      if guid in results.guidToPath.m {
        return false;
      }
      results.guidToPath := results.guidToPath.Add(guid, path);
      if Contains(path, RESOURCES_MARK) {
        if path in resPathToGuid.m {
          return false;
        }
        resPathToGuid := resPathToGuid.Add(path, guid);
      }
      var kind := KindOf(h, path);
      if kind.Throws? {
        return false;
      }
      if kind.value == AssetTypes.Script || kind.value == AssetTypes.EditorTool {
        ok := ExtractClassNames(h, guid, path);
      } else {
        ok := true;
      }
    }

    /**
     * The next iteration of an indexing loop: the path under the cursor is
     * indexed and the cursor moves past it, or stays on it when it throws.
     */
    method IndexNextPath(h: Host, paths: seq<string>) returns (ok: bool)
      requires 0 <= progressIndex < |paths| && IndexPaths(h, paths, progressIndex) == Indexing(Index(), true)
      modifies this`progressIndex, results`guidToPath, this`resPathToGuid, this`classToGuids, this`classToEditor
      ensures IndexPaths(h, paths, old(progressIndex) + 1) == Indexing(Index(), ok)
      ensures progressIndex == if ok then old(progressIndex) + 1 else old(progressIndex)
    {
      IndexPathsNext(h, paths, progressIndex);
      ok := IndexAssetPath(h, paths[progressIndex]);
      if ok {
        progressIndex := progressIndex + 1;
      }
    }

    /**
     * `SyncAssetsIndexing`: fresh tables, then every path of the asset
     * database in order; an exception ends the whole run.
     */
    method SyncAssetsIndexing(h: Host) returns (ok: bool)
      requires Valid()
      modifies this`status, this`progressIndex, results`guidToPath, this`resPathToGuid, this`classToGuids, this`classToEditor
      ensures Valid() && status == RunningSync
      ensures Indexing(Index(), ok) == IndexPaths(h, h.assetPaths, |h.assetPaths|)
      ensures ok ==> progressIndex == |h.assetPaths|
    {
      ghost var rs, g := results.guidToRefStatus, Store();
      status := RunningSync;
      results.guidToPath := EmptyDict();
      resPathToGuid := EmptyDict();
      classToGuids := EmptyDict();
      classToEditor := EmptyDict();
      progressIndex := 0;
      ok := IndexAllPaths(h, h.assetPaths);
      ghost var ix := Index();
      if !ok {
        ghost var n := progressIndex + 1;
        assert n <= |h.assetPaths| && IndexPaths(h, h.assetPaths, n) == Indexing(ix, false);
        IndexPathsStuck(h, h.assetPaths, n, |h.assetPaths|);
      }
      ValidFromFields(ix, g);
    }

    /** The loop of `SyncAssetsIndexing`: every path from the cursor on, until one throws. */
    method IndexAllPaths(h: Host, paths: seq<string>) returns (ok: bool)
      requires 0 <= progressIndex <= |paths| && IndexPaths(h, paths, progressIndex) == Indexing(Index(), true)
      modifies this`progressIndex, results`guidToPath, this`resPathToGuid, this`classToGuids, this`classToEditor
      ensures 0 <= progressIndex <= |paths|
      ensures !ok ==> progressIndex < |paths| && IndexPaths(h, paths, progressIndex + 1) == Indexing(Index(), false)
      ensures ok ==> progressIndex == |paths| && IndexPaths(h, paths, progressIndex) == Indexing(Index(), true)
    {
      while progressIndex < |paths|
        invariant 0 <= progressIndex <= |paths|
        invariant IndexPaths(h, paths, progressIndex) == Indexing(Index(), true)
      {
        ok := IndexNextPath(h, paths);
        if !ok {
          return false;
        }
      }
      return true;
    }

    /** The paths the time-sliced indexing walks: the ones it fetched, or the database's when it has not fetched any yet. */
    function AsyncPaths(h: Host): seq<string>
      reads this
    {
      if asyncAssetPaths.Some? then asyncAssetPaths.value else h.assetPaths
    }

    /** Between two slices of indexing: the tables are those of the first `progressIndex` paths. */
    ghost predicate IndexingAt(h: Host)
      reads this, results
    {
      0 <= progressIndex <= |AsyncPaths(h)| && IndexPaths(h, AsyncPaths(h), progressIndex) == Indexing(Index(), true)
    }

    /** `StartAsyncIndexing`: clear the flag and the tables, rewind the cursor, enter the first time-sliced step. */
    method StartAsyncIndexing()
      requires Valid()
      modifies this`cancelFlag, this`status, this`progressIndex, results`guidToPath, this`resPathToGuid
      modifies this`classToGuids, this`classToEditor
      ensures Valid() && !cancelFlag && status == AnalysisStatus.AsyncAssetIndexing
      ensures Index() == EmptyIndex() && progressIndex == 0
      ensures forall h: Host :: IndexingAt(h)
    {
      cancelFlag := false;
      results.guidToPath := EmptyDict();
      resPathToGuid := EmptyDict();
      classToGuids := EmptyDict();
      classToEditor := EmptyDict();
      progressIndex := 0;
      status := AnalysisStatus.AsyncAssetIndexing;
    }

    /**
     * One slice of `AsyncAssetIndexing`. The clock is replaced by
     * `stopAfter`: the slice ends once that many paths are done. A raised
     * flag cancels before anything is done; an exception leaves the cursor
     * on the path that threw. The step completes only when a slice finds
     * the cursor at the end, and then the analysis step starts from empty
     * reference tables.
     */
    method AsyncAssetIndexing(h: Host, stopAfter: nat) returns (ok: bool)
      requires Valid() && stopAfter >= 1 && IndexingAt(h)
      modifies this`cancelFlag, this`status, this`progressIndex, this`asyncAssetPaths
      modifies results`guidToPath, this`resPathToGuid, this`classToGuids, this`classToEditor
      modifies this`guidToReferences, results`guidToSources
      ensures Valid()
      ensures old(cancelFlag) ==>
        ok && status == Before && progressIndex == old(progressIndex)
        && Index() == old(Index()) && Store() == old(Store()) && asyncAssetPaths == old(asyncAssetPaths)
      ensures !old(cancelFlag) ==> asyncAssetPaths == Some(old(AsyncPaths(h)))
      ensures !old(cancelFlag) && !ok ==>
        status == old(status) && old(progressIndex) <= progressIndex < |AsyncPaths(h)|
        && IndexPaths(h, AsyncPaths(h), progressIndex + 1) == Indexing(Index(), false)
      ensures !old(cancelFlag) && ok && old(progressIndex) + stopAfter <= |AsyncPaths(h)| ==>
        status == old(status) && progressIndex == old(progressIndex) + stopAfter && IndexingAt(h)
      ensures !old(cancelFlag) && ok && old(progressIndex) + stopAfter > |AsyncPaths(h)| ==>
        status == AnalysisStatus.AsyncAnalysis && progressIndex == 0 && Store() == EmptyGraph()
        && IndexPaths(h, AsyncPaths(h), |AsyncPaths(h)|) == Indexing(Index(), true)
    {
      var interrupted := CheckInterruption();
      if interrupted {
        return true;
      }
      ok := ResumeIndexing(h, stopAfter);
    }

    /** `AsyncAssetIndexing` past the flag check: fetch the paths once, run a slice, and move on when the slice reached the end. */
    method ResumeIndexing(h: Host, stopAfter: nat) returns (ok: bool)
      requires Valid() && stopAfter >= 1 && IndexingAt(h)
      modifies this`status, this`progressIndex, this`asyncAssetPaths
      modifies results`guidToPath, this`resPathToGuid, this`classToGuids, this`classToEditor
      modifies this`guidToReferences, results`guidToSources
      ensures Valid() && asyncAssetPaths == Some(old(AsyncPaths(h)))
      ensures !ok ==>
        status == old(status) && old(progressIndex) <= progressIndex < |AsyncPaths(h)|
        && IndexPaths(h, AsyncPaths(h), progressIndex + 1) == Indexing(Index(), false)
      ensures ok && old(progressIndex) + stopAfter <= |AsyncPaths(h)| ==>
        status == old(status) && progressIndex == old(progressIndex) + stopAfter && IndexingAt(h)
      ensures ok && old(progressIndex) + stopAfter > |AsyncPaths(h)| ==>
        status == AnalysisStatus.AsyncAnalysis && progressIndex == 0 && Store() == EmptyGraph()
        && IndexPaths(h, AsyncPaths(h), |AsyncPaths(h)|) == Indexing(Index(), true)
    {
      if asyncAssetPaths.None? {
        asyncAssetPaths := Some(h.assetPaths);
      }
      var paths := asyncAssetPaths.value;
      var clockFired;
      ok, clockFired := IndexSlice(h, paths, stopAfter);
      if !ok || clockFired {
        return;
      }
      StartAsyncAnalysis();
    }

    /** The end of the time-sliced indexing: the analysis step comes next, from empty reference tables. */
    method StartAsyncAnalysis()
      requires Valid()
      modifies this`status, this`progressIndex, this`guidToReferences, results`guidToSources
      ensures Valid() && Index() == old(Index())
      ensures status == AnalysisStatus.AsyncAnalysis && progressIndex == 0 && Store() == EmptyGraph()
    {
      status := AnalysisStatus.AsyncAnalysis;
      guidToReferences := EmptyDict();
      results.guidToSources := EmptyDict();
      progressIndex := 0;
    }

    /**
     * The loop of one indexing slice: paths from the cursor on until the
     * end, an exception, or the clock firing after `stopAfter` paths.
     */
    method IndexSlice(h: Host, paths: seq<string>, stopAfter: nat) returns (ok: bool, clockFired: bool)
      requires stopAfter >= 1
      requires 0 <= progressIndex <= |paths| && IndexPaths(h, paths, progressIndex) == Indexing(Index(), true)
      modifies this`progressIndex, results`guidToPath, this`resPathToGuid, this`classToGuids, this`classToEditor
      ensures old(progressIndex) <= progressIndex <= |paths| && Index().Valid()
      ensures !ok ==> progressIndex < |paths| && IndexPaths(h, paths, progressIndex + 1) == Indexing(Index(), false)
      ensures ok ==> IndexPaths(h, paths, progressIndex) == Indexing(Index(), true)
      ensures ok ==> (clockFired <==> old(progressIndex) + stopAfter <= |paths|)
      ensures ok ==> progressIndex == if clockFired then old(progressIndex) + stopAfter else |paths|
    {
      var done: nat := 0;
      while progressIndex < |paths|
        invariant old(progressIndex) <= progressIndex <= |paths|
        invariant IndexPaths(h, paths, progressIndex) == Indexing(Index(), true)
        invariant progressIndex == old(progressIndex) + done && done < stopAfter
      {
        ok := IndexNextPath(h, paths);
        if !ok {
          return false, false;
        }
        done := done + 1;
        if done >= stopAfter {
          return true, true;
        }
      }
      return true, false;
    }

    // ----- Step 2: references -----

    /**
     * The first loop of `ManageScriptFile`: the classes the script declares,
     * in key order, and for each one with a custom editor a reference to
     * every GUID of the editor class (a missing editor entry throws).
     */
    method LinkCustomEditors(guid: string) returns (declared: seq<string>, ok: bool)
      requires classToGuids.Valid()
      modifies this`guidToReferences, results`guidToSources
      ensures declared == DeclaredClasses(classToGuids, guid)
      ensures var s := EditorEdgesFrom(classToGuids, classToEditor, guid, 0);
        Store() == ApplyEdges(old(Store()), s.edges) && ok == s.ok
    {
      var ct, ce := classToGuids, classToEditor;
      declared := [];
      ghost var acc := NOTHING;
      var i: nat := 0;
      while i < |ct.keys|
        invariant 0 <= i <= |ct.keys|
        invariant acc.ok && Store() == ApplyEdges(old(Store()), acc.edges)
        invariant Then(acc, EditorEdgesFrom(ct, ce, guid, i)) == EditorEdgesFrom(ct, ce, guid, 0)
        invariant declared + DeclaredFrom(ct, guid, i) == DeclaredClasses(ct, guid)
      {
        var k := ct.keys[i];
        DeclaredFromNext(ct, guid, i, declared);
        if guid in ct.m[k] {
          declared := declared + [k];
          if k in ce.m {
            if ce.m[k] !in ct.m {
              AppendEmpty(acc.edges);
              return declared + DeclaredFrom(ct, guid, i + 1), false;
            }
            var es := Targets(guid, ct.m[ce.m[k]]);
            AddAssetReferences(es);
            ApplyEdgesAppend(old(Store()), acc.edges, es);
            ThenAssociative(acc, Scan(es, true), EditorEdgesFrom(ct, ce, guid, i + 1));
            acc := Then(acc, Scan(es, true));
          }
        }
        i := i + 1;
      }
      AppendEmpty(acc.edges);
      return declared, true;
    }

    /**
     * The line loop of `ManageScriptFile`, for the per-line scanner `scan`
     * and the block-comment update `flag`: each line is scanned with the
     * flag left by the lines before it, and its references are stored as
     * they are found; an exception ends the loop.
     */
    method ScanScriptLines(lines: seq<string>, scan: (string, bool) -> Scan, flag: (string, bool) -> bool) returns (ok: bool)
      modifies this`guidToReferences, results`guidToSources
      ensures var r := LineFold(scan, flag, lines, |lines|);
        Store() == ApplyEdges(old(Store()), r.edges) && ok == r.ok
    {
      var inComment := false;
      var i: nat := 0;
      while i < |lines|
        invariant i <= |lines|
        invariant var r := LineFold(scan, flag, lines, i);
          r.ok && r.inComment == inComment && Store() == ApplyEdges(old(Store()), r.edges)
      {
        var s := scan(lines[i], inComment);
        AddAssetReferences(s.edges);
        ApplyEdgesAppend(old(Store()), LineFold(scan, flag, lines, i).edges, s.edges);
        if !s.ok {
          LineFoldStuck(scan, flag, lines, i + 1, |lines|);
          return false;
        }
        inComment := flag(lines[i], inComment);
        i := i + 1;
      }
      return true;
    }

    /**
     * `ManageScriptFile(guid, path)`: the custom-editor links, then the
     * class-name and `Resources.Load` references of every code line.
     */
    method ManageScriptFile(h: Host, guid: string, path: string) returns (ok: bool)
      requires classToGuids.Valid() && resPathToGuid.Valid()
      modifies this`guidToReferences, results`guidToSources
      ensures var s := ScriptEdges(h.lines(path), guid, classToGuids, classToEditor, resPathToGuid);
        Store() == ApplyEdges(old(Store()), s.edges) && ok == s.ok
    {
      var declared;
      declared, ok := LinkCustomEditors(guid);
      if !ok {
        return false;
      }
      ghost var editors := EditorEdgesFrom(classToGuids, classToEditor, guid, 0);
      var ctx := ScriptContext(guid, classToGuids, declared, resPathToGuid);
      ok := ScanScriptLines(h.lines(path), LineScanner(ctx), NextInComment);
      ApplyEdgesAppend(old(Store()), editors.edges, ScanLines(h.lines(path), |h.lines(path)|, ctx).edges);
    }

    /**
     * The next iteration of an analysis loop: the asset under the cursor,
     * in enumeration order, is scanned and the cursor moves past it, or
     * stays on it when the scan throws.
     */
    method AnalyzeNextAsset(h: Host, ghost t: Tables) returns (ok: bool)
      requires t.Valid() && t == Tables() && 0 <= progressIndex < |t.guidToPath.keys|
      requires var s := AnalyzeAssets(h, t, progressIndex); s.ok && Store() == ApplyEdges(EmptyGraph(), s.edges)
      modifies this`progressIndex, this`guidToReferences, results`guidToSources
      ensures var s := AnalyzeAssets(h, t, old(progressIndex) + 1);
        Store() == ApplyEdges(EmptyGraph(), s.edges) && ok == s.ok
      ensures progressIndex == if ok then old(progressIndex) + 1 else old(progressIndex)
    {
      var guid := results.guidToPath.keys[progressIndex];
      ghost var before := AnalyzeAssets(h, t, progressIndex);
      AnalyzeAssetsNext(h, t, progressIndex);
      ok := ManageFile(h, results.guidToPath.m[guid], guid, t);
      ApplyEdgesAppend(EmptyGraph(), before.edges, FileEdges(h, t.guidToPath.m[guid], guid, t).edges);
      if ok {
        progressIndex := progressIndex + 1;
      }
    }

    /**
     * `SyncAnalysis`: fresh reference tables, then `ManageFile` for every
     * indexed asset in enumeration order; an exception ends the whole run.
     */
    method SyncAnalysis(h: Host) returns (ok: bool)
      requires Valid()
      modifies this`progressIndex, this`guidToReferences, results`guidToSources
      ensures Valid() && Index() == old(Index())
      ensures var s := AnalyzeAssets(h, Tables(), |results.guidToPath.keys|);
        Store() == ApplyEdges(EmptyGraph(), s.edges) && ok == s.ok
    {
      ghost var t, ix, rs := Tables(), Index(), results.guidToRefStatus;
      guidToReferences := EmptyDict();
      results.guidToSources := EmptyDict();
      progressIndex := 0;
      ok := AnalyzeAll(h, t);
      if ok {
        ValidAfterAnalysis(h, t, |t.guidToPath.keys|, ix, rs);
      } else {
        ThrownAnalysisIsFinal(h, t, progressIndex + 1, ix, rs);
      }
    }

    /** The loop of `SyncAnalysis`: every asset from the cursor on, until one throws. */
    method AnalyzeAll(h: Host, ghost t: Tables) returns (ok: bool)
      requires t.Valid() && t == Tables() && AnalysisAt(h)
      modifies this`progressIndex, this`guidToReferences, results`guidToSources
      ensures t == Tables()
      ensures !ok ==> AnalysisThrewAt(h)
      ensures ok ==> progressIndex == |t.guidToPath.keys| && AnalysisAt(h)
    {
      while progressIndex < |results.guidToPath.keys|
        invariant t == Tables() && AnalysisAt(h)
      {
        ok := AnalyzeNextAsset(h, t);
        if !ok {
          return;
        }
      }
      ok := true;
    }

    /** Once an asset has thrown, the reference tables are those of the whole run, which failed. */
    lemma ThrownAnalysisIsFinal(h: Host, t: Tables, n: nat, ix: IndexTables, rs: Dict<bool>)
      requires t.Valid() && t == Tables() && n <= |t.guidToPath.keys|
      requires !AnalyzeAssets(h, t, n).ok && Store() == ApplyEdges(EmptyGraph(), AnalyzeAssets(h, t, n).edges)
      requires ix.Valid() && Index() == ix && rs.Valid() && results.guidToRefStatus == rs
      ensures Valid()
      ensures var s := AnalyzeAssets(h, Tables(), |results.guidToPath.keys|);
        Store() == ApplyEdges(EmptyGraph(), s.edges) && !s.ok
    {
      AnalyzeAssetsStuck(h, t, n, |t.guidToPath.keys|);
      ValidAfterAnalysis(h, t, n, ix, rs);
    }

    /** Between two slices of the analysis: the reference tables are those of the first `progressIndex` assets. */
    ghost predicate AnalysisAt(h: Host)
      reads this, results
    {
      && Tables().Valid()
      && 0 <= progressIndex <= |results.guidToPath.keys|
      && var s := AnalyzeAssets(h, Tables(), progressIndex);
        s.ok && Store() == ApplyEdges(EmptyGraph(), s.edges)
    }

    /** The analysis threw on the asset under the cursor: the reference tables are those of the assets up to and including it. */
    ghost predicate AnalysisThrewAt(h: Host)
      reads this, results
    {
      && Tables().Valid()
      && progressIndex < |results.guidToPath.keys|
      && var s := AnalyzeAssets(h, Tables(), progressIndex + 1);
        !s.ok && Store() == ApplyEdges(EmptyGraph(), s.edges)
    }

    /**
     * One slice of `AsyncAnalysis`, with the clock replaced by `stopAfter`
     * as in `AsyncAssetIndexing`. The step completes only when a slice finds
     * the cursor at the end; the reference-chain step then starts with every
     * indexed asset unmarked.
     */
    method AsyncAnalysis(h: Host, stopAfter: nat) returns (ok: bool)
      requires Valid() && stopAfter >= 1 && AnalysisAt(h)
      modifies this`cancelFlag, this`status, this`progressIndex
      modifies this`guidToReferences, results`guidToSources, results`guidToRefStatus
      ensures Valid() && Index() == old(Index())
      ensures old(cancelFlag) ==> ok && status == Before && progressIndex == old(progressIndex) && Store() == old(Store())
      ensures !old(cancelFlag) && !ok ==> status == old(status) && old(progressIndex) <= progressIndex && AnalysisThrewAt(h)
      ensures !old(cancelFlag) && ok && old(progressIndex) + stopAfter <= |results.guidToPath.keys| ==>
        status == old(status) && progressIndex == old(progressIndex) + stopAfter && AnalysisAt(h)
      ensures !old(cancelFlag) && ok && old(progressIndex) + stopAfter > |results.guidToPath.keys| ==>
        status == AnalysisStatus.AsyncRefAnalysis && progressIndex == 0
        && results.guidToRefStatus == InitialStatus(results.guidToPath)
        && Store() == ApplyEdges(EmptyGraph(), AnalyzeAssets(h, Tables(), |results.guidToPath.keys|).edges)
    {
      var interrupted := CheckInterruption();
      if interrupted {
        return true;
      }
      ok := ResumeAnalysis(h, stopAfter);
    }

    /** `AsyncAnalysis` past the flag check: run a slice, and move on when the slice reached the end. */
    method ResumeAnalysis(h: Host, stopAfter: nat) returns (ok: bool)
      requires Valid() && stopAfter >= 1 && AnalysisAt(h)
      modifies this`status, this`progressIndex
      modifies this`guidToReferences, results`guidToSources, results`guidToRefStatus
      ensures Valid() && Index() == old(Index())
      ensures !ok ==> status == old(status) && old(progressIndex) <= progressIndex && AnalysisThrewAt(h)
      ensures ok && old(progressIndex) + stopAfter <= |results.guidToPath.keys| ==>
        status == old(status) && progressIndex == old(progressIndex) + stopAfter && AnalysisAt(h)
      ensures ok && old(progressIndex) + stopAfter > |results.guidToPath.keys| ==>
        status == AnalysisStatus.AsyncRefAnalysis && progressIndex == 0
        && results.guidToRefStatus == InitialStatus(results.guidToPath)
        && Store() == ApplyEdges(EmptyGraph(), AnalyzeAssets(h, Tables(), |results.guidToPath.keys|).edges)
    {
      ghost var t, ix, rs := Tables(), Index(), results.guidToRefStatus;
      var clockFired;
      ok, clockFired := AnalysisSlice(h, stopAfter, t);
      ValidAfterAnalysis(h, t, if ok then progressIndex else progressIndex + 1, ix, rs);
      if ok && !clockFired {
        StartAsyncRefAnalysis();
      }
    }

    /** The tables stored by any prefix of the analysis keep the object well formed. */
    lemma ValidAfterAnalysis(h: Host, t: Tables, n: nat, ix: IndexTables, rs: Dict<bool>)
      requires t.Valid() && n <= |t.guidToPath.keys| && Store() == ApplyEdges(EmptyGraph(), AnalyzeAssets(h, t, n).edges)
      requires ix.Valid() && Index() == ix && rs.Valid() && results.guidToRefStatus == rs
      ensures Valid()
    {
      AnalysisSymmetric(h, t, n);
      ValidFromParts(ix, rs);
    }

    /** The end of the analysis step: the reference-chain step starts with every indexed asset unmarked. */
    method StartAsyncRefAnalysis()
      requires Valid()
      modifies this`status, this`progressIndex, results`guidToRefStatus
      ensures Valid() && Index() == old(Index()) && Store() == old(Store())
      ensures status == AnalysisStatus.AsyncRefAnalysis && progressIndex == 0
      ensures results.guidToRefStatus == InitialStatus(results.guidToPath)
    {
      status := AnalysisStatus.AsyncRefAnalysis;
      InitRefStatus();
      progressIndex := 0;
    }

    /**
     * The loop of one analysis slice: assets from the cursor on until the
     * end, an exception, or the clock firing after `stopAfter` assets.
     */
    method AnalysisSlice(h: Host, stopAfter: nat, ghost t: Tables) returns (ok: bool, clockFired: bool)
      requires stopAfter >= 1 && t.Valid() && t == Tables() && 0 <= progressIndex <= |t.guidToPath.keys|
      requires var s := AnalyzeAssets(h, t, progressIndex); s.ok && Store() == ApplyEdges(EmptyGraph(), s.edges)
      modifies this`progressIndex, this`guidToReferences, results`guidToSources
      ensures t == Tables() && old(progressIndex) <= progressIndex <= |t.guidToPath.keys|
      ensures !ok ==> AnalysisThrewAt(h)
      ensures ok ==> AnalysisAt(h)
      ensures ok ==> (clockFired <==> old(progressIndex) + stopAfter <= |t.guidToPath.keys|)
      ensures ok ==> progressIndex == if clockFired then old(progressIndex) + stopAfter else |t.guidToPath.keys|
    {
      var done: nat := 0;
      while progressIndex < |results.guidToPath.keys|
        invariant old(progressIndex) <= progressIndex <= |t.guidToPath.keys| && t == Tables()
        invariant var s := AnalyzeAssets(h, t, progressIndex); s.ok && Store() == ApplyEdges(EmptyGraph(), s.edges)
        invariant progressIndex == old(progressIndex) + done && done < stopAfter
      {
        ok := AnalyzeNextAsset(h, t);
        if !ok {
          return false, false;
        }
        done := done + 1;
        if done >= stopAfter {
          return true, true;
        }
      }
      return true, false;
    }

    /** The loop that gives every indexed asset an unmarked entry, in enumeration order. */
    method InitRefStatus()
      requires results.guidToPath.Valid()
      modifies results`guidToRefStatus
      ensures results.guidToRefStatus == InitialStatus(results.guidToPath)
    {
      var paths := results.guidToPath;
      var d := EmptyDict();
      var i: nat := 0;
      while i < |paths.keys|
        invariant 0 <= i <= |paths.keys|
        invariant d.keys == paths.keys[..i] && d.m == map k | k in paths.keys[..i] :: false
      {
        PrefixNext(paths.keys, i);
        assert paths.keys[i] !in d.m by {
          NoDupPrefix(paths.keys, i);
        }
        d := d.Add(paths.keys[i], false);
        i := i + 1;
      }
      assert paths.keys[..i] == paths.keys;
      results.guidToRefStatus := d;
    }

    /**
     * `ManageFile(path, guid)`: the file is classified (which may throw
     * before anything is stored), then scanned as its kind calls for.
     */
    method ManageFile(h: Host, path: string, guid: string, ghost t: Tables) returns (ok: bool)
      requires t.Valid() && t == Tables()
      modifies this`guidToReferences, results`guidToSources
      ensures var s := FileEdges(h, path, guid, t);
        Store() == ApplyEdges(old(Store()), s.edges) && ok == s.ok
    {
      var kind := KindOf(h, path);
      if kind.Throws? {
        return false;
      }
      ok := ManageKind(h, path, guid, kind.value, Tables());
    }

    /**
     * The part of `ManageFile` after classification: the bundle check of the
     * `.meta` file, then the scene, assembly, script and YAML scanners the
     * kind calls for, each storing its references as it finds them.
     */
    method ManageKind(h: Host, path: string, guid: string, kind: AssetTypes.AssetType, t: Tables) returns (ok: bool)
      requires t.Valid() && t.guidToPath == results.guidToPath && t.resPathToGuid == resPathToGuid
      requires t.classToGuids == classToGuids && t.classToEditor == classToEditor
      modifies this`guidToReferences, results`guidToSources
      ensures var s := KindEdges(h, path, guid, t, kind);
        Store() == ApplyEdges(old(Store()), s.edges) && ok == s.ok
    {
      ghost var start := Store();
      var leading := LeadingEdges(h, path, guid, t, kind);
      AddAssetReferences(leading);
      ok := ManageScriptKind(h, path, guid, kind, t);
      ghost var script := ScriptScan(h, path, guid, t, kind);
      ApplyEdgesAppend(start, leading, script.edges);
      KindEdgesParts(h, path, guid, t, kind);
      if !ok {
        return;
      }
      var trailing := TrailingEdges(h, path, guid, t, kind);
      AddAssetReferences(trailing);
      ApplyEdgesAppend(start, leading + script.edges, trailing);
    }

    /** The script step of `ManageFile`: `ManageScriptFile` for scripts and editor tools, nothing otherwise. */
    method ManageScriptKind(h: Host, path: string, guid: string, kind: AssetTypes.AssetType, t: Tables) returns (ok: bool)
      requires t.Valid() && t.resPathToGuid == resPathToGuid
      requires t.classToGuids == classToGuids && t.classToEditor == classToEditor
      modifies this`guidToReferences, results`guidToSources
      ensures var s := ScriptScan(h, path, guid, t, kind);
        Store() == ApplyEdges(old(Store()), s.edges) && ok == s.ok
    {
      if kind == AssetTypes.Script || kind == AssetTypes.EditorTool {
        ok := ManageScriptFile(h, guid, path);
      } else {
        ok := true;
      }
    }

    // ----- Step 3: reference chains -----

    /** The ordered `ForEach` of `RegisterAssetRef`: each item the list does not hold yet is appended. */
    method QueueUnseen(list: seq<string>, items: seq<string>) returns (r: seq<string>)
      ensures r == AppendUnseen(list, items)
    {
      r := list;
      var i: nat := 0;
      while i < |items|
        invariant 0 <= i <= |items|
        invariant AppendUnseen(r, items[i..]) == AppendUnseen(list, items)
      {
        assert items[i..][1..] == items[i + 1..];
        if items[i] !in r {
          r := r + [items[i]];
        }
        i := i + 1;
      }
    }

    /** `RegisterAssetRef(list, guid)`: `guid` is marked, then its references the list lacks are queued. */
    method RegisterAssetRef(list: seq<string>, guid: string) returns (list': seq<string>)
      modifies results`guidToRefStatus
      ensures (results.guidToRefStatus, list') == Register(old(results.guidToRefStatus), list, guidToReferences, guid)
    {
      results.guidToRefStatus := results.guidToRefStatus.Set(guid, true);
      list' := list;
      if guid in guidToReferences.m {
        list' := QueueUnseen(list, guidToReferences.m[guid]);
      }
    }

    /** One iteration of a walk loop: `RegisterAssetRef` on the item at `index` advances the walk by one step. */
    method WalkStep(ghost w0: Walk, list: seq<string>, index: nat) returns (list': seq<string>)
      requires index < |list| && Walk(results.guidToRefStatus, list, index) == Run(w0, guidToReferences, index)
      modifies results`guidToRefStatus
      ensures Walk(results.guidToRefStatus, list', index + 1) == Run(w0, guidToReferences, index + 1)
      ensures |list| <= |list'|
    {
      RunOneMore(w0, guidToReferences, index);
      list' := RegisterAssetRef(list, list[index]);
    }

    /**
     * The seeding loops of step 3: the GUID of every open scene, then the
     * whole list of every asset-bundle key of `guidToReferences`, in
     * enumeration order; `count` is the number of iterations, which becomes
     * the cursor (`maxIndex`).
     */
    method CollectSeeds(h: Host) returns (seeds: seq<string>, count: nat)
      requires guidToReferences.Valid()
      ensures seeds == Seeds(h, guidToReferences)
      ensures count == |h.openScenes| + BundleCountFrom(guidToReferences, 0)
    {
      seeds, count := [], 0;
      var index: nat := 0;
      while index < |h.openScenes|
        invariant 0 <= index <= |h.openScenes| && count == index
        invariant seeds == SceneGuids(h)[..index]
      {
        PrefixNext(SceneGuids(h), index);
        seeds := seeds + [h.guidOf(h.openScenes[index])];
        count := count + 1;
        index := index + 1;
      }
      assert SceneGuids(h)[..index] == SceneGuids(h);
      var refs := guidToReferences;
      index := 0;
      while index < |refs.keys|
        invariant 0 <= index <= |refs.keys|
        invariant seeds + BundleSeedsFrom(refs, index) == Seeds(h, refs)
        invariant count + BundleCountFrom(refs, index) == |h.openScenes| + BundleCountFrom(refs, 0)
      {
        var k := refs.keys[index];
        if Contains(k, ASSET_BUNDLE_FLAG) {
          assert (seeds + refs.m[k]) + BundleSeedsFrom(refs, index + 1) == seeds + (refs.m[k] + BundleSeedsFrom(refs, index + 1));
          seeds := seeds + refs.m[k];
          count := count + 1;
        } else {
          assert BundleSeedsFrom(refs, index) == [] + BundleSeedsFrom(refs, index + 1);
        }
        index := index + 1;
      }
    }

    /** The walk of step 3 after `n` iterations, on the current tables. */
    ghost function RefRun(h: Host, n: nat): Walk
      requires results.guidToPath.Valid() && guidToReferences.Valid()
      reads this, results
    {
      Run(WalkStart(h, results.guidToPath, guidToReferences), guidToReferences, n)
    }

    /**
     * The walk loop of `SyncRefAnalysis`: `RegisterAssetRef` on each item of
     * the growing list, until the index reaches its end.
     */
    method WalkToEnd(h: Host, seeds: seq<string>)
      requires results.guidToPath.Valid() && guidToReferences.Valid()
      requires seeds == Seeds(h, guidToReferences) && results.guidToRefStatus == InitialStatus(results.guidToPath)
      modifies this`progressIndex, results`guidToRefStatus
      ensures results.guidToRefStatus == WalkEnd(h, results.guidToPath, guidToReferences).status
      ensures progressIndex == old(progressIndex) + |WalkEnd(h, results.guidToPath, guidToReferences).list|
    {
      ghost var refs, paths := guidToReferences, results.guidToPath;
      forall n: nat
        ensures |Run(WalkStart(h, paths, refs), refs, n).list| <= WalkBound(h, refs)
      {
        WalkWithinBound(h, paths, refs, n);
      }
      var list, index := WalkLoop(WalkStart(h, paths, refs), WalkBound(h, refs), seeds, 0);
      WalkEndUnique(h, paths, refs, index);
    }

    /**
     * The walk loop: `RegisterAssetRef` on each item of the growing list
     * until the index reaches its end, from any point of a walk whose list
     * never outgrows `bound`.
     */
    method WalkLoop(ghost w0: Walk, ghost bound: nat, list: seq<string>, index: nat) returns (list': seq<string>, index': nat)
      requires index <= |list| && Walk(results.guidToRefStatus, list, index) == Run(w0, guidToReferences, index)
      requires forall n: nat :: |Run(w0, guidToReferences, n).list| <= bound
      modifies this`progressIndex, results`guidToRefStatus
      ensures Walk(results.guidToRefStatus, list', index') == Run(w0, guidToReferences, index')
      ensures index <= index' == |list'|
      ensures progressIndex == old(progressIndex) + (index' - index)
    {
      list', index' := list, index;
      while index' < |list'|
        invariant index <= index' <= |list'| <= bound
        invariant Walk(results.guidToRefStatus, list', index') == Run(w0, guidToReferences, index')
        invariant progressIndex == old(progressIndex) + (index' - index)
        decreases bound - index'
      {
        list' := WalkStep(w0, list', index');
        progressIndex := progressIndex + 1;
        index' := index' + 1;
      }
    }

    /** How many iterations the time-sliced walk has done: none before its seeds are queued. */
    ghost function WalkIndex(): nat
      requires progressIndex != 0 ==> 0 <= asyncMaxIndex <= progressIndex
      reads this
    {
      if progressIndex == 0 then 0 else progressIndex - asyncMaxIndex
    }

    /**
     * Between two slices of step 3: every indexed asset is unmarked and
     * nothing is queued yet (cursor 0), or the cursor is past the seeding
     * iterations and the marks and the worklist are those of the walk after
     * `progressIndex - asyncMaxIndex` iterations.
     */
    ghost predicate RefAt(h: Host)
      reads this, results
    {
      && results.guidToPath.Valid() && guidToReferences.Valid()
      && (progressIndex == 0 ==> results.guidToRefStatus == InitialStatus(results.guidToPath))
      && (progressIndex != 0 ==> 0 <= asyncMaxIndex <= progressIndex)
      && (progressIndex != 0 ==>
            Walk(results.guidToRefStatus, asyncAssetToValidate, progressIndex - asyncMaxIndex)
            == RefRun(h, progressIndex - asyncMaxIndex))
    }

    /**
     * One slice of `AsyncRefAnalysis`, with the clock replaced by
     * `stopAfter` as in the other steps: the seeds are queued on the first
     * slice, then items are registered until the list is exhausted or
     * `stopAfter` of them are done. The step completes, and the results are
     * flattened, when the walk ends within the slice.
     */
    method AsyncRefAnalysis(h: Host, stopAfter: nat)
      requires Valid() && stopAfter >= 1 && RefAt(h)
      modifies this`cancelFlag, this`status, this`progressIndex, this`asyncMaxIndex, this`asyncAssetToValidate
      modifies results`guidToRefStatus, results`guidToPathKeys, results`guidToPathValues, results`guidToSourcesKeys
      modifies results`guidToSourcesValues, results`guidToRefStatusKeys, results`guidToRefStatusValues
      ensures Valid() && Index() == old(Index()) && Store() == old(Store())
      ensures old(cancelFlag) ==>
        status == Before && progressIndex == old(progressIndex) && results.guidToRefStatus == old(results.guidToRefStatus)
      ensures !old(cancelFlag) && !old(RefRun(h, WalkIndex() + stopAfter - 1)).Done() ==>
        status == old(status) && RefAt(h) && progressIndex != 0 && WalkIndex() == old(WalkIndex()) + stopAfter
      ensures !old(cancelFlag) && old(RefRun(h, WalkIndex() + stopAfter - 1)).Done() ==>
        status == Results && results.Flattened()
        && results.guidToRefStatus == old(WalkEnd(h, results.guidToPath, guidToReferences)).status
    {
      var interrupted := CheckInterruption();
      if interrupted {
        return;
      }
      ResumeRefAnalysis(h, stopAfter);
    }

    /** `AsyncRefAnalysis` past the flag check. */
    method ResumeRefAnalysis(h: Host, stopAfter: nat)
      requires Valid() && stopAfter >= 1 && RefAt(h)
      modifies this`status, this`progressIndex, this`asyncMaxIndex, this`asyncAssetToValidate
      modifies results`guidToRefStatus, results`guidToPathKeys, results`guidToPathValues, results`guidToSourcesKeys
      modifies results`guidToSourcesValues, results`guidToRefStatusKeys, results`guidToRefStatusValues
      ensures Valid() && Index() == old(Index()) && Store() == old(Store())
      ensures !old(RefRun(h, WalkIndex() + stopAfter - 1)).Done() ==>
        status == old(status) && RefAt(h) && progressIndex != 0 && WalkIndex() == old(WalkIndex()) + stopAfter
      ensures old(RefRun(h, WalkIndex() + stopAfter - 1)).Done() ==>
        status == Results && results.Flattened()
        && results.guidToRefStatus == old(WalkEnd(h, results.guidToPath, guidToReferences)).status
    {
      ghost var ix, g := Index(), Store();
      var clockFired := RefSlice(h, stopAfter);
      ValidFromFields(ix, g);
      if !clockFired {
        FinishRefAnalysis();
      }
    }

    /** The marking part of a slice: seeding on the first one, then the walk loop. */
    method RefSlice(h: Host, stopAfter: nat) returns (clockFired: bool)
      requires stopAfter >= 1 && RefAt(h)
      modifies this`progressIndex, this`asyncMaxIndex, this`asyncAssetToValidate, results`guidToRefStatus
      ensures results.guidToRefStatus.Valid()
      ensures clockFired <==> !old(RefRun(h, WalkIndex() + stopAfter - 1)).Done()
      ensures clockFired ==> RefAt(h) && progressIndex != 0 && WalkIndex() == old(WalkIndex()) + stopAfter
      ensures !clockFired ==> results.guidToRefStatus == old(WalkEnd(h, results.guidToPath, guidToReferences)).status
    {
      ghost var refs, paths := guidToReferences, results.guidToPath;
      if progressIndex == 0 {
        QueueSeeds(h);
      }
      clockFired := WalkFrom(h, stopAfter, paths, refs);
      if clockFired {
        RefAtFrom(h, paths, refs);
      }
    }

    /** The walk loop of a slice once the seeds are queued, measured against the walk on fixed tables. */
    method WalkFrom(h: Host, stopAfter: nat, ghost paths: Dict<string>, ghost refs: Dict<seq<string>>) returns (clockFired: bool)
      requires stopAfter >= 1 && paths.Valid() && refs.Valid()
      requires results.guidToPath == paths && guidToReferences == refs && 0 <= asyncMaxIndex <= progressIndex
      requires Walk(results.guidToRefStatus, asyncAssetToValidate, progressIndex - asyncMaxIndex)
        == Run(WalkStart(h, paths, refs), refs, progressIndex - asyncMaxIndex)
      modifies this`progressIndex, this`asyncAssetToValidate, results`guidToRefStatus
      ensures results.guidToRefStatus.Valid()
      ensures clockFired <==> !Run(WalkStart(h, paths, refs), refs, old(progressIndex) - asyncMaxIndex + stopAfter - 1).Done()
      ensures clockFired ==> progressIndex == old(progressIndex) + stopAfter
      ensures clockFired ==>
        Walk(results.guidToRefStatus, asyncAssetToValidate, progressIndex - asyncMaxIndex)
        == Run(WalkStart(h, paths, refs), refs, progressIndex - asyncMaxIndex)
      ensures !clockFired ==> results.guidToRefStatus == WalkEnd(h, paths, refs).status
    {
      WalkWithinBound(h, paths, refs, progressIndex - asyncMaxIndex);
      clockFired := WalkSlice(WalkStart(h, paths, refs), stopAfter);
      var n: nat := progressIndex - asyncMaxIndex;
      WalkWithinBound(h, paths, refs, n);
      if !clockFired {
        WalkEndUnique(h, paths, refs, n);
      }
    }

    /** The seeding loops of `AsyncRefAnalysis`: the seeds become the worklist and the cursor moves past them. */
    method QueueSeeds(h: Host)
      requires results.guidToPath.Valid() && guidToReferences.Valid() && progressIndex == 0
      requires results.guidToRefStatus == InitialStatus(results.guidToPath)
      modifies this`asyncAssetToValidate, this`asyncMaxIndex, this`progressIndex
      ensures 0 <= asyncMaxIndex == progressIndex
      ensures Walk(results.guidToRefStatus, asyncAssetToValidate, 0) == WalkStart(h, results.guidToPath, guidToReferences)
    {
      asyncAssetToValidate, asyncMaxIndex := CollectSeeds(h);
      progressIndex := asyncMaxIndex;
    }

    /** `RefAt` holds once the cursor is past the seeding iterations and the walk matches. */
    lemma RefAtFrom(h: Host, paths: Dict<string>, refs: Dict<seq<string>>)
      requires paths.Valid() && refs.Valid() && results.guidToPath == paths && guidToReferences == refs
      requires 0 <= asyncMaxIndex <= progressIndex && progressIndex != 0
      requires Walk(results.guidToRefStatus, asyncAssetToValidate, progressIndex - asyncMaxIndex)
        == Run(WalkStart(h, paths, refs), refs, progressIndex - asyncMaxIndex)
      ensures RefAt(h)
    {
    }

    /**
     * The walk loop of one slice: `RegisterAssetRef` on the item at
     * `progressIndex - asyncMaxIndex`, until the list is exhausted or the
     * clock fires after `stopAfter` items.
     */
    method WalkSlice(ghost w0: Walk, stopAfter: nat) returns (clockFired: bool)
      requires stopAfter >= 1 && 0 <= asyncMaxIndex <= progressIndex
      requires progressIndex - asyncMaxIndex <= |asyncAssetToValidate|
      requires Walk(results.guidToRefStatus, asyncAssetToValidate, progressIndex - asyncMaxIndex)
        == Run(w0, guidToReferences, progressIndex - asyncMaxIndex)
      modifies this`progressIndex, this`asyncAssetToValidate, results`guidToRefStatus
      ensures old(progressIndex) <= progressIndex
      ensures Walk(results.guidToRefStatus, asyncAssetToValidate, progressIndex - asyncMaxIndex)
        == Run(w0, guidToReferences, progressIndex - asyncMaxIndex)
      ensures clockFired <==> !Run(w0, guidToReferences, old(progressIndex) - asyncMaxIndex + stopAfter - 1).Done()
      ensures clockFired ==> progressIndex == old(progressIndex) + stopAfter
      ensures !clockFired ==> Run(w0, guidToReferences, progressIndex - asyncMaxIndex).Done()
    {
      var first: nat := progressIndex - asyncMaxIndex;
      var i: nat := progressIndex - asyncMaxIndex;
      clockFired := false;
      while !clockFired && i < |asyncAssetToValidate|
        invariant first <= i <= |asyncAssetToValidate| && i - first <= stopAfter
        invariant i == progressIndex - asyncMaxIndex
        invariant Walk(results.guidToRefStatus, asyncAssetToValidate, i) == Run(w0, guidToReferences, i)
        invariant clockFired <==> i - first == stopAfter
        invariant clockFired ==> !Run(w0, guidToReferences, first + stopAfter - 1).Done()
        decreases stopAfter - (i - first)
      {
        assert !Run(w0, guidToReferences, i).Done();
        asyncAssetToValidate := WalkStep(w0, asyncAssetToValidate, i);
        progressIndex := progressIndex + 1;
        i := i + 1;
        clockFired := i - first >= stopAfter;
      }
      if !clockFired {
        RunDone(w0, guidToReferences, i, first + stopAfter - 1);
      }
    }

    /** The end of step 3: the results are shown and flattened for saving. */
    method FinishRefAnalysis()
      requires Valid()
      modifies this`status, results`guidToPathKeys, results`guidToPathValues, results`guidToSourcesKeys
      modifies results`guidToSourcesValues, results`guidToRefStatusKeys, results`guidToRefStatusValues
      ensures status == Results && results.Flattened()
      ensures Valid() && Index() == old(Index()) && Store() == old(Store())
      ensures results.guidToRefStatus == old(results.guidToRefStatus)
    {
      status := Results;
      results.PreSerialization();
    }

    /**
     * `SyncRefAnalysis`: every indexed asset unmarked, the seeds queued, the
     * walk run to its end, then the results flattened. An indexed asset ends
     * up marked exactly when a chain of references leads to it from an open
     * scene or an asset bundle.
     */
    method SyncRefAnalysis(h: Host)
      requires Valid()
      modifies this`status, this`progressIndex, results`guidToRefStatus
      modifies results`guidToPathKeys, results`guidToPathValues, results`guidToSourcesKeys
      modifies results`guidToSourcesValues, results`guidToRefStatusKeys, results`guidToRefStatusValues
      ensures Valid() && Index() == old(Index()) && Store() == old(Store())
      ensures status == Results && results.Flattened()
      ensures results.guidToRefStatus == WalkEnd(h, results.guidToPath, guidToReferences).status
      ensures forall g :: g in results.guidToPath.m ==>
        g in results.guidToRefStatus.m
        && (results.guidToRefStatus.m[g] <==> Reachable(guidToReferences, Seeds(h, guidToReferences), g))
    {
      ghost var ix := Index();
      InitRefStatus();
      var seeds, maxIndex := CollectSeeds(h);
      progressIndex := maxIndex;
      WalkToEnd(h, seeds);
      ghost var w := WalkEnd(h, results.guidToPath, guidToReferences);
      WalkWithinBound(h, results.guidToPath, guidToReferences, WalkBound(h, guidToReferences));
      ValidFromParts(ix, w.status);
      forall g | g in results.guidToPath.m
        ensures g in w.status.m && (w.status.m[g] <==> Reachable(guidToReferences, Seeds(h, guidToReferences), g))
      {
        RefAnalysisMarksReachable(h, results.guidToPath, guidToReferences, g);
      }
      FinishRefAnalysis();
    }

    // ----- Interruption -----

    /** `CancelOperations`: raise the flag and go back to the start screen. */
    method CancelOperations()
      modifies this`cancelFlag, this`status
      ensures cancelFlag && status == Before
    {
      cancelFlag := true;
      status := Before;
    }

    /** `CheckInterruption`: a raised flag cancels (again) and reports the interruption. */
    method CheckInterruption() returns (interrupted: bool)
      modifies this`cancelFlag, this`status
      ensures interrupted == old(cancelFlag) && cancelFlag == old(cancelFlag)
      ensures status == if interrupted then Before else old(status)
    {
      if cancelFlag {
        CancelOperations();
      }
      interrupted := cancelFlag;
    }

    // ----- Forgetting an asset, and the entry point -----

    /**
     * `DereferenceAsset` on the analysis tables: the asset leaves the index,
     * the marks and both reference tables, and every class and every other
     * asset stops listing it. As written, the asset is dropped from the
     * other assets' referrer lists only when something referenced it.
     */
    method DereferenceAsset(guid: string)
      requires Valid()
      modifies results`guidToPath, results`guidToSources, results`guidToRefStatus, this`classToGuids, this`guidToReferences
      ensures Valid()
      ensures Store() == DereferenceAsWritten(old(Store()), guid)
      ensures results.guidToPath == DropKey(old(results.guidToPath), guid)
      ensures results.guidToRefStatus == DropKey(old(results.guidToRefStatus), guid)
      ensures classToGuids == PurgeLists(old(classToGuids), guid)
      ensures resPathToGuid == old(resPathToGuid) && classToEditor == old(classToEditor)
    {
      ghost var g := Store();
      results.guidToPath := DropKey(results.guidToPath, guid);
      results.guidToSources := SourcesAfterDereferenceAsWritten(results.guidToSources, guid);
      results.guidToRefStatus := DropKey(results.guidToRefStatus, guid);
      classToGuids := PurgeLists(classToGuids, guid);
      guidToReferences := RefsAfterDereference(guidToReferences, guid);
      DereferenceAsWrittenForgets(g, guid, guid, guid);
      ValidFromFields(Index(), DereferenceAsWritten(g, guid));
    }

    /**
     * `AskForProcess`, with the dialog's answer as `sync`. The one-shot run
     * is the three steps in a row, an exception in one ending the run; the
     * other answer starts the time-sliced indexing. When the one-shot run
     * completes, the indexed assets are marked exactly when a chain of
     * references leads to them from an open scene or an asset bundle.
     */
    method AskForProcess(h: Host, sync: bool) returns (ok: bool)
      requires Valid()
      modifies this`cancelFlag, this`status, this`progressIndex, results`guidToPath, this`resPathToGuid
      modifies this`classToGuids, this`classToEditor, this`guidToReferences, results`guidToSources
      modifies results`guidToRefStatus, results`guidToPathKeys, results`guidToPathValues, results`guidToSourcesKeys
      modifies results`guidToSourcesValues, results`guidToRefStatusKeys, results`guidToRefStatusValues
      ensures Valid()
      ensures !sync ==> ok && status == AnalysisStatus.AsyncAssetIndexing && !cancelFlag && Index() == EmptyIndex()
      ensures sync ==>
        var ix := IndexPaths(h, h.assetPaths, |h.assetPaths|);
        var an := AnalyzeAssets(h, ScanTables(ix.tables), |ix.tables.guidToPath.keys|);
        && (ok <==> ix.ok && an.ok)
        && (ix.ok ==> Index() == ix.tables && Store() == ApplyEdges(EmptyGraph(), an.edges))
        && (ok ==> status == Results && results.Flattened())
        && (ok ==> forall g :: g in results.guidToPath.m ==> g in results.guidToRefStatus.m)
        && (ok ==> forall g :: g in results.guidToPath.m ==>
              (results.guidToRefStatus.m[g] <==> Reachable(guidToReferences, Seeds(h, guidToReferences), g)))
    {
      if !sync {
        StartAsyncIndexing();
        return true;
      }
      ok := SyncAssetsIndexing(h);
      if !ok {
        return;
      }
      ok := SyncAnalysis(h);
      if !ok {
        return;
      }
      SyncRefAnalysis(h);
    }
  }
}
