# Unused Assets Finder: the analysis engine

This project models the analysis core of the Unity editor window
`UnusedAssetsFinder` and proves properties of it. The window decides which
assets of a project are never used. It does this in three steps:

1. **Indexing.** Every asset path of the asset database is read in order.
   - A project asset is recorded under its GUID (`guidToPath`).
   - A path containing `Resources` is also recorded under its path
     (`resPathToGuid`).
   - Each file is classified by its extension (`GetAssetType`).
   - The class declarations of every script are indexed: `classToGuids`,
     plus `classToEditor` for `CustomEditor` attributes.
2. **Analysis.** `ManageFile` runs on every indexed asset in enumeration
   order. It stores every reference it finds in two tables, both through
   `AddAssetReference`:
   - the forward table `guidToReferences`;
   - the reverse table `guidToSources`.

   The scanners it calls are:
   - the asset-bundle line of the `.meta` companion;
   - the build settings of scenes;
   - the `guid:` lines of YAML assets;
   - the `GUID:` lines of assembly definitions, and the scripts those
     assemblies compile;
   - for scripts: custom-editor links, class-name occurrences and
     `Resources.Load` calls.
3. **Reference chains.** Every indexed asset starts unmarked. A worklist is
   seeded with the open scenes and the contents of every asset bundle. Each
   item of the list is then marked by `RegisterAssetRef`, and the
   references it lacks are queued.

Each step runs either in one go or in time slices. In slices, the editor
update calls the step again and again, and a cursor `progressIndex`
remembers where the last slice stopped. A cancel flag stops any slice. At
the end, the three published dictionaries are flattened into key and value
lists for saving, and rebuilt from those lists on loading
(`AnalysisResults`).

The model is organised as follows:

- **Value modules** hold the pure parts of the core:
  - `AssetTypes`: the extension table and the classifier.
  - `ClassNames`: the class-declaration indexer, as a fold over the
    `" class "` cuts of a script.
  - `Strings` and `StringFacts`: the .NET string operations the scanners
    use, and what splitting, searching and replacing give.
  - `Scanners`: every reference scanner, as functions that return the
    edges in the order `AddAssetReference` is called, plus an `ok` flag
    for the exceptions the C# code can throw.
  - `References`: the two reference tables.
  - `Reachability`: the marking walk.
  - `Phases`: each step as a fold over its loop.
  - `ResultTables`: the saving and loading of the published tables, and
    `DereferenceAsset` on values.
- **Imperative classes** follow the source's two classes.
  `Finder.UnusedAssetsFinder` and `ResultTables.AnalysisResults` keep the
  C# fields and update them in place. The loops that drive the three
  steps are `while` loops proved against their folds: the indexing and
  analysis loops and their slices, the class-name cut loop, the script
  line loop, the custom-editor loop, the `AddAssetReference` calls, the
  `ForEach` of `RegisterAssetRef`, the seeding loops, the walk, and the
  loops of `PreSerialization` and `PostSerialization`.
- The loops inside the per-file scanners (the `.meta`, YAML, assembly
  and scene checks, the fragment loops of a script line and the
  Resources search), the sample loop of `IsTextFile` and the purge loops
  of `DereferenceAsset` are functions over values. The class methods
  store or assign what these functions compute.

Each time-sliced method is proved against the same fold as the one-shot
run. A step resumed any number of times, with any slice sizes, therefore
ends with the tables of the one-shot run over the same inputs. For indexing
these inputs are the path list fetched by the first time-sliced run
(`asyncAssetPaths`), which later runs reuse; the two runs agree when the
asset database has not changed since that fetch.

The model has four inputs in place of the outside world:

- **The host.** The asset database, file contents, `FileInfo` and the open
  scenes are one input value, `Project.Host`.
- **The clock.** The wall-clock check of a slice is a parameter
  `stopAfter >= 1`: the number of items done before the clock fires.
- **The dialog.** The answer to `AskForProcess`'s dialog is a parameter
  `sync`.
- **Exceptions.** A C# exception (a duplicate `Dictionary.Add`, a missing
  key, an index out of range) is an error result. It keeps the partial
  effects made before the throw, as C# does.

The character class `IsValidInClassName` compares a character with the
numbers 0 to 9, not with the characters `'0'` to `'9'`. A digit next to a
class name therefore does not make it part of a longer identifier. The
model follows the code, and `Scanners.NameCharacters` states the
consequence.

## Model

| member | source | states |
|---|---|---|
| `AssetTypes.FirstExact` | UnusedAssetsFinder.cs:1223 | `IndexOf` on the extension table: the first position holding the extension exactly, or -1 when no entry equals it |
| `AssetTypes.FirstIgnoringCase` | UnusedAssetsFinder.cs:1226-1237 | the fallback loop stops at the first entry equal to the extension ignoring case, and runs off the end (the table length) when there is none |
| `AssetTypes.IsTextFile` | UnusedAssetsFinder.cs:1325-1339 | a file under 100000 bytes is text exactly when the first min(100, size) characters are all below 128; asking for more characters than the text holds throws |
| `AssetTypes.Extension` | UnusedAssetsFinder.cs:1223 | `FileInfo.Extension` is a suffix of the path that starts with a dot, is at least two characters long, and holds no further dot and no separator |
| `AssetTypes.EntriesDistinctIgnoringCase` | UnusedAssetsFinder.cs:24-196 | no two entries of the extension table coincide once lower-cased |
| `AssetTypes.LookupIsCaseInsensitive` | UnusedAssetsFinder.cs:1223-1237 | the exact lookup followed by the case-insensitive fallback finds the same position as the case-insensitive search alone |
| `AssetTypes.FirstIgnoringCaseOfLower` | UnusedAssetsFinder.cs:1226-1237 | the case-insensitive search depends only on the lower-cased extension |
| `AssetTypes.LookupIgnoresCase` | UnusedAssetsFinder.cs:1221-1237 | two extensions that differ only in letter case land on the same table position |
| `AssetTypes.GetAssetTypeIgnoresCase` | UnusedAssetsFinder.cs:1221-1323 | two extensions that differ only in letter case give the same kind (or the same exception) for the same file |
| `AssetTypes.LookupFindsEntry` | UnusedAssetsFinder.cs:1223-1237 | an extension equal to entry i in any letter case is found at position i |
| `AssetTypes.LookupMisses` | UnusedAssetsFinder.cs:1226-1237 | an extension that matches no entry in any letter case is found nowhere (the index past the table) |
| `AssetTypes.RangesCoverTable` | UnusedAssetsFinder.cs:1239-1317 | every table position has a kind that is neither None, EditorTool nor Text, and a miss maps to None before the text check |
| `AssetTypes.RangesOrdered` | UnusedAssetsFinder.cs:1239-1317 | the ranges are contiguous: kinds occur along the table in the order of the enumeration |
| `AssetTypes.TableEntryKind` | UnusedAssetsFinder.cs:1221-1317 | a file whose extension is a non-script table entry, in any letter case, gets that range's kind, never None, whatever its content |
| `AssetTypes.ScriptPosition` | UnusedAssetsFinder.cs:1284 | the script position is found exactly for `.cs` in any letter case |
| `AssetTypes.ScriptKind` | UnusedAssetsFinder.cs:1284-1290 | a file is an editor tool exactly when it is `.cs` (any case) and its text contains `using UnityEditor;`, and a script exactly when it is `.cs` without it |
| `AssetTypes.UnknownExtensionKind` | UnusedAssetsFinder.cs:1319-1322 | an unknown extension is Text exactly when the file is small and ASCII in its sample, throws exactly when the sample is cut short, and is otherwise None |
| `ClassNames.LastLineAfterFinalFeed` | UnusedAssetsFinder.cs:1361-1363 | the last piece of the text split at line feeds holds no line feed: it is the text after the final line feed, or the whole text when there is none |
| `ClassNames.CountOpeningCounts` | UnusedAssetsFinder.cs:1367-1377 | the count is exactly the number of pieces before the last one that are empty or do not end in a backslash |
| `ClassNames.DeclaredName` | UnusedAssetsFinder.cs:1383 | the declared name is the longest prefix of the trimmed text after `" class "` free of the name-ending characters: it holds none of them, and a name-ending character follows it unless it is the whole trimmed text |
| `ClassNames.InspectedType` | UnusedAssetsFinder.cs:1394-1398 | the inspected type is never empty, and reading it throws exactly when there are fewer than two non-empty lines or the second-to-last one has nothing left once the attribute tokens are cut away |
| `ClassNames.ReadCuts` | UnusedAssetsFinder.cs:1344-1348 | one cut per pair of neighbouring pieces of the split text, the i-th read from pieces i and i + 1 |
| `ClassNames.IndexCut` | UnusedAssetsFinder.cs:1350-1401 | a rejected lead-in changes nothing; an accepted one registers the GUID under the name; a CustomEditor lead-in adds exactly one new editor mapping, and throws exactly when the type cannot be read or already has an editor |
| `ClassNames.IndexCuts` | UnusedAssetsFinder.cs:1346-1402 | the indexer keeps the class tables well formed (ordered keys, lists without repeats) |
| `ClassNames.IndexCutsStuck` | UnusedAssetsFinder.cs:1346-1402 | once an exception has ended the loop, the later cuts change nothing |
| `ClassNames.IndexCutsRegisters` | UnusedAssetsFinder.cs:1385-1389 | earlier registrations stay; only the script's GUID is added, and only under accepted names; when no exception occurs, every accepted name lists the GUID |
| `ClassNames.IndexCutsEditors` | UnusedAssetsFinder.cs:1392-1400 | existing editor mappings are kept, and after a complete run every accepted CustomEditor cut has its inspected type mapped |
| `ClassNames.IndexCutsThrows` | UnusedAssetsFinder.cs:1394-1400 | the indexer throws exactly when it reaches an accepted CustomEditor cut whose type cannot be read or is already mapped |
| `Collections.RemoveFirst` | UnusedAssetsFinder.cs:1842 | `List.Remove` leaves a list without the element untouched, drops exactly one element otherwise, keeps every other element, and leaves a repeat-free list without the element |
| `Collections.AddIfAbsent` | UnusedAssetsFinder.cs:1692-1696 | the guarded `Add` leaves the element in the list, adds nothing else, and keeps the list free of repeats |
| `Collections.Dict.AddValid` | UnusedAssetsFinder.cs:526 | `Dictionary.Add` of a new key keeps the key order and the map in step |
| `Collections.Dict.SetValid` | UnusedAssetsFinder.cs:1942 | the indexer assignment keeps the key order and the map in step |
| `Collections.Dict.Remove` | UnusedAssetsFinder.cs:1833 | `Dictionary.Remove` drops exactly that key from the map and from the key order and keeps the dictionary well formed |
| `Collections.Dict.Values` | UnusedAssetsFinder.cs:2001-2005 | enumerating the pairs gives one value per key, in key order, each the key's value |
| `Collections.AddToListSpec` | UnusedAssetsFinder.cs:1385-1389 | adding to a list-valued dictionary adds the element under that key only, appends a new key at the end of the order, keeps every other list, and keeps the lists free of repeats |
| `Collections.EmptyDict` | UnusedAssetsFinder.cs:510-513 | a new dictionary is well formed and empty |
| `Finder.AddToListInPlace` | UnusedAssetsFinder.cs:1692-1696 | creating the missing list and then appending when absent is the list-valued `AddToList` |
| `Finder.UnusedAssetsFinder.constructor` | UnusedAssetsFinder.cs:1203-1209 | the window starts well formed with empty tables, before any analysis, cursor 0, the flag down and no fetched paths |
| `Finder.UnusedAssetsFinder.AddAssetReference` | UnusedAssetsFinder.cs:1689-1704 | the two tables become the old ones with exactly this edge added in both directions |
| `Finder.UnusedAssetsFinder.AddAssetReferences` | UnusedAssetsFinder.cs:1498-1499 | a loop of `AddAssetReference` calls stores the edges in order |
| `Finder.UnusedAssetsFinder.ExtractClassNames` | UnusedAssetsFinder.cs:1341-1403 | the class tables afterwards, and whether it threw, are those of the class-name fold over the script text |
| `Finder.UnusedAssetsFinder.IndexCuts` | UnusedAssetsFinder.cs:1346-1402 | the cut loop leaves the tables and the outcome of the fold over all cuts |
| `Finder.UnusedAssetsFinder.IndexAssetPath` | UnusedAssetsFinder.cs:521-533 | the body of the indexing loop does to the four tables what the indexing of one path specifies, including its exceptions |
| `Finder.UnusedAssetsFinder.IndexNextPath` | UnusedAssetsFinder.cs:519-541 | one iteration extends the indexing fold by one path; the cursor moves on unless the path threw |
| `Finder.UnusedAssetsFinder.SyncAssetsIndexing` | UnusedAssetsFinder.cs:506-545 | from fresh tables, the one-shot indexing leaves the tables and outcome of the fold over every database path, with the cursor at the end when nothing threw |
| `Finder.UnusedAssetsFinder.IndexAllPaths` | UnusedAssetsFinder.cs:519-542 | the loop runs from the cursor to the end or to the path that throws, and the tables are the fold's up to there |
| `Finder.UnusedAssetsFinder.StartAsyncIndexing` | UnusedAssetsFinder.cs:492-504 | the flag is cleared, the tables emptied, the cursor rewound, and the time-sliced indexing entered; the fetched path list `asyncAssetPaths` lies outside the method's frame and is kept |
| `Finder.UnusedAssetsFinder.AsyncAssetIndexing` | UnusedAssetsFinder.cs:547-596 | a raised flag cancels with nothing done; otherwise a slice indexes `stopAfter` more paths, stops on an exception at the path that threw, or reaches the end and enters the analysis with empty reference tables; the tables always match the fold |
| `Finder.UnusedAssetsFinder.ResumeIndexing` | UnusedAssetsFinder.cs:552-596 | the paths are fetched once, and a slice moves the cursor and tables along the indexing fold as above |
| `Finder.UnusedAssetsFinder.StartAsyncAnalysis` | UnusedAssetsFinder.cs:588-595 | the analysis step starts from empty reference tables with the cursor rewound, the index untouched |
| `Finder.UnusedAssetsFinder.IndexSlice` | UnusedAssetsFinder.cs:561-586 | the slice loop ends at the end of the paths, at a throw or when the clock fires after `stopAfter` paths, with the tables of the fold so far |
| `Finder.UnusedAssetsFinder.LinkCustomEditors` | UnusedAssetsFinder.cs:1488-1503 | the declared classes are the names listing the script, in key order, and the stored edges are the editor links up to a missing editor key |
| `Finder.UnusedAssetsFinder.ScanScriptLines` | UnusedAssetsFinder.cs:1512-1672 | the line loop stores exactly the references of the line fold, in order, up to the first exception |
| `Finder.UnusedAssetsFinder.ManageScriptFile` | UnusedAssetsFinder.cs:1485-1673 | the script scan stores exactly the edges of the script specification and reports its exception |
| `Finder.UnusedAssetsFinder.AnalyzeNextAsset` | UnusedAssetsFinder.cs:634-637 | one iteration extends the analysis fold by the asset under the cursor; the cursor moves on unless it threw |
| `Finder.UnusedAssetsFinder.SyncAnalysis` | UnusedAssetsFinder.cs:598-619 | from empty reference tables, the one-shot analysis stores the edges of the fold over all indexed assets, leaving the index alone |
| `Finder.UnusedAssetsFinder.AnalyzeAll` | UnusedAssetsFinder.cs:605-616 | the loop runs from the cursor to the end or to the asset that throws, and the reference tables are the fold's up to there |
| `Finder.UnusedAssetsFinder.AsyncAnalysis` | UnusedAssetsFinder.cs:621-654 | a raised flag cancels with nothing done; otherwise a slice advances `stopAfter` assets along the fold, stops at a throw, or completes and starts the chain step with every indexed asset unmarked |
| `Finder.UnusedAssetsFinder.ResumeAnalysis` | UnusedAssetsFinder.cs:626-654 | a slice past the flag check advances along the analysis fold as above |
| `Finder.UnusedAssetsFinder.StartAsyncRefAnalysis` | UnusedAssetsFinder.cs:644-653 | the chain step starts with the cursor rewound and every indexed asset unmarked, in index order |
| `Finder.UnusedAssetsFinder.AnalysisSlice` | UnusedAssetsFinder.cs:629-642 | the slice loop ends at the end of the assets, at a throw or when the clock fires, with the reference tables of the fold so far |
| `Finder.UnusedAssetsFinder.InitRefStatus` | UnusedAssetsFinder.cs:658-661 | every indexed asset gets an unmarked entry, in index order |
| `Finder.UnusedAssetsFinder.ManageFile` | UnusedAssetsFinder.cs:1405-1436 | the stored edges and the exception are those that classifying the file and scanning its kind specify |
| `Finder.UnusedAssetsFinder.ManageKind` | UnusedAssetsFinder.cs:1410-1435 | after classification, the scans of the kind store exactly their edges in order, and only the script scan can throw |
| `Finder.UnusedAssetsFinder.QueueUnseen` | UnusedAssetsFinder.cs:1946-1950 | the `ForEach` appends each item the list does not yet hold, in order |
| `Finder.UnusedAssetsFinder.RegisterAssetRef` | UnusedAssetsFinder.cs:1940-1952 | the marks and the list become those of marking the GUID and queueing its unseen references |
| `Finder.UnusedAssetsFinder.WalkStep` | UnusedAssetsFinder.cs:705-716 | one iteration of the walk loop advances the walk by one step, and the list only grows |
| `Finder.UnusedAssetsFinder.CollectSeeds` | UnusedAssetsFinder.cs:663-701 | the seeding loops queue the open scenes' GUIDs, then every asset-bundle list, and count one iteration per scene and per bundle |
| `Finder.UnusedAssetsFinder.WalkToEnd` | UnusedAssetsFinder.cs:703-717 | the walk loop leaves the marks of the walk run to its end, and the cursor moves by the length of the final list |
| `Finder.UnusedAssetsFinder.WalkLoop` | UnusedAssetsFinder.cs:703-717 | from any point of the walk, the loop runs it until the index reaches the end of the growing list |
| `Finder.UnusedAssetsFinder.AsyncRefAnalysis` | UnusedAssetsFinder.cs:728-802 | a raised flag cancels; otherwise a slice advances the walk by `stopAfter` items, or reaches its end, shows the results with the marks of the complete walk and flattens them; the reference tables are never touched |
| `Finder.UnusedAssetsFinder.ResumeRefAnalysis` | UnusedAssetsFinder.cs:733-802 | a slice past the flag check advances or completes the walk as above |
| `Finder.UnusedAssetsFinder.RefSlice` | UnusedAssetsFinder.cs:736-786 | the first slice queues the seeds; the clock fires exactly when the walk is not over after `stopAfter` more items, and otherwise the marks are final |
| `Finder.UnusedAssetsFinder.WalkFrom` | UnusedAssetsFinder.cs:773-786 | once seeded, a slice's walk loop stays on the walk on the fixed tables and either stops after `stopAfter` items or leaves the final marks |
| `Finder.UnusedAssetsFinder.QueueSeeds` | UnusedAssetsFinder.cs:736-766 | the seeding loops make the seeds the worklist and move the cursor past the seeding iterations |
| `Finder.UnusedAssetsFinder.WalkSlice` | UnusedAssetsFinder.cs:773-786 | the walk loop of a slice stops after `stopAfter` items exactly when the walk is not over by then, and otherwise when the walk is over |
| `Finder.UnusedAssetsFinder.FinishRefAnalysis` | UnusedAssetsFinder.cs:788-795 | the results are shown and the published tables flattened for saving; the tables and the marks themselves are unchanged |
| `Finder.UnusedAssetsFinder.SyncRefAnalysis` | UnusedAssetsFinder.cs:656-726 | the one-shot chain step marks an indexed asset exactly when a chain of references leads to it from an open scene or an asset bundle; the reference tables are untouched and the results are flattened |
| `Finder.UnusedAssetsFinder.CancelOperations` | UnusedAssetsFinder.cs:1798-1805 | cancelling raises the flag and returns to the start screen |
| `Finder.UnusedAssetsFinder.CheckInterruption` | UnusedAssetsFinder.cs:1807-1821 | the check reports the flag, keeps it, and returns to the start screen exactly when it is raised |
| `Finder.UnusedAssetsFinder.DereferenceAsset` | UnusedAssetsFinder.cs:1830-1868 | as written: the asset leaves the index and the marks, every class list drops it, the forward table forgets every reference that involves it, and the reverse table is purged of it only when something referenced it |
| `Finder.UnusedAssetsFinder.AskForProcess` | UnusedAssetsFinder.cs:475-490 | the time-sliced answer starts indexing from empty tables; the one-shot answer runs the three steps, succeeding exactly when indexing and analysis do not throw, and then marks an indexed asset exactly when a chain of references leads to it from a scene or a bundle |
| `Phases.EmptyIndex` | UnusedAssetsFinder.cs:510-513 | indexing starts from well-formed empty tables |
| `Phases.IndexAssetGuids` | UnusedAssetsFinder.cs:523-526 | a path outside the project changes nothing; a project asset whose GUID was seen throws; otherwise its GUID is added under its path |
| `Phases.IndexAssetResources` | UnusedAssetsFinder.cs:528-529 | only a new project path containing `Resources` is added to the Resources table; without a throw, such a path is mapped to its GUID |
| `Phases.IndexAssetValid` | UnusedAssetsFinder.cs:521-533 | indexing one path keeps the tables well formed |
| `Phases.IndexFold` | UnusedAssetsFinder.cs:519-542 | a loop of steps that keep the tables well formed leaves them well formed |
| `Phases.IndexStepSpec` | UnusedAssetsFinder.cs:521-533 | the loop body keeps the tables well formed and records the GUIDs of project assets, throwing on a repeat |
| `Phases.IndexPaths` | UnusedAssetsFinder.cs:519-542 | the indexing loop always leaves well-formed tables |
| `Phases.IndexPathsNext` | UnusedAssetsFinder.cs:519-542 | one more path applies the loop body to the tables so far, unless an exception already ended the loop |
| `Phases.IndexFoldStuck` | UnusedAssetsFinder.cs:519-542 | after an exception, later paths change nothing |
| `Phases.IndexPathsStuck` | UnusedAssetsFinder.cs:519-542 | after an exception the indexing result is final |
| `Phases.IndexAssetRetry` | UnusedAssetsFinder.cs:561-586 | indexing a path again after it threw throws again at once and changes no table, since its GUID is by then recorded |
| `Phases.IndexFoldMaps` | UnusedAssetsFinder.cs:523-526 | every GUID recorded belongs to an asset read and maps to its path; without an exception every asset read is recorded |
| `Phases.IndexPathsMaps` | UnusedAssetsFinder.cs:519-542 | the same for the indexing loop: `guidToPath` maps exactly the GUIDs of the project assets read to their paths |
| `Phases.IndexFoldDuplicateThrows` | UnusedAssetsFinder.cs:526 | two accepted paths with one GUID make the loop throw |
| `Phases.IndexPathsDuplicateThrows` | UnusedAssetsFinder.cs:523-526 | two project assets with the same GUID make indexing throw; a GUID is never silently shared |
| `Phases.ScanTables` | UnusedAssetsFinder.cs:605-607 | the tables the scanners read after indexing are well formed when the index is |
| `Phases.FileStepTouches` | UnusedAssetsFinder.cs:1405-1435 | every reference `ManageFile` stores has the scanned asset at one end |
| `Phases.AnalyzeAssetsNext` | UnusedAssetsFinder.cs:605-616 | one more asset appends its file's edges, unless an exception already ended the loop |
| `Phases.AnalyzeFoldStuck` | UnusedAssetsFinder.cs:605-616 | after an exception, later assets add nothing |
| `Phases.AnalyzeAssetsStuck` | UnusedAssetsFinder.cs:605-616 | after an exception the analysis result is final |
| `Phases.AnalysisRetry` | UnusedAssetsFinder.cs:629-642 | the asset an analysis slice threw on throws again when read again, and storing its references a second time changes neither table |
| `Phases.AnalyzeFoldTouchRead` | UnusedAssetsFinder.cs:605-616 | every stored reference involves one of the assets already read |
| `Phases.AnalyzeAssetsTouchRead` | UnusedAssetsFinder.cs:605-616 | every reference the analysis stores involves an indexed asset it has read |
| `Phases.AnalysisSymmetric` | UnusedAssetsFinder.cs:598-619 | the analysis from empty tables leaves both tables well formed and recording each reference in both directions |
| `Phases.SceneGuids` | UnusedAssetsFinder.cs:672-685 | one GUID per open scene, in `SceneManager` order |
| `Phases.BundleSeedsFrom` | UnusedAssetsFinder.cs:687-701 | past the last key there are no more bundle seeds |
| `Phases.BundleSeedsMembers` | UnusedAssetsFinder.cs:663-665 | a GUID is a bundle seed exactly when an asset-bundle key lists it |
| `Phases.BundleCountFrom` | UnusedAssetsFinder.cs:663-666 | the number of bundle iterations never exceeds the number of keys |
| `Phases.Seeds` | UnusedAssetsFinder.cs:668-701 | the worklist starts with the open scenes' GUIDs, in order |
| `Phases.SeedsMembers` | UnusedAssetsFinder.cs:663-701 | the seeds are exactly the open scenes' GUIDs and the assets listed under an asset-bundle key |
| `Phases.InitialStatus` | UnusedAssetsFinder.cs:658-661 | every indexed asset starts unmarked, in index order, and nothing else has a mark |
| `Phases.WalkFromStart` | UnusedAssetsFinder.cs:703-717 | the walk invariant holds after any number of iterations from the start |
| `Phases.WalkWithinBound` | UnusedAssetsFinder.cs:703-717 | the worklist never outgrows a fixed bound and the marks stay well formed |
| `Phases.WalkEndUnique` | UnusedAssetsFinder.cs:703-717 | any run of the walk that has reached its end has the same marks and list |
| `Phases.RefAnalysisMarksReachable` | UnusedAssetsFinder.cs:656-717 | when the walk is over every indexed asset has a mark, set exactly when it is reachable from a scene or a bundle |
| `Reachability.AppendUnseen` | UnusedAssetsFinder.cs:1946-1950 | the old list is a prefix of the new one |
| `Reachability.AppendUnseenContents` | UnusedAssetsFinder.cs:1946-1950 | the list ends up holding exactly the old items and the new ones, and what was appended repeats nothing |
| `Reachability.Register` | UnusedAssetsFinder.cs:1940-1952 | the GUID becomes marked, nothing else changes mark, and the old list is a prefix of the new |
| `Reachability.RegisterQueues` | UnusedAssetsFinder.cs:1944-1951 | exactly the GUID's references are queued, each at most once beyond the old list |
| `Reachability.RunOneMore` | UnusedAssetsFinder.cs:705-717 | one more iteration is one more step, unless the walk is already over |
| `Reachability.RunSplit` | UnusedAssetsFinder.cs:773-786 | a iterations and then b more is a + b iterations: cutting the walk into slices of any sizes gives the same walk |
| `Reachability.RunDone` | UnusedAssetsFinder.cs:773-786 | once the walk is over, further iterations change nothing |
| `Reachability.WalkInvInit` | UnusedAssetsFinder.cs:668-701 | the walk invariant holds with the seeds queued and nothing visited |
| `Reachability.WalkInvStep` | UnusedAssetsFinder.cs:705-717 | one iteration keeps the walk invariant |
| `Reachability.ListBound` | UnusedAssetsFinder.cs:705-717 | the worklist never outgrows the seeds plus the distinct GUIDs that reference lists name |
| `Reachability.QueuedReachable` | UnusedAssetsFinder.cs:705-717 | every queued item is reachable from the seeds |
| `Reachability.ReachableQueued` | UnusedAssetsFinder.cs:705-717 | when the walk is over, every item reachable from the seeds has been queued |
| `Reachability.WalkDoneMarksReachable` | UnusedAssetsFinder.cs:705-717 | when the walk is over, an asset unmarked before it is marked exactly when it is reachable |
| `Reachability.RunKeepsInv` | UnusedAssetsFinder.cs:705-717 | the walk invariant survives any number of iterations |
| `Reachability.RunTerminates` | UnusedAssetsFinder.cs:705-717 | the walk is over after at most the number of seeds plus distinct referenced GUIDs iterations |
| `References.EmptyGraph` | UnusedAssetsFinder.cs:600-601 | the new tables are well formed and agree with each other |
| `References.AddEdgeValid` | UnusedAssetsFinder.cs:1689-1704 | adding a reference keeps ordered keys and lists without repeats |
| `References.AddEdgeExactly` | UnusedAssetsFinder.cs:1689-1704 | adding a reference records exactly that reference in each table, and nothing else |
| `References.AddEdgeFrame` | UnusedAssetsFinder.cs:1691-1695 | a forward key other than the referrer keeps its list |
| `References.AddEdgePresent` | UnusedAssetsFinder.cs:1689-1704 | adding a recorded reference changes nothing |
| `References.AddEdgeIdempotent` | UnusedAssetsFinder.cs:1689-1704 | a repeated call changes nothing |
| `References.AddEdgeSymmetric` | UnusedAssetsFinder.cs:1689-1704 | adding a reference keeps the two tables describing the same references |
| `References.ApplyEdgesValid` | UnusedAssetsFinder.cs:1689-1704 | any sequence of calls keeps both tables well formed |
| `References.ApplyEdgesAppend` | UnusedAssetsFinder.cs:1689-1704 | two batches one after the other are their concatenation |
| `References.ApplyEdgesExactly` | UnusedAssetsFinder.cs:1689-1704 | after a batch, a reference is recorded exactly when it was before or is in the batch, in both tables |
| `References.ApplyEdgesSymmetric` | UnusedAssetsFinder.cs:1689-1704 | from tables that agree, any batch leaves them agreeing |
| `References.ApplyEdgesAgain` | UnusedAssetsFinder.cs:1689-1704 | repeating a batch changes nothing |
| `References.ApplyEdgesPresent` | UnusedAssetsFinder.cs:1689-1704 | a batch of references already recorded changes nothing |
| `ResultTables.Rebuild` | UnusedAssetsFinder.cs:2030-2031 | a rebuilt dictionary is well formed with the keys in list order |
| `ResultTables.RebuildNext` | UnusedAssetsFinder.cs:2030-2031 | one more key is added unless it repeats or has no value, which throws |
| `ResultTables.RebuildOk` | UnusedAssetsFinder.cs:2030-2031 | rebuilding succeeds exactly when the keys are distinct and each has a value, and then maps each key to the value at its position |
| `ResultTables.RebuildFlattened` | UnusedAssetsFinder.cs:1996-2044 | rebuilding from a dictionary's flattened lists gives back that dictionary |
| `ResultTables.AnalysisResults.constructor` | UnusedAssetsFinder.cs:1989-1994 | three empty dictionaries |
| `ResultTables.AnalysisResults.FlattenedRebuilds` | UnusedAssetsFinder.cs:1996-2044 | loading what saving left gives back each of the three dictionaries without a throw |
| `ResultTables.AnalysisResults.PreSerialization` | UnusedAssetsFinder.cs:1996-2024 | the saved lists hold every dictionary's keys and values, in enumeration order |
| `ResultTables.AnalysisResults.PostSerialization` | UnusedAssetsFinder.cs:2026-2044 | each dictionary is rebuilt in turn; a throw leaves the later ones untouched and reports failure |
| `ResultTables.Flatten` | UnusedAssetsFinder.cs:2001-2005 | the keys and the values in enumeration order |
| `ResultTables.RebuildDict` | UnusedAssetsFinder.cs:2030-2031 | the loop succeeds exactly when the rebuild does, and then gives the rebuilt dictionary |
| `ResultTables.RebuildStuck` | UnusedAssetsFinder.cs:2030-2031 | once rebuilding has thrown, it stays thrown |
| `ResultTables.PurgeLists` | UnusedAssetsFinder.cs:1851-1855 | every list drops the GUID, the keys stay, and repeat-free lists end up without it |
| `ResultTables.DropKey` | UnusedAssetsFinder.cs:1832-1833 | the key is gone and the dictionary stays well formed |
| `ResultTables.DereferenceAsWrittenForgets` | UnusedAssetsFinder.cs:1835-1868 | as written, forgetting an asset removes every reference that involves it from the forward table, but removes its appearances as a referrer in the reverse table only when something referenced it |
| `ResultTables.DereferenceAsWrittenWhenReferenced` | UnusedAssetsFinder.cs:1835-1844 | when something referenced the asset, the code's purge and the corrected one coincide |
| `ResultTables.DereferenceForgets` | UnusedAssetsFinder.cs:1835-1868 | with the corrected purge of the Findings row (the reverse table purged whether or not the asset was referenced), forgetting an asset removes exactly the references that involve it, in both tables |
| `ResultTables.DereferenceSymmetric` | UnusedAssetsFinder.cs:1835-1868 | forgetting an asset keeps the two tables describing the same references |
| `ResultTables.DereferenceAsWrittenKeepsReferrer` | UnusedAssetsFinder.cs:1835-1844 | as written, an asset that references another but is referenced by nothing stays among the other's referrers after it is forgotten |
| `Scanners.Then` | UnusedAssetsFinder.cs:1425-1435 | chained scans succeed exactly when both do, keep what the first stored, and add the second's only when the first did not throw |
| `Scanners.ThenAssociative` | UnusedAssetsFinder.cs:1425-1435 | chaining does not depend on grouping |
| `Scanners.Targets` | UnusedAssetsFinder.cs:1498-1499 | one reference from the referrer to each listed GUID |
| `Scanners.BundleLine` | UnusedAssetsFinder.cs:1416-1419 | soundness: a bundle line gives at most one reference, from an asset-bundle key to the file |
| `Scanners.BundleEdges` | UnusedAssetsFinder.cs:1411-1422 | soundness: the `.meta` check gives at most one bundle reference to the file, and none when no line names a bundle |
| `Scanners.BundleFromFirstKeyLine` | UnusedAssetsFinder.cs:1411-1422 | only the first line naming a bundle counts |
| `Scanners.BundleNamed` | UnusedAssetsFinder.cs:1411-1422 | when the first line holding `assetBundleName: ` names a non-empty bundle, exactly one reference is stored: from the flagged bundle name, without its trailing line feeds, to the file |
| `Scanners.SceneEdges` | UnusedAssetsFinder.cs:1440-1450 | the build-settings reference to the scene is stored exactly when the scene is open |
| `Scanners.KnownEdges` | UnusedAssetsFinder.cs:1683-1684 | references go from the file to exactly the given GUIDs that are indexed |
| `Scanners.GuidEdges` | UnusedAssetsFinder.cs:1677-1686 | a reference to an indexed GUID exactly when some line mentions it |
| `Scanners.AssemblyEdges` | UnusedAssetsFinder.cs:1470-1482 | every indexed script the assembly compiles references the assembly, and nothing else is stored |
| `Scanners.NameCharacters` | UnusedAssetsFinder.cs:1724-1730 | name characters are ASCII letters, the underscore and codes below 10; the digits end a name |
| `Scanners.BlockFlagLastMarkerWins` | UnusedAssetsFinder.cs:1664-1671 | the flag is kept by a line with neither `/*` nor `*/`, set by `/*` alone, cleared by `*/` alone, and with both set exactly when some `/*` comes after every `*/` |
| `Scanners.DeclaredFrom` | UnusedAssetsFinder.cs:1490-1494 | the names from a position on that list the script |
| `Scanners.DeclaredFromNext` | UnusedAssetsFinder.cs:1490-1494 | one key more or less in the collected names, as the loop adds them |
| `Scanners.DeclaredClasses` | UnusedAssetsFinder.cs:1490-1494 | the declared classes are exactly the names whose list holds the script's GUID |
| `Scanners.EditorEdgesFrom` | UnusedAssetsFinder.cs:1496-1501 | every editor link comes from the script |
| `Scanners.EditorLinks` | UnusedAssetsFinder.cs:1490-1502 | when the links complete, a script declaring an inspected type is linked to every GUID of its editor class |
| `Scanners.ResourceKeys` | UnusedAssetsFinder.cs:1711-1712 | one load path per Resources asset, in key order |
| `Scanners.FindResourceFrom` | UnusedAssetsFinder.cs:1708-1721 | at most one reference, from the script to a Resources asset |
| `Scanners.FindResource` | UnusedAssetsFinder.cs:1706-1722 | `FindResourcesReference` stores at most one reference, to a Resources asset |
| `Scanners.FindResourceFirstMatch` | UnusedAssetsFinder.cs:1708-1721 | only the first matching resource is linked; nothing is linked only when every path was readable and none matched; a throw comes only from an unreadable path |
| `Scanners.FindResourceLinks` | UnusedAssetsFinder.cs:1708-1721 | when the k-th resource is the first whose load path matches and the search does not throw, exactly that resource is linked |
| `Scanners.LinkCallsFrom` | UnusedAssetsFinder.cs:1573-1579 | soundness: every `Resources.Load` call links the script to a Resources asset only |
| `Scanners.ResourceFragsFrom` | UnusedAssetsFinder.cs:1533-1581 | soundness: the fragment loop links the script to Resources assets only |
| `Scanners.ResourceCalls` | UnusedAssetsFinder.cs:1526-1582 | soundness: a line's `Resources.Load` scan links the script to Resources assets only |
| `Scanners.LoadPathLiteral` | UnusedAssetsFinder.cs:1575-1578 | the argument `("p")` of a call, with `p` free of quotes and parentheses, yields the load path `p` whatever follows it |
| `Scanners.ResourceCallsOnce` | UnusedAssetsFinder.cs:1526-1582 | a line with one `Resources.Load` whose text before the call is outside strings and comments links the calls once, from that fragment |
| `Scanners.ResourceLoadLinks` | UnusedAssetsFinder.cs:1514-1582 | completeness: a `Resources.Load("p")` outside strings and comments, where `p` is the load path of a Resources asset, links the script to the first such asset unless the line's scan throws |
| `Scanners.NameHitsFrom` | UnusedAssetsFinder.cs:1599-1656 | every reference is from the script to a GUID of the class, and a scan that stores any reference stores one to every GUID of the class |
| `Scanners.NameHitsFirstFragment` | UnusedAssetsFinder.cs:1599-1656 | an occurrence after a first fragment outside strings and comments, with no name character on either side, links the script to every GUID of the class |
| `Scanners.ClassNamesFrom` | UnusedAssetsFinder.cs:1585-1661 | soundness: every class-name reference is to a class the line mentions and the script does not declare |
| `Scanners.ClassNamesIncludeHits` | UnusedAssetsFinder.cs:1585-1661 | when the scan of all names completes, it holds every reference the scan of one mentioned, undeclared name makes |
| `Scanners.ClassNameLinks` | UnusedAssetsFinder.cs:1514-1661 | completeness: a class name written outside strings and comments, with no name character on either side, links the script to every GUID declaring the class, unless the script declares it or the line's scan throws |
| `Scanners.ClassNamesNotSelf` | UnusedAssetsFinder.cs:1587-1589 | a script never references itself through a class name |
| `Scanners.ScanLine` | UnusedAssetsFinder.cs:1514-1662 | soundness: every reference a line gives comes from the script |
| `Scanners.ScanLinesReferrer` | UnusedAssetsFinder.cs:1512-1672 | every reference the line loop finds comes from the script |
| `Scanners.LineFoldStuck` | UnusedAssetsFinder.cs:1512-1672 | after an exception, later lines add nothing |
| `Scanners.ScanLinesFromCodeLines` | UnusedAssetsFinder.cs:1516-1522 | every reference comes from a line that is neither a comment line nor inside a block comment |
| `Scanners.ScriptEdges` | UnusedAssetsFinder.cs:1485-1673 | soundness: every reference of the script scan comes from the script |
| `Scanners.YamlKinds` | UnusedAssetsFinder.cs:198 | the YAML kinds are exactly Animation, Avatar, Curves, Font, Material, Prefab, Preset, ScriptableObject, Colors, Terrain and GUISkin |
| `Scanners.ScriptGuids` | UnusedAssetsFinder.cs:1470-1472 | one GUID per compiled script |
| `Scanners.KindEdges` | UnusedAssetsFinder.cs:1410-1435 | every reference `ManageFile` stores touches the file |
| `Scanners.KindEdgesParts` | UnusedAssetsFinder.cs:1425-1435 | only the script scan may throw, and a throw skips the YAML scan |
| `Strings.TrimStart` | UnusedAssetsFinder.cs:1383 | the suffix left after the leading white space, which starts with a non-white character |
| `Strings.TrimEnd` | UnusedAssetsFinder.cs:1351 | the prefix left before the trailing white space, which ends with a non-white character |
| `Strings.TrimEndChar` | UnusedAssetsFinder.cs:1419 | the prefix left before the trailing copies of the character |
| `Strings.IndexOf` | UnusedAssetsFinder.cs:1413 | the first occurrence, or -1 when there is none |
| `Strings.LastIndexOf` | UnusedAssetsFinder.cs:1537-1538 | the last occurrence, or -1 when there is none |
| `StringFacts.SplitPieces` | UnusedAssetsFinder.cs:1344 | no piece of a split holds the separator, and joining the pieces with it gives back the text |
| `StringFacts.SplitCharLast` | UnusedAssetsFinder.cs:1361-1363 | on a one-character separator, the last piece is the text after its last occurrence, and a text without it is the only piece |
| `StringFacts.SplitOnce` | UnusedAssetsFinder.cs:1416 | a separator that occurs once cuts the text into the part before and the part after it |
| `StringFacts.SplitCharFirstPiece` | UnusedAssetsFinder.cs:1575 | the first piece of a split on one character is the text before that character |
| `Strings.JoinSplit` | UnusedAssetsFinder.cs:1344 | joining the pieces with the separator gives back the text |
| `Strings.RemoveEmpty` | UnusedAssetsFinder.cs:1394 | the non-empty pieces, and no others |
| `Strings.PrefixBefore` | UnusedAssetsFinder.cs:1383 | the longest prefix free of the split characters |
| `StringFacts.SplitAnyPieces` | UnusedAssetsFinder.cs:1395-1398 | the pieces with the separators cut at put back between them give the text, every cut is at one of the non-empty separators, and no piece holds a separator |
| `StringFacts.ReplaceIsJoinOfSplit` | UnusedAssetsFinder.cs:1682 | replacing is cutting at every occurrence of the target and joining the pieces with the replacement |
| `Strings.ToLower` | UnusedAssetsFinder.cs:1232 | the same length, each character lower-cased |

## Left out

- The editor user interface is not part of this model: the window, its
  drawing, the progress bars, the dialogs and the result browser
  (`OnGUI`, `DisplayResults`, `ShowReferencedAssets`,
  `GenerateSelectionDictionary`).
- Saving to and loading from `PlayerPrefs` with `JsonUtility` is left out.
  `PreSerialization` and `PostSerialization` are modelled, and so is the
  round trip between them.
- The quarantine and recovery of assets (`MoveAssetsToRecovery`,
  `RecoverAssets`, `MoveAsset`) are not part of this model.
  `DereferenceAsset` is modelled on the analysis tables. Its selection and
  foldout bookkeeping (lines 1870-1880) is user-interface state and is left
  out.
- The wall clock is the parameter `stopAfter`. The `CheckInterruption`
  calls inside the slice loops are not repeated: nothing can raise the
  flag during a slice, because the model has no concurrency.
- The `Instance == null` branches of `CancelOperations` and
  `CheckInterruption` are left out. The model always has a window.
- The `null` checks on `classToGuids` and `guidToReferences` in
  `DereferenceAsset` are left out. The model's dictionaries are never
  `null`.
- The host is fixed across the slices of a step. Edits to the project
  between two editor updates are not modelled.
- `asyncAssetBundles` is not kept as a field. The seeding of the
  time-sliced chain step computes the bundle lists from `guidToReferences`
  in the same slice.
- The seeding loop of `AsyncRefAnalysis` reads the open scene at
  `progressIndex`, not at its loop counter. Both start at 0 on the first
  slice and move together, so the model uses the loop position.
- `GetAllScriptsInAssembly` and `ConvertToProjectPath` are not part of
  this model. They walk the file system. The scripts an assembly compiles
  are an input (`Host.assemblyScripts`).
- String comparisons that depend on culture (`ToLower`, `StartsWith`,
  `Contains`) are modelled as ordinal, with ASCII-only lower-casing.
  `char.IsWhiteSpace` is the .NET set of white-space characters.
- The `Debug.LogError` for a script that was not indexed is left out. The
  model skips that script, as the code does.
- Scanners.KindEdges: the scans that run before the script scan (bundle,
  scene, assembly) cannot throw in the model. The model states what they
  store as one ordered list, not as a promise about each scan on its own.
- The loops of the per-file scanners (`Scanners.BundleEdges`,
  `Scanners.GuidEdges`, `Scanners.AssemblyEdges`, `Scanners.SceneEdges`,
  `Scanners.ResourceFragsFrom`, `Scanners.LinkCallsFrom`,
  `Scanners.NameHitsFrom`, `Scanners.ClassNamesFrom`,
  `Scanners.FindResourceFrom`), of `AssetTypes.IsTextFile` and of the
  `DereferenceAsset` purges (`ResultTables.PurgeLists`) are functions
  (recursions, quantifiers or map comprehensions), not `while` loops. A scanner's references are computed as a
  list and then stored in order by the `AddAssetReferences` loop, so the
  model does not show each `AddAssetReference` call interleaved with the
  scan. The purges give each list anew instead of removing from it in place.
- After `Dictionary.Remove`, the model keeps the remaining keys in their
  old order. .NET leaves the enumeration order after a removal
  unspecified.
- Finder.UnusedAssetsFinder.AsyncAssetIndexing: a slice called again after
  a slice threw is not modelled as a method call, because the method
  requires the state of a run without a throw. `Phases.IndexAssetRetry`
  states on values what such a call does: the path under the unchanged
  cursor throws again and no table changes.
- Finder.UnusedAssetsFinder.AsyncAnalysis: likewise, a slice called again
  after a throw is not a method call of the model. `Phases.AnalysisRetry`
  states that the asset under the cursor throws again and that storing its
  references again changes neither table.
- `StartAsyncIndexing` does not clear `asyncAssetPaths`; only lines 555-556
  set it, and only when it is `null`. A later time-sliced run therefore
  indexes the path list fetched by the first one, even when the asset
  database has changed since. The model keeps this: `AsyncPaths` is the
  stored list once there is one.
- Scanners.BundleLine: its own contract states soundness only.
  `Scanners.BundleNamed` states that a bundle named on the first key line
  gives exactly its reference.
- Scanners.BundleEdges: its own contract states soundness only; the same
  lemma `Scanners.BundleNamed` states completeness.
- Scanners.NameHitsFrom: its contract does not state that a valid
  occurrence produces references; `Scanners.NameHitsFirstFragment` states
  it for an occurrence after a first fragment free of quotes and comment
  markers.
- Scanners.LinkCallsFrom: its own contract states soundness only.
  `Scanners.LoadPathLiteral` and `Scanners.ResourceLoadLinks` state what it
  links for a call written as a literal.
- Scanners.ResourceFragsFrom: its own contract states soundness only.
  `Scanners.ResourceCallsOnce` states what it does for a line with one
  call whose text before it is outside strings and comments.
- Scanners.ScanLine: its own contract states soundness only.
  `Scanners.ClassNameLinks` and `Scanners.ResourceLoadLinks` state
  completeness for one line.
- Scanners.ScriptEdges: its own contract states soundness only. No lemma
  carries the completeness of one line through the line loop to the whole
  script.
- Scanners.ResourceCalls: its own contract states soundness only.
  Completeness is stated by `Scanners.ResourceLoadLinks` for a call whose
  text before it holds no quote and no comment marker; a call after a
  string that closes earlier on the line is not covered.
- Scanners.ClassNamesFrom: its own contract states soundness only.
  Completeness is stated by `Scanners.ClassNameLinks` for a first
  occurrence whose text before it holds no quote and no comment marker.

## Findings

| source | as written | input that shows it | evidently intended | confidence | as-written member | corrected member |
|---|---|---|---|---|---|---|
| UnusedAssetsFinder.cs:1835-1844 | the forgotten GUID is purged from the other referrer lists of `guidToSources` only when the GUID has an entry of its own, that is, only when something references it | asset x references y, nothing references x, and x is forgotten: `guidToSources["y"]` still lists x while `guidToReferences` no longer has x, so the two tables disagree | purge the GUID from every referrer list whether or not it has an entry, as the code already does for `guidToReferences` (lines 1858-1867) | not executed | `ResultTables.DereferenceAsWrittenKeepsReferrer` | `ResultTables.DereferenceSymmetric` |
