/**
 * The reference scanners. For one indexed file they produce, in order, the
 * references `AddAssetReference` is called with: the asset-bundle edge from
 * its `.meta`, the build-settings edge of an open scene, the GUIDs written in
 * YAML and assembly-definition files, and the resources and class names a
 * script mentions. A scanner that throws keeps the references it produced
 * before the exception (they were already stored).
 */
module Scanners {
  import opened Strings
  import opened StringFacts
  import opened Collections
  import opened References
  import opened AssetTypes
  import opened Project
  import ClassNames

  const BUILD_SETTINGS_FLAG := "BuildSettings"
  const ASSET_BUNDLE_FLAG := "(Asset bundle) "
  const BUNDLE_NAME_KEY := "assetBundleName: "
  const GUID_FLAG := "guid:"
  /** `GUID_FLAG.ToUpper()`, the key assembly definitions write GUIDs under. */
  const GUID_FLAG_UPPER := "GUID:"
  /** A backslash followed by a double quote. */
  const ESCAPED_QUOTE := "\\\""
  const QUOTE := "\""
  const RESOURCES_CALL := "Resources.Load"
  const RESOURCES_DIR := "Resources/"
  const LINE_COMMENT := "//"
  const BLOCK_OPEN := "/*"
  const BLOCK_CLOSE := "*/"

  /** References produced so far, and whether the scanner ran to the end without throwing. */
  datatype Scan = Scan(edges: seq<Edge>, ok: bool)

  const NOTHING := Scan([], true)
  const THROWS := Scan([], false)

  /** `a` then `b`, unless `a` threw: a throw skips the rest and keeps what came before. */
  function Then(a: Scan, b: Scan): (r: Scan)
    ensures r.ok <==> a.ok && b.ok
    ensures forall e :: e in r.edges ==> e in a.edges || e in b.edges
    ensures a.ok ==> forall e :: e in b.edges ==> e in r.edges
    ensures forall e :: e in a.edges ==> e in r.edges
  {
    if a.ok then Scan(a.edges + b.edges, b.ok) else a
  }

  /** Chaining scanners does not depend on how they are grouped. */
  lemma ThenAssociative(a: Scan, b: Scan, c: Scan)
    ensures Then(Then(a, b), c) == Then(a, Then(b, c))
  {
    if a.ok && b.ok {
      assert (a.edges + b.edges) + c.edges == a.edges + (b.edges + c.edges);
    }
  }

  /** `referrer` referencing each GUID of `guids`, in order. */
  function Targets(referrer: string, guids: seq<string>): (es: seq<Edge>)
    ensures |es| == |guids|
    ensures forall e :: e in es <==> e.referrer == referrer && e.referenced in guids
  {
    if guids == [] then []
    else [Edge(referrer, guids[0])] + Targets(referrer, guids[1..])
  }

  // ----- Asset bundles and build settings -----

  /** The edge a `.meta` line naming a bundle gives: from the bundle's key, unless the name is empty. */
  function BundleLine(line: string, guid: string): (es: seq<Edge>)
    requires Contains(line, BUNDLE_NAME_KEY)
    ensures |es| <= 1
    ensures forall e :: e in es ==> e.referenced == guid && StartsWith(e.referrer, ASSET_BUNDLE_FLAG)
  {
    var name := Split(line, BUNDLE_NAME_KEY)[1];
    if name == [] then [] else [Edge(ASSET_BUNDLE_FLAG + TrimEndChar(name, '\n'), guid)]
  }

  /** The asset-bundle check of `ManageFile`: only the first line mentioning the key counts. */
  function BundleEdges(metaLines: seq<string>, guid: string): (es: seq<Edge>)
    ensures |es| <= 1
    ensures forall e :: e in es ==> e.referenced == guid && StartsWith(e.referrer, ASSET_BUNDLE_FLAG)
    ensures (forall i :: 0 <= i < |metaLines| ==> !Contains(metaLines[i], BUNDLE_NAME_KEY)) ==> es == []
  {
    if metaLines == [] then []
    else if !Contains(metaLines[0], BUNDLE_NAME_KEY) then BundleEdges(metaLines[1..], guid)
    else BundleLine(metaLines[0], guid)
  }

  /** The bundle edge is decided by the first line that mentions the key; later ones are ignored. */
  lemma {:induction false} BundleFromFirstKeyLine(metaLines: seq<string>, guid: string, i: nat)
    requires i < |metaLines| && Contains(metaLines[i], BUNDLE_NAME_KEY)
    requires forall j :: 0 <= j < i ==> !Contains(metaLines[j], BUNDLE_NAME_KEY)
    ensures BundleEdges(metaLines, guid) == BundleLine(metaLines[i], guid)
  {
    if i > 0 {
      BundleFromFirstKeyLine(metaLines[1..], guid, i - 1);
    }
  }

  /**
   * A `.meta` file whose first key line names a bundle gives exactly the
   * bundle's edge: from the flagged name, without its trailing line feeds,
   * to the asset.
   */
  lemma BundleNamed(metaLines: seq<string>, guid: string, i: nat, pre: string, name: string)
    requires i < |metaLines| && metaLines[i] == pre + BUNDLE_NAME_KEY + name
    requires IndexOf(metaLines[i], BUNDLE_NAME_KEY) == |pre|
    requires forall j :: 0 <= j < i ==> !Contains(metaLines[j], BUNDLE_NAME_KEY)
    requires name != [] && !Contains(name, BUNDLE_NAME_KEY)
    ensures BundleEdges(metaLines, guid) == [Edge(ASSET_BUNDLE_FLAG + TrimEndChar(name, '\n'), guid)]
  {
    var line := metaLines[i];
    BundleFromFirstKeyLine(metaLines, guid, i);
    SplitUnfold(line, BUNDLE_NAME_KEY);
    assert line[|pre| + |BUNDLE_NAME_KEY|..] == name;
    assert Split(name, BUNDLE_NAME_KEY) == [name];
  }

  /** `ManageSceneFile`'s build-settings check: one edge per open scene at this path. */
  function SceneEdges(openScenes: seq<string>, path: string, guid: string): (es: seq<Edge>)
    ensures forall e :: e in es ==> e == Edge(BUILD_SETTINGS_FLAG, guid)
    ensures es != [] <==> path in openScenes
  {
    if openScenes == [] then []
    else
      var head := if openScenes[0] == path then [Edge(BUILD_SETTINGS_FLAG, guid)] else [];
      head + SceneEdges(openScenes[1..], path, guid)
  }

  // ----- GUIDs in YAML and assembly definitions -----

  /** The GUID after `guid:` on a YAML line: up to the first comma, escaped quotes removed, trimmed. */
  function YamlToken(line: string): string
    requires Contains(line, GUID_FLAG)
  {
    Trim(Replace(Split(Split(line, GUID_FLAG)[1], ",")[0], ESCAPED_QUOTE, ""))
  }

  /** The GUID after `GUID:` on an assembly-definition line: up to the next quote, trimmed. */
  function JsonToken(line: string): string
    requires Contains(line, GUID_FLAG_UPPER)
  {
    Trim(Split(Split(line, GUID_FLAG_UPPER)[1], QUOTE)[0])
  }

  /** The GUID a YAML line mentions, if it has the `guid:` key. */
  function YamlGuids(line: string): seq<string>
  {
    if Contains(line, GUID_FLAG) then [YamlToken(line)] else []
  }

  /** The GUID an assembly-definition line mentions, if it has the `GUID:` key. */
  function JsonGuids(line: string): seq<string>
  {
    if Contains(line, GUID_FLAG_UPPER) then [JsonToken(line)] else []
  }

  /** A reference from `guid` to each of `guids` that is an indexed asset, in order. */
  function KnownEdges(guid: string, guids: seq<string>, known: Dict<string>): (es: seq<Edge>)
    ensures forall e :: e in es <==> e.referrer == guid && e.referenced in guids && e.referenced in known.m
  {
    if guids == [] then []
    else
      var head := if guids[0] in known.m then [Edge(guid, guids[0])] else [];
      head + KnownEdges(guid, guids[1..], known)
  }

  /**
   * The line loop shared by the YAML and assembly-definition scanners: a
   * reference from `guid` to each GUID `read` finds on a line that is an
   * indexed asset, and to nothing else.
   */
  function GuidEdges(lines: seq<string>, guid: string, known: Dict<string>, read: string -> seq<string>): (es: seq<Edge>)
    ensures forall e :: e in es <==>
      (e.referrer == guid && e.referenced in known.m
       && exists i :: 0 <= i < |lines| && e.referenced in read(lines[i]))
  {
    if lines == [] then []
    else
      var rest := GuidEdges(lines[1..], guid, known, read);
      assert forall i :: 0 < i < |lines| ==> lines[i] == lines[1..][i - 1];
      KnownEdges(guid, read(lines[0]), known) + rest
  }

  /** `ManageYAMLFile`. */
  function YamlEdges(lines: seq<string>, guid: string, known: Dict<string>): seq<Edge>
  {
    GuidEdges(lines, guid, known, YamlGuids)
  }

  /** The GUID half of `ManageJSONFile`. */
  function JsonEdges(lines: seq<string>, guid: string, known: Dict<string>): seq<Edge>
  {
    GuidEdges(lines, guid, known, JsonGuids)
  }

  /**
   * The script half of `ManageJSONFile`: every indexed script the assembly
   * compiles references the assembly; an unindexed one is skipped.
   */
  function AssemblyEdges(scriptGuids: seq<string>, guid: string, known: Dict<string>): (es: seq<Edge>)
    ensures forall e :: e in es <==> e.referenced == guid && e.referrer in scriptGuids && e.referrer in known.m
  {
    if scriptGuids == [] then []
    else
      var head := if scriptGuids[0] in known.m then [Edge(scriptGuids[0], guid)] else [];
      head + AssemblyEdges(scriptGuids[1..], guid, known)
  }

  // ----- Scripts -----

  /**
   * `IsValidInClassName`: the character codes 0-9 (control codes, not the
   * digits), the upper- and lower-case ASCII letters and the underscore.
   */
  predicate IsValidInClassName(c: char)
  {
    (0 <= c as int <= 9) || (65 <= c as int <= 90) || c as int == 95 || (97 <= c as int <= 122)
  }

  /**
   * A name character is an ASCII letter, the underscore or a code below 10;
   * in particular the digits '0'-'9' end a name.
   */
  lemma NameCharacters(c: char)
    ensures IsValidInClassName(c) <==> ('A' <= c <= 'Z' || 'a' <= c <= 'z' || c == '_' || c as int < 10)
    ensures '0' <= c <= '9' ==> !IsValidInClassName(c)
  {
  }

  /**
   * The block-comment flag after a piece of text: set when its last `/*`
   * comes after its last `*/`, cleared in the opposite case, and kept when
   * the text has neither.
   */
  function BlockFlag(s: string, flag: bool): (r: bool)
    ensures !Contains(s, BLOCK_OPEN) && !Contains(s, BLOCK_CLOSE) ==> r == flag
    ensures Contains(s, BLOCK_OPEN) && !Contains(s, BLOCK_CLOSE) ==> r
    ensures !Contains(s, BLOCK_OPEN) && Contains(s, BLOCK_CLOSE) ==> !r
  {
    var open := LastIndexOf(s, BLOCK_OPEN);
    var close := LastIndexOf(s, BLOCK_CLOSE);
    if open > close then true else if close > open then false else flag
  }

  /**
   * The flag after a piece of text, case by case: kept with neither marker,
   * set by `/*` alone, cleared by `*/` alone, and with both markers set
   * exactly when some `/*` comes after every `*/`, whatever it was before.
   */
  lemma BlockFlagLastMarkerWins(s: string, flag: bool)
    ensures !Contains(s, BLOCK_OPEN) && !Contains(s, BLOCK_CLOSE) ==> BlockFlag(s, flag) == flag
    ensures Contains(s, BLOCK_OPEN) && !Contains(s, BLOCK_CLOSE) ==> BlockFlag(s, flag)
    ensures !Contains(s, BLOCK_OPEN) && Contains(s, BLOCK_CLOSE) ==> !BlockFlag(s, flag)
    ensures Contains(s, BLOCK_OPEN) && Contains(s, BLOCK_CLOSE) ==>
      (BlockFlag(s, flag) <==> exists i :: OccursAt(s, BLOCK_OPEN, i) && forall j :: OccursAt(s, BLOCK_CLOSE, j) ==> j < i)
  {
    if Contains(s, BLOCK_OPEN) && Contains(s, BLOCK_CLOSE) {
      var open, close := LastIndexOf(s, BLOCK_OPEN), LastIndexOf(s, BLOCK_CLOSE);
      assert open != close by {
        assert s[open] == BLOCK_OPEN[0] && s[close] == BLOCK_CLOSE[0];
      }
      if open > close {
        assert OccursAt(s, BLOCK_OPEN, open);
      } else {
        assert OccursAt(s, BLOCK_CLOSE, close);
      }
    }
  }

  /** A line the script scanner skips outright: its first non-blank characters are `//`. */
  predicate IsCommentLine(line: string)
  {
    StartsWith(TrimStart(line), LINE_COMMENT)
  }

  /** What the script scanner knows about the script it reads. */
  datatype ScriptContext = ScriptContext(
    guid: string,
    classToGuids: Dict<seq<string>>,
    declared: seq<string>,
    resPathToGuid: Dict<string>)
  {
    ghost predicate Valid()
    {
      classToGuids.Valid() && resPathToGuid.Valid()
    }
  }

  /** The class names registered for `guid`, in key order, from position `i` on. */
  function DeclaredFrom(ct: Dict<seq<string>>, guid: string, i: nat): (r: seq<string>)
    requires ct.Valid() && i <= |ct.keys|
    ensures forall k :: k in r <==> k in ct.keys[i..] && guid in ct.m[k]
    decreases |ct.keys| - i
  {
    if i >= |ct.keys| then []
    else (if guid in ct.m[ct.keys[i]] then [ct.keys[i]] else []) + DeclaredFrom(ct, guid, i + 1)
  }

  /** One step of `DeclaredFrom`, after the names already collected in `pre`. */
  lemma DeclaredFromNext(ct: Dict<seq<string>>, guid: string, i: nat, pre: seq<string>)
    requires ct.Valid() && i < |ct.keys|
    ensures guid in ct.m[ct.keys[i]] ==> pre + DeclaredFrom(ct, guid, i) == (pre + [ct.keys[i]]) + DeclaredFrom(ct, guid, i + 1)
    ensures guid !in ct.m[ct.keys[i]] ==> pre + DeclaredFrom(ct, guid, i) == pre + DeclaredFrom(ct, guid, i + 1)
  {
    var k := ct.keys[i];
    if guid in ct.m[k] {
      assert (pre + [k]) + DeclaredFrom(ct, guid, i + 1) == pre + ([k] + DeclaredFrom(ct, guid, i + 1));
    } else {
      assert DeclaredFrom(ct, guid, i) == [] + DeclaredFrom(ct, guid, i + 1);
    }
  }

  /** The classes a script declares: the names whose GUID list holds the script's GUID. */
  function DeclaredClasses(ct: Dict<seq<string>>, guid: string): (r: seq<string>)
    requires ct.Valid()
    ensures forall k :: k in r <==> k in ct.m && guid in ct.m[k]
  {
    DeclaredFrom(ct, guid, 0)
  }

  /**
   * The editor links of `ManageScriptFile`, over the class names from
   * position `i` on: a class the script declares that has a custom editor
   * links the script to the editor's GUIDs. An editor class name that is not
   * itself registered is a missing key.
   */
  function EditorEdgesFrom(ct: Dict<seq<string>>, ce: Dict<string>, guid: string, i: nat): (s: Scan)
    requires ct.Valid()
    ensures forall e :: e in s.edges ==> e.referrer == guid
    decreases |ct.keys| - i
  {
    if i >= |ct.keys| then NOTHING
    else
      var k := ct.keys[i];
      if guid in ct.m[k] && k in ce.m then
        if ce.m[k] !in ct.m then THROWS
        else Then(Scan(Targets(guid, ct.m[ce.m[k]]), true), EditorEdgesFrom(ct, ce, guid, i + 1))
      else EditorEdgesFrom(ct, ce, guid, i + 1)
  }

  /**
   * When the editor links complete, a script declaring an inspected type is
   * linked to every GUID of that type's editor class.
   */
  lemma {:induction false} EditorLinks(ct: Dict<seq<string>>, ce: Dict<string>, guid: string, i: nat)
    requires ct.Valid() && i <= |ct.keys|
    ensures var s := EditorEdgesFrom(ct, ce, guid, i);
      s.ok ==> forall k :: k in ct.keys[i..] && guid in ct.m[k] && k in ce.m ==>
        ce.m[k] in ct.m && forall g :: g in ct.m[ce.m[k]] ==> Edge(guid, g) in s.edges
    decreases |ct.keys| - i
  {
    if i < |ct.keys| {
      EditorLinks(ct, ce, guid, i + 1);
      assert forall k :: k in ct.keys[i..] ==> k == ct.keys[i] || k in ct.keys[i + 1..];
    }
  }

  /** Resource paths compare with backslashes turned into slashes. */
  function Normalize(p: string): string
  {
    Replace(p, "\\", "/")
  }

  /**
   * The load path a `Resources` asset answers to: what follows its first
   * `Resources/`, with every occurrence of its extension removed. A path
   * without `Resources/` fails to index, and one without an extension makes
   * the removal throw.
   */
  function ResourceKey(path: string): Result<string>
  {
    var parts := Split(path, RESOURCES_DIR);
    if |parts| < 2 then Throws
    else
      var after := parts[1];
      var ext := Extension(after);
      if ext == [] then Throws else Ok(Normalize(Replace(after, ext, "")))
  }

  /** The load path of each `Resources` asset, in key order. */
  function ResourceKeys(res: Dict<string>): (ks: seq<Result<string>>)
    ensures |ks| == |res.keys|
    ensures forall i :: 0 <= i < |ks| ==> ks[i] == ResourceKey(res.keys[i])
  {
    seq(|res.keys|, i requires 0 <= i < |res.keys| => ResourceKey(res.keys[i]))
  }

  /**
   * `FindResourcesReference`, over the resource paths from position `i` on,
   * given their load paths `ks`: the first whose load path matches is linked
   * and the search stops.
   */
  function FindResourceFrom(load: string, ks: seq<Result<string>>, res: Dict<string>, guid: string, i: nat): (s: Scan)
    requires res.Valid() && |ks| == |res.keys|
    ensures |s.edges| <= 1
    ensures forall e :: e in s.edges ==> e.referrer == guid && e.referenced in res.m.Values
    decreases |ks| - i
  {
    if i >= |ks| then NOTHING
    else
      match ks[i]
      case Throws => THROWS
      case Ok(key) =>
        if key == Normalize(load) then Scan([Edge(guid, res.m[res.keys[i]])], true)
        else FindResourceFrom(load, ks, res, guid, i + 1)
  }

  /** `FindResourcesReference(load, guid)`. */
  function FindResource(load: string, res: Dict<string>, guid: string): (s: Scan)
    requires res.Valid()
    ensures |s.edges| <= 1
    ensures forall e :: e in s.edges ==> e.referrer == guid && e.referenced in res.m.Values
  {
    FindResourceFrom(load, ResourceKeys(res), res, guid, 0)
  }

  /**
   * The search links the first matching resource and only it, having read
   * every path before it; it links nothing and completes only when every
   * path was readable and none matched; it throws only at an unreadable path.
   */
  lemma {:induction false} FindResourceFirstMatch(load: string, ks: seq<Result<string>>, res: Dict<string>, guid: string, i: nat)
    requires res.Valid() && |ks| == |res.keys|
    ensures var s := FindResourceFrom(load, ks, res, guid, i);
      (forall e :: e in s.edges ==>
        (s.ok
         && (exists j :: i <= j < |ks| && ks[j] == Ok(Normalize(load)) && e.referenced == res.m[res.keys[j]]
               && forall l :: i <= l < j ==> ks[l].Ok? && ks[l].value != Normalize(load))))
      && (s == NOTHING ==> forall j :: i <= j < |ks| ==> ks[j].Ok? && ks[j].value != Normalize(load))
      && (!s.ok ==> exists j :: i <= j < |ks| && ks[j] == Throws)
    decreases |ks| - i
  {
    if i < |ks| {
      FindResourceFirstMatch(load, ks, res, guid, i + 1);
    }
  }

  /** The first string literal inside the parentheses after a `Resources.Load`, if any; no `(` is an index error. */
  function LoadPath(call: string): Result<seq<string>>
  {
    var parts := Split(call, "(");
    if |parts| < 2 then Throws
    else
      var argument := Split(parts[1], ")")[0];
      Ok(if Contains(argument, QUOTE) then [Split(argument, QUOTE)[1]] else [])
  }

  /** Links every `Resources.Load` call of the line, from the piece at position `h` on. */
  function LinkCallsFrom(calls: seq<string>, h: nat, ctx: ScriptContext): (s: Scan)
    requires ctx.Valid()
    ensures forall e :: e in s.edges ==> e.referrer == ctx.guid && e.referenced in ctx.resPathToGuid.m.Values
    decreases |calls| - h
  {
    if h >= |calls| then NOTHING
    else
      match LoadPath(calls[h])
      case Throws => THROWS
      case Ok(paths) =>
        var found := if paths == [] then NOTHING else FindResource(paths[0], ctx.resPathToGuid, ctx.guid);
        Then(found, LinkCallsFrom(calls, h + 1, ctx))
  }

  /** The per-line state of a fragment scan: quotes seen, inside an inline block comment, inside a string. */
  datatype FragState = FragState(quotes: nat, inLocalComment: bool, inString: bool)

  const FRESH := FragState(0, false, false)

  /**
   * The `Resources.Load` scan of a line cut at each call, from the fragment
   * at position `j` on. A fragment inside an inline block comment is passed
   * over; a `//` ends the scan; quotes are counted across fragments (an empty
   * piece between quotes is an index error); the first fragment left outside
   * a string links every call of the line.
   */
  function ResourceFragsFrom(frags: seq<string>, j: nat, st: FragState, ctx: ScriptContext): (s: Scan)
    requires ctx.Valid()
    ensures forall e :: e in s.edges ==> e.referrer == ctx.guid && e.referenced in ctx.resPathToGuid.m.Values
    decreases |frags| - j
  {
    if j + 1 >= |frags| then NOTHING
    else
      var frag := frags[j];
      var local := BlockFlag(frag, st.inLocalComment);
      if local then ResourceFragsFrom(frags, j + 1, st.(inLocalComment := true), ctx)
      else if Contains(frag, LINE_COMMENT) then NOTHING
      else if Contains(frag, QUOTE) && [] in Split(frag, QUOTE)[..|Split(frag, QUOTE)| - 1] then THROWS
      else
        var next :=
          if !Contains(frag, QUOTE) then st.(inLocalComment := false)
          else
            var pieces := Split(frag, QUOTE);
            var quotes := st.quotes + ClassNames.CountOpening(pieces, |pieces| - 1);
            FragState(quotes, false, quotes % 2 != 0);
        if next.inString then ResourceFragsFrom(frags, j + 1, next, ctx)
        else Then(LinkCallsFrom(frags, 1, ctx), ResourceFragsFrom(frags, j + 1, next, ctx))
  }

  /** The `Resources.Load` part of a script line. */
  function ResourceCalls(line: string, ctx: ScriptContext): (s: Scan)
    requires ctx.Valid()
    ensures forall e :: e in s.edges ==> e.referrer == ctx.guid && e.referenced in ctx.resPathToGuid.m.Values
  {
    if !Contains(line, RESOURCES_CALL) then NOTHING
    else ResourceFragsFrom(Split(line, RESOURCES_CALL), 0, FRESH, ctx)
  }

  /**
   * The occurrences of class name `name` in a line cut at each occurrence,
   * from the fragment at position `j` on. Comments and quotes are tracked as
   * for resources (empty pieces between quotes are dropped here); an
   * occurrence outside a string whose neighbouring characters are not name
   * characters links the script to every GUID declaring `name`. An empty
   * fragment outside a string is an index error.
   */
  function NameHitsFrom(frags: seq<string>, j: nat, st: FragState, name: string, ctx: ScriptContext): (s: Scan)
    requires ctx.Valid() && name in ctx.classToGuids.m
    ensures forall e :: e in s.edges ==> e.referrer == ctx.guid && e.referenced in ctx.classToGuids.m[name]
    ensures s.edges != [] ==> forall g :: g in ctx.classToGuids.m[name] ==> Edge(ctx.guid, g) in s.edges
    decreases |frags| - j
  {
    if j + 1 >= |frags| then NOTHING
    else
      var frag := frags[j];
      var local := BlockFlag(frag, st.inLocalComment);
      if local then NameHitsFrom(frags, j + 1, st.(inLocalComment := true), name, ctx)
      else if Contains(frag, LINE_COMMENT) then NOTHING
      else
        var next :=
          if !Contains(frag, QUOTE) then st.(inLocalComment := false)
          else
            var pieces := RemoveEmpty(Split(frag, QUOTE));
            var quotes := st.quotes + (if pieces == [] then 0 else ClassNames.CountOpening(pieces, |pieces| - 1));
            FragState(quotes, false, quotes % 2 != 0);
        if next.inString then NameHitsFrom(frags, j + 1, next, name, ctx)
        else if frag == [] then THROWS
        else
          var before := frag[|frag| - 1];
          var after := if frags[j + 1] == [] then ' ' else frags[j + 1][0];
          var hit := if !IsValidInClassName(before) && !IsValidInClassName(after)
            then Targets(ctx.guid, ctx.classToGuids.m[name]) else [];
          Then(Scan(hit, true), NameHitsFrom(frags, j + 1, next, name, ctx))
  }

  /** The class-name part of a script line, over the class names from position `i` on. */
  function ClassNamesFrom(line: string, ctx: ScriptContext, i: nat): (s: Scan)
    requires ctx.Valid()
    ensures forall e :: e in s.edges ==>
      (e.referrer == ctx.guid
       && (exists k :: k in ctx.classToGuids.m && k !in ctx.declared && Contains(line, k)
             && e.referenced in ctx.classToGuids.m[k]))
    decreases |ctx.classToGuids.keys| - i
  {
    if i >= |ctx.classToGuids.keys| then NOTHING
    else
      var name := ctx.classToGuids.keys[i];
      if name in ctx.declared || !Contains(line, name) then ClassNamesFrom(line, ctx, i + 1)
      else Then(NameHitsFrom(Split(line, name), 0, FRESH, name, ctx), ClassNamesFrom(line, ctx, i + 1))
  }

  /**
   * A script never links to itself through a class name: the classes it
   * declares are skipped, and no other name lists its GUID.
   */
  lemma ClassNamesNotSelf(line: string, ctx: ScriptContext)
    requires ctx.Valid() && ctx.declared == DeclaredClasses(ctx.classToGuids, ctx.guid)
    ensures forall e :: e in ClassNamesFrom(line, ctx, 0).edges ==> e.referrer == ctx.guid && e.referenced != ctx.guid
  {
  }

  /** What a script line produces, read with the block-comment flag `inComment` of the lines before it. */
  function ScanLine(line: string, inComment: bool, ctx: ScriptContext): (s: Scan)
    requires ctx.Valid()
    ensures forall e :: e in s.edges ==> e.referrer == ctx.guid
  {
    if IsCommentLine(line) || inComment then NOTHING
    else Then(ResourceCalls(line, ctx), ClassNamesFrom(line, ctx, 0))
  }

  /**
   * The class-name scan includes every link the scan of `name` makes, when
   * it runs to the end and `name` is one of the names from position `i` on
   * that the script does not declare and the line mentions.
   */
  lemma {:induction false} ClassNamesIncludeHits(line: string, ctx: ScriptContext, i: nat, name: string)
    requires ctx.Valid() && i <= |ctx.classToGuids.keys|
    requires name in ctx.classToGuids.keys[i..] && name !in ctx.declared && Contains(line, name)
    ensures var s := ClassNamesFrom(line, ctx, i);
      s.ok ==> forall e :: e in NameHitsFrom(Split(line, name), 0, FRESH, name, ctx).edges ==> e in s.edges
    decreases |ctx.classToGuids.keys| - i
  {
    if ctx.classToGuids.keys[i] != name {
      assert name in ctx.classToGuids.keys[i + 1..];
      ClassNamesIncludeHits(line, ctx, i + 1, name);
    }
  }

  /**
   * The scan of a name's fragments links every GUID of the name when the
   * first fragment is outside strings and comments and the occurrence after
   * it has no name character on either side.
   */
  lemma NameHitsFirstFragment(frags: seq<string>, name: string, ctx: ScriptContext)
    requires ctx.Valid() && name in ctx.classToGuids.m && |frags| >= 2
    requires frags[0] != [] && !IsValidInClassName(frags[0][|frags[0]| - 1])
    requires frags[1] == [] || !IsValidInClassName(frags[1][0])
    requires !Contains(frags[0], QUOTE) && !Contains(frags[0], LINE_COMMENT)
    requires !Contains(frags[0], BLOCK_OPEN) && !Contains(frags[0], BLOCK_CLOSE)
    ensures forall g :: g in ctx.classToGuids.m[name] ==> Edge(ctx.guid, g) in NameHitsFrom(frags, 0, FRESH, name, ctx).edges
  {
    assert !BlockFlag(frags[0], false);
  }

  /**
   * A class name written outside strings and comments, with no name
   * character on either side, links the script to every GUID declaring the
   * class, unless the script declares it or the line's scan throws.
   */
  lemma ClassNameLinks(line: string, pre: string, name: string, post: string, ctx: ScriptContext)
    requires ctx.Valid() && name in ctx.classToGuids.m && name !in ctx.declared
    requires line == pre + name + post && IndexOf(line, name) == |pre| && name != []
    requires pre != [] && !IsValidInClassName(pre[|pre| - 1])
    requires post == [] || !IsValidInClassName(post[0])
    requires !Contains(pre, QUOTE) && !Contains(pre, LINE_COMMENT)
    requires !Contains(pre, BLOCK_OPEN) && !Contains(pre, BLOCK_CLOSE)
    requires !IsCommentLine(line)
    ensures var s := ScanLine(line, false, ctx);
      s.ok ==> forall g :: g in ctx.classToGuids.m[name] ==> Edge(ctx.guid, g) in s.edges
  {
    var frags := Split(line, name);
    assert frags == [pre] + Split(post, name) by {
      SplitUnfold(line, name);
      assert line[..|pre|] == pre && line[|pre| + |name|..] == post;
    }
    SplitHead(post, name);
    NameHitsFirstFragment(frags, name, ctx);
    ClassNamesIncludeHits(line, ctx, 0, name);
  }

  /** The resource search links the `k`-th resource when it is the first whose load path matches and the search completes. */
  lemma {:induction false} FindResourceLinks(load: string, ks: seq<Result<string>>, res: Dict<string>, guid: string, i: nat, k: nat)
    requires res.Valid() && |ks| == |res.keys| && i <= k < |ks|
    requires ks[k] == Ok(Normalize(load)) && forall l :: i <= l < k ==> ks[l] != Ok(Normalize(load))
    ensures var s := FindResourceFrom(load, ks, res, guid, i);
      s.ok ==> s.edges == [Edge(guid, res.m[res.keys[k]])]
    decreases k - i
  {
    if i < k {
      FindResourceLinks(load, ks, res, guid, i + 1, k);
    }
  }

  /** What follows the first `(` of `("p")…`, up to the next `(`. */
  lemma LoadPathOpen(p: string, post: string)
    requires '"' !in p && '(' !in p && ')' !in p
    ensures var parts := Split("(\"" + p + "\")" + post, "(");
      |parts| >= 2 && parts[1] == "\"" + p + "\"" + ")" + PrefixBefore(post, {'('})
  {
    var head := "\"" + p + "\"" + ")";
    assert "(\"" + p + "\")" + post == ['('] + head + post;
    assert '(' !in head;
    OpenThenPiece(head, post, '(');
  }

  /** The argument text, up to the first `)`. */
  lemma LoadPathClose(p: string, x: string)
    requires ')' !in p
    ensures Split("\"" + p + "\"" + ")" + x, ")")[0] == "\"" + p + "\""
  {
    assert "\"" + p + "\"" + ")" + x == ("\"" + p + "\"") + [')'] + x;
    SplitCharConcat("\"" + p + "\"", ')', x);
  }

  /** The literal between the argument's first two quotes. */
  lemma LoadPathQuoted(p: string)
    requires '"' !in p
    ensures Contains("\"" + p + "\"", QUOTE)
    ensures |Split("\"" + p + "\"", QUOTE)| >= 2 && Split("\"" + p + "\"", QUOTE)[1] == p
  {
    var quoted := "\"" + p + "\"";
    CharOccurs(quoted, '"', 0);
    assert quoted == [] + ['"'] + (p + ['"'] + []);
    SplitCharConcat([], '"', p + ['"'] + []);
    SplitCharConcat(p, '"', []);
  }

  /** The argument `("p")` of a `Resources.Load` call loads `p`, whatever follows the call. */
  lemma LoadPathLiteral(p: string, post: string)
    requires '"' !in p && '(' !in p && ')' !in p
    ensures LoadPath("(\"" + p + "\")" + post) == Ok([p])
  {
    LoadPathOpen(p, post);
    LoadPathClose(p, PrefixBefore(post, {'('}));
    LoadPathQuoted(p);
  }

  /**
   * A line cut at its one `Resources.Load` whose text before the call is
   * outside strings and comments: the calls are linked once, from the
   * fragment before the call.
   */
  lemma ResourceCallsOnce(line: string, pre: string, call: string, ctx: ScriptContext)
    requires ctx.Valid() && line == pre + RESOURCES_CALL + call
    requires IndexOf(line, RESOURCES_CALL) == |pre| && !Contains(call, RESOURCES_CALL)
    requires !Contains(pre, QUOTE) && !Contains(pre, LINE_COMMENT)
    requires !Contains(pre, BLOCK_OPEN) && !Contains(pre, BLOCK_CLOSE)
    ensures ResourceCalls(line, ctx) == Then(LinkCallsFrom([pre, call], 1, ctx), NOTHING)
  {
    var frags := [pre, call];
    SplitOnce(line, pre, RESOURCES_CALL, call);
    assert !BlockFlag(pre, false);
    assert ResourceFragsFrom(frags, 1, FRESH, ctx) == NOTHING;
    assert ResourceFragsFrom(frags, 0, FRESH, ctx) == Then(LinkCallsFrom(frags, 1, ctx), ResourceFragsFrom(frags, 1, FRESH, ctx));
  }

  /**
   * A `Resources.Load("p")` outside strings and comments, where `p` is the
   * load path of a `Resources` asset, links the script to that asset (the
   * first one with that load path), unless the line's scan throws.
   */
  lemma ResourceLoadLinks(line: string, pre: string, p: string, post: string, ctx: ScriptContext, k: nat)
    requires ctx.Valid() && k < |ctx.resPathToGuid.keys|
    requires line == pre + RESOURCES_CALL + ("(\"" + p + "\")" + post)
    requires IndexOf(line, RESOURCES_CALL) == |pre| && !Contains("(\"" + p + "\")" + post, RESOURCES_CALL)
    requires '"' !in p && '(' !in p && ')' !in p
    requires !Contains(pre, QUOTE) && !Contains(pre, LINE_COMMENT)
    requires !Contains(pre, BLOCK_OPEN) && !Contains(pre, BLOCK_CLOSE)
    requires !IsCommentLine(line)
    requires ResourceKey(ctx.resPathToGuid.keys[k]) == Ok(Normalize(p))
    requires forall l :: 0 <= l < k ==> ResourceKey(ctx.resPathToGuid.keys[l]) != Ok(Normalize(p))
    ensures var s := ScanLine(line, false, ctx);
      s.ok ==> Edge(ctx.guid, ctx.resPathToGuid.m[ctx.resPathToGuid.keys[k]]) in s.edges
  {
    var call := "(\"" + p + "\")" + post;
    var found := FindResource(p, ctx.resPathToGuid, ctx.guid);
    ResourceCallsOnce(line, pre, call, ctx);
    LoadPathLiteral(p, post);
    assert LinkCallsFrom([pre, call], 1, ctx) == Then(found, NOTHING);
    FindResourceLinks(p, ResourceKeys(ctx.resPathToGuid), ctx.resPathToGuid, ctx.guid, 0, k);
  }

  /** The block-comment flag after a line; a skipped comment line leaves it as it was. */
  function NextInComment(line: string, inComment: bool): bool
  {
    if IsCommentLine(line) then inComment else BlockFlag(line, inComment)
  }

  /** The script scan after some lines: references so far, no exception yet, the block-comment flag. */
  datatype LinesScan = LinesScan(edges: seq<Edge>, ok: bool, inComment: bool)

  /**
   * A line loop after the first `n` lines, for the per-line scanner `scan`
   * and the block-comment update `flag`: each line is read with the flag the
   * lines before it left, and an exception ends the loop.
   */
  function LineFold(scan: (string, bool) -> Scan, flag: (string, bool) -> bool, lines: seq<string>, n: nat): (r: LinesScan)
    requires n <= |lines|
  {
    if n == 0 then LinesScan([], true, false)
    else
      var p := LineFold(scan, flag, lines, n - 1);
      if !p.ok then p
      else
        var s := scan(lines[n - 1], p.inComment);
        LinesScan(p.edges + s.edges, s.ok, flag(lines[n - 1], p.inComment))
  }

  /** The per-line scanner of the script described by `ctx`. */
  function LineScanner(ctx: ScriptContext): (string, bool) -> Scan
    requires ctx.Valid()
  {
    (line, inComment) => ScanLine(line, inComment, ctx)
  }

  /** The line loop of `ManageScriptFile` after the first `n` lines. */
  function ScanLines(lines: seq<string>, n: nat, ctx: ScriptContext): LinesScan
    requires ctx.Valid() && n <= |lines|
  {
    LineFold(LineScanner(ctx), NextInComment, lines, n)
  }

  /** Every reference the line loop finds comes from the script itself. */
  lemma {:induction false} ScanLinesReferrer(lines: seq<string>, n: nat, ctx: ScriptContext)
    requires ctx.Valid() && n <= |lines|
    ensures forall e :: e in ScanLines(lines, n, ctx).edges ==> e.referrer == ctx.guid
  {
    if n > 0 {
      ScanLinesReferrer(lines, n - 1, ctx);
      var p := ScanLines(lines, n - 1, ctx);
      assert p == LineFold(LineScanner(ctx), NextInComment, lines, n - 1);
      if p.ok {
        var s := ScanLine(lines[n - 1], p.inComment, ctx);
        assert LineScanner(ctx)(lines[n - 1], p.inComment) == s;
        assert ScanLines(lines, n, ctx).edges == p.edges + s.edges;
      }
    }
  }

  /** After an exception, later lines add nothing. */
  lemma {:induction false} LineFoldStuck(scan: (string, bool) -> Scan, flag: (string, bool) -> bool, lines: seq<string>, n: nat, m: nat)
    requires n <= m <= |lines| && !LineFold(scan, flag, lines, n).ok
    ensures LineFold(scan, flag, lines, m) == LineFold(scan, flag, lines, n)
    decreases m
  {
    if m > n {
      LineFoldStuck(scan, flag, lines, n, m - 1);
    }
  }

  /**
   * Every reference of the line loop comes from a line that is neither a
   * comment line nor read while the block-comment flag was set.
   */
  lemma {:induction false} ScanLinesFromCodeLines(lines: seq<string>, n: nat, ctx: ScriptContext)
    requires ctx.Valid() && n <= |lines|
    ensures forall e :: e in ScanLines(lines, n, ctx).edges ==>
      exists i :: 0 <= i < n && !IsCommentLine(lines[i]) && ScanLines(lines, i, ctx).ok
        && !ScanLines(lines, i, ctx).inComment && e in ScanLine(lines[i], false, ctx).edges
  {
    if n > 0 {
      ScanLinesFromCodeLines(lines, n - 1, ctx);
      var p := ScanLines(lines, n - 1, ctx);
      assert p == LineFold(LineScanner(ctx), NextInComment, lines, n - 1);
      if p.ok {
        var s := ScanLine(lines[n - 1], p.inComment, ctx);
        assert LineScanner(ctx)(lines[n - 1], p.inComment) == s;
        assert ScanLines(lines, n, ctx).edges == p.edges + s.edges;
        forall e | e in s.edges
          ensures !IsCommentLine(lines[n - 1]) && !p.inComment && e in ScanLine(lines[n - 1], false, ctx).edges
        {
        }
      }
    }
  }

  /**
   * `ManageScriptFile`: the editor links, then the line loop. `ctx.declared`
   * is computed from the class table before the loop.
   */
  function ScriptEdges(lines: seq<string>, guid: string, ct: Dict<seq<string>>, ce: Dict<string>, res: Dict<string>): (s: Scan)
    requires ct.Valid() && res.Valid()
    ensures forall e :: e in s.edges ==> e.referrer == guid
  {
    var ctx := ScriptContext(guid, ct, DeclaredClasses(ct, guid), res);
    var lineScan := ScanLines(lines, |lines|, ctx);
    ScanLinesReferrer(lines, |lines|, ctx);
    Then(EditorEdgesFrom(ct, ce, guid, 0), Scan(lineScan.edges, lineScan.ok))
  }

  // ----- Dispatch -----

  /** The kinds whose files are scanned as YAML: those whose ordinal is listed in `YAML_INDEXES`. */
  lemma YamlKinds(t: AssetType)
    ensures Ordinal(t) in YAML_INDEXES <==>
      t in {Animation, Avatar, Curves, Font, Material, Prefab, Preset, ScriptableObject, Colors, Terrain, GUISkin}
  {
  }

  /** `ManageFile` runs the YAML scanner: a listed kind, a font only through `.fontsettings` exactly. */
  predicate ScansYaml(t: AssetType, ext: string)
  {
    Ordinal(t) in YAML_INDEXES && (Ordinal(t) != 9 || ext == UNITY_EXTENSIONS[FONT_SETTINGS_INDEX])
  }

  /** What the analysis knows when it reads one file. */
  datatype Tables = Tables(
    guidToPath: Dict<string>,
    resPathToGuid: Dict<string>,
    classToGuids: Dict<seq<string>>,
    classToEditor: Dict<string>)
  {
    ghost predicate Valid()
    {
      guidToPath.Valid() && resPathToGuid.Valid() && classToGuids.Valid() && classToEditor.Valid()
    }
  }

  /** The GUIDs of the scripts an assembly definition compiles. */
  function ScriptGuids(h: Host, path: string): (gs: seq<string>)
    ensures |gs| == |h.assemblyScripts(path)|
  {
    var scripts := h.assemblyScripts(path);
    seq(|scripts|, i requires 0 <= i < |scripts| => h.guidOf(scripts[i]))
  }

  /**
   * The scans `ManageFile` runs before the script scan, none of which
   * throws: the asset-bundle check of the `.meta` companion, then a scene's
   * build-settings and GUID references, or an assembly's JSON references and
   * its scripts.
   */
  function LeadingEdges(h: Host, path: string, guid: string, t: Tables, kind: AssetType): seq<Edge>
  {
    var lines := h.lines(path);
    BundleEdges(h.lines(path + ".meta"), guid)
    + (if kind == Scene then SceneEdges(h.openScenes, path, guid) + YamlEdges(lines, guid, t.guidToPath) else [])
    + (if kind == Assembly then JsonEdges(lines, guid, t.guidToPath) + AssemblyEdges(ScriptGuids(h, path), guid, t.guidToPath) else [])
  }

  /** The script scan, for scripts and editor tools only. */
  function ScriptScan(h: Host, path: string, guid: string, t: Tables, kind: AssetType): Scan
    requires t.Valid()
  {
    if kind == Script || kind == EditorTool
    then ScriptEdges(h.lines(path), guid, t.classToGuids, t.classToEditor, t.resPathToGuid)
    else NOTHING
  }

  /** The YAML scan, for the kinds that call for it. */
  function TrailingEdges(h: Host, path: string, guid: string, t: Tables, kind: AssetType): seq<Edge>
  {
    if ScansYaml(kind, FileExtension(h, path)) then YamlEdges(h.lines(path), guid, t.guidToPath) else []
  }

  /**
   * What `ManageFile` stores for a file of kind `kind`: the leading scans,
   * the script scan, the YAML scan. Every reference touches the file: the
   * file is the referrer, except for the bundle, build-settings and
   * assembly edges, whose referenced end is the file.
   */
  function KindEdges(h: Host, path: string, guid: string, t: Tables, kind: AssetType): (s: Scan)
    requires t.Valid()
    ensures forall e :: e in s.edges ==> e.referrer == guid || e.referenced == guid
  {
    Then(Scan(LeadingEdges(h, path, guid, t, kind), true),
      Then(ScriptScan(h, path, guid, t, kind), Scan(TrailingEdges(h, path, guid, t, kind), true)))
  }

  /**
   * Only the script scan may throw, and a throw skips the YAML scan: the
   * references are those of the scans in order, up to the throw.
   */
  lemma KindEdgesParts(h: Host, path: string, guid: string, t: Tables, kind: AssetType)
    requires t.Valid()
    ensures var script := ScriptScan(h, path, guid, t, kind);
      var s := KindEdges(h, path, guid, t, kind);
      && s.ok == script.ok
      && s.edges == if script.ok
        then (LeadingEdges(h, path, guid, t, kind) + script.edges) + TrailingEdges(h, path, guid, t, kind)
        else LeadingEdges(h, path, guid, t, kind) + script.edges
  {
    ThenAround(LeadingEdges(h, path, guid, t, kind), ScriptScan(h, path, guid, t, kind), TrailingEdges(h, path, guid, t, kind));
  }

  /** A scan between two that cannot throw: its throw ends the chain after the first. */
  lemma ThenAround(lead: seq<Edge>, s: Scan, trail: seq<Edge>)
    ensures Then(Scan(lead, true), Then(s, Scan(trail, true)))
      == if s.ok then Scan((lead + s.edges) + trail, true) else Scan(lead + s.edges, false)
  {
    if s.ok {
      assert (lead + s.edges) + trail == lead + (s.edges + trail);
    }
  }

  /**
   * `ManageFile(path, guid)`: classifying the file may throw before anything
   * is stored; otherwise the references of its kind.
   */
  function FileEdges(h: Host, path: string, guid: string, t: Tables): Scan
    requires t.Valid()
  {
    match KindOf(h, path)
    case Throws => THROWS
    case Ok(kind) => KindEdges(h, path, guid, t, kind)
  }
}
