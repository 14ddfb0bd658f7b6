/**
 * The class-name indexer: a script's text is cut at every `" class "`, the
 * text before each cut is checked with comment and string heuristics, and
 * the word after an accepted cut is recorded as a class the script declares
 * (`classToGuids`). A declaration preceded by a `CustomEditor` attribute
 * also records which type the editor class inspects (`classToEditor`).
 */
module ClassNames {
  import opened Strings
  import opened StringFacts
  import opened Collections

  const CLASS_KEYWORD := " class "
  const EDITOR_ATTRIBUTE := "CustomEditor"

  /** The characters that end a declared class name. */
  const NAME_ENDS: set<char> := {' ', '\'', '\n', '\r', ':', '<'}

  /** The tokens removed around the inspected type in `[CustomEditor(typeof(T))]`. */
  const ATTRIBUTE_TOKENS: seq<string> := ["CustomEditor", "(", ")", "[", "]", "typeof", "\""]

  /** The last line of `s`: what follows its final line feed. */
  function LastLine(s: string): (r: string)
    ensures !Contains(s, "\n") ==> r == s
  {
    Last(Split(s, "\n"))
  }

  /**
   * The last line holds no line feed: it is the text after the final line
   * feed, or the whole text when there is none.
   */
  lemma LastLineAfterFinalFeed(s: string)
    ensures !Contains(LastLine(s), "\n")
    ensures !Contains(s, "\n") ==> LastLine(s) == s
    ensures Contains(s, "\n") ==> LastLine(s) == s[LastIndexOf(s, "\n") + 1..]
  {
    var lines := Split(s, "\n");
    assert !Contains(lines[|lines| - 1], "\n") by {
      SplitPieces(s, "\n");
    }
    SplitCharLast(s, "\n");
  }

  /**
   * How many of `pieces[..n]` end a string opening or closing quote: a piece
   * that is empty, or whose last character is not a backslash.
   */
  function CountOpening(pieces: seq<string>, n: nat): (c: nat)
    requires n <= |pieces|
    ensures c <= n
  {
    if n == 0 then 0
    else CountOpening(pieces, n - 1) + (if EndsUnescaped(pieces[n - 1]) then 1 else 0)
  }

  /** A piece before a quote that does not escape it: empty, or not ending in a backslash. */
  predicate EndsUnescaped(p: string)
  {
    p == [] || p[|p| - 1] != '\\'
  }

  /** `CountOpening` counts exactly the indices below `n` whose piece leaves its quote unescaped. */
  lemma {:induction false} CountOpeningCounts(pieces: seq<string>, n: nat)
    requires n <= |pieces|
    ensures CountOpening(pieces, n) == |set i | 0 <= i < n && EndsUnescaped(pieces[i])|
  {
    if n > 0 {
      CountOpeningCounts(pieces, n - 1);
      var before := set i | 0 <= i < n - 1 && EndsUnescaped(pieces[i]);
      var all := set i | 0 <= i < n && EndsUnescaped(pieces[i]);
      if EndsUnescaped(pieces[n - 1]) {
        assert all == before + {n - 1};
      } else {
        assert all == before;
      }
    }
  }

  /** The number of unescaped double quotes in `line`. */
  function UnescapedQuotes(line: string): nat
  {
    var pieces := Split(line, "\"");
    CountOpening(pieces, |pieces| - 1)
  }

  /** `s` opens a block comment and does not close it after the last opening. */
  predicate InOpenBlockComment(s: string)
  {
    var parts := Split(s, "/*");
    |parts| > 1 && !Contains(parts[|parts| - 1], "*/")
  }

  /**
   * The heuristics that accept the text `prev` before a `" class "` as the
   * lead-in of a declaration: not blank and not ending in `:` (a base list),
   * not inside an unclosed block comment, no line comment on its last line,
   * and an even number of unescaped quotes on that line.
   */
  predicate IsDeclaration(prev: string)
  {
    var t := TrimEnd(prev);
    t != [] && t[|t| - 1] != ':'
    && !InOpenBlockComment(prev)
    && !Contains(LastLine(prev), "//")
    && UnescapedQuotes(LastLine(prev)) % 2 == 0
  }

  /** The declared name: the text after `" class "` up to the first name-ending character. */
  function DeclaredName(frag: string): (name: string)
    ensures forall i :: 0 <= i < |name| ==> name[i] !in NAME_ENDS
    ensures StartsWith(TrimStart(frag), name)
    ensures name == TrimStart(frag) || TrimStart(frag)[|name|] in NAME_ENDS
  {
    PrefixBefore(TrimStart(frag), NAME_ENDS)
  }

  /**
   * The type named by the `CustomEditor` attribute: the second-to-last
   * non-empty line before the declaration, with the attribute tokens cut
   * away. Fewer than two non-empty lines, or nothing left after the cut,
   * is an index error.
   */
  function InspectedType(prev: string): (r: Result<string>)
    ensures r.Ok? ==> r.value != []
    ensures r == Throws <==>
      |RemoveEmpty(Split(prev, "\n"))| < 2
      || RemoveEmpty(SplitAny(RemoveEmpty(Split(prev, "\n"))[|RemoveEmpty(Split(prev, "\n"))| - 2], ATTRIBUTE_TOKENS)) == []
  {
    var lines := RemoveEmpty(Split(prev, "\n"));
    if |lines| < 2 then Throws
    else
      var parts := RemoveEmpty(SplitAny(lines[|lines| - 2], ATTRIBUTE_TOKENS));
      if parts == [] then Throws else Ok(parts[0])
  }

  /** The two tables the indexer fills. */
  datatype ClassTables = ClassTables(classToGuids: Dict<seq<string>>, classToEditor: Dict<string>)
  {
    ghost predicate Valid()
    {
      classToGuids.Valid() && classToEditor.Valid() && ListsNoDup(classToGuids)
    }
  }

  /** The tables after a script's cuts, and whether the indexer ran to the end without throwing. */
  datatype Indexed = Indexed(tables: ClassTables, ok: bool)

  /**
   * What the indexer reads at one cut: whether the lead-in is accepted, the
   * declared name, whether the lead-in carries a `CustomEditor` attribute,
   * and the inspected type it names.
   */
  datatype Cut = Cut(accepted: bool, name: string, editor: bool, inspected: Result<string>)

  /** The cut between `prev` and `frag`. */
  function ReadCut(prev: string, frag: string): Cut
  {
    Cut(IsDeclaration(prev), DeclaredName(frag), Contains(prev, EDITOR_ATTRIBUTE), InspectedType(prev))
  }

  /** `f` applied to every pair of neighbouring pieces, in order. */
  function Pairwise<T>(frags: seq<string>, f: (string, string) -> T): (r: seq<T>)
    ensures |r| == if frags == [] then 0 else |frags| - 1
    ensures forall i :: 0 <= i < |r| ==> r[i] == f(frags[i], frags[i + 1])
  {
    if |frags| < 2 then [] else [f(frags[0], frags[1])] + Pairwise(frags[1..], f)
  }

  /** The cuts of a text split on `" class "`, one per pair of neighbouring pieces. */
  function ReadCuts(frags: seq<string>): (cuts: seq<Cut>)
    ensures |cuts| == if frags == [] then 0 else |frags| - 1
    ensures forall i :: 0 <= i < |cuts| ==> cuts[i] == ReadCut(frags[i], frags[i + 1])
  {
    Pairwise(frags, ReadCut)
  }

  /**
   * One iteration of the indexer: an accepted cut registers its name for
   * `guid`, then a `CustomEditor` lead-in records the inspected type, which
   * throws if the type cannot be read or already has an editor (the name
   * stays registered).
   */
  function IndexCut(t: ClassTables, guid: string, c: Cut): (r: Indexed)
    ensures !c.accepted ==> r == Indexed(t, true)
    ensures c.accepted ==> r.tables.classToGuids == AddToList(t.classToGuids, c.name, guid)
    ensures r.tables.classToEditor == t.classToEditor
      || (r.ok && c.inspected.Ok? && c.inspected.value !in t.classToEditor.m
          && r.tables.classToEditor == t.classToEditor.Add(c.inspected.value, c.name))
    ensures r.ok && c.accepted && c.editor ==> c.inspected.Ok? && c.inspected.value in r.tables.classToEditor.m
    ensures !r.ok <==> (c.accepted && c.editor
      && (c.inspected == Throws || c.inspected.value in t.classToEditor.m))
  {
    if !c.accepted then Indexed(t, true)
    else
      var guids := AddToList(t.classToGuids, c.name, guid);
      if !c.editor then Indexed(ClassTables(guids, t.classToEditor), true)
      else
        match c.inspected
        case Throws => Indexed(ClassTables(guids, t.classToEditor), false)
        case Ok(inspected) =>
          if inspected in t.classToEditor.m then Indexed(ClassTables(guids, t.classToEditor), false)
          else Indexed(ClassTables(guids, t.classToEditor.Add(inspected, c.name)), true)
  }

  /** The state after the first `n` cuts, stopping at the first exception. */
  function IndexCuts(cuts: seq<Cut>, guid: string, t: ClassTables, n: nat): (r: Indexed)
    requires n <= |cuts|
    ensures t.Valid() ==> r.tables.Valid()
  {
    if n == 0 then Indexed(t, true)
    else
      var p := IndexCuts(cuts, guid, t, n - 1);
      if !p.ok then p else IndexCut(p.tables, guid, cuts[n - 1])
  }

  /** After an exception, later cuts change nothing. */
  lemma {:induction false} IndexCutsStuck(cuts: seq<Cut>, guid: string, t: ClassTables, n: nat, m: nat)
    requires n <= m <= |cuts| && !IndexCuts(cuts, guid, t, n).ok
    ensures IndexCuts(cuts, guid, t, m) == IndexCuts(cuts, guid, t, n)
    decreases m
  {
    if m > n {
      IndexCutsStuck(cuts, guid, t, n, m - 1);
    }
  }

  /** `ExtractClassNames(guid, path)` on a script whose text is `text`. */
  function ExtractClassNames(text: string, guid: string, t: ClassTables): Indexed
  {
    var cuts := ReadCuts(Split(text, CLASS_KEYWORD));
    IndexCuts(cuts, guid, t, |cuts|)
  }

  /** The indexer adds `guid` and nothing else, and only under the names of accepted cuts among the first `n`. */
  ghost predicate OnlyDeclared(cuts: seq<Cut>, n: nat, guid: string, t0: Dict<seq<string>>, t1: Dict<seq<string>>)
    requires n <= |cuts|
  {
    forall k, g :: k in t1.m && g in t1.m[k] ==>
      (k in t0.m && g in t0.m[k])
      || (g == guid && exists i :: 0 <= i < n && cuts[i].accepted && cuts[i].name == k)
  }

  /** Everything `t0` lists is still listed in `t1`. */
  ghost predicate Keeps(t0: Dict<seq<string>>, t1: Dict<seq<string>>)
  {
    forall k, g :: k in t0.m && g in t0.m[k] ==> k in t1.m && g in t1.m[k]
  }

  /**
   * Every accepted cut the indexer reached has its name registered for
   * `guid`; earlier registrations stay; and nothing is registered except
   * `guid` under the names of accepted cuts.
   */
  lemma {:induction false} IndexCutsRegisters(cuts: seq<Cut>, guid: string, t: ClassTables, n: nat)
    requires n <= |cuts|
    ensures var r := IndexCuts(cuts, guid, t, n);
      Keeps(t.classToGuids, r.tables.classToGuids)
      && OnlyDeclared(cuts, n, guid, t.classToGuids, r.tables.classToGuids)
      && (r.ok ==> forall i :: 0 <= i < n && cuts[i].accepted ==>
            cuts[i].name in r.tables.classToGuids.m && guid in r.tables.classToGuids.m[cuts[i].name])
  {
    if n > 0 {
      IndexCutsRegisters(cuts, guid, t, n - 1);
      var p := IndexCuts(cuts, guid, t, n - 1);
      if p.ok {
        var r := IndexCut(p.tables, guid, cuts[n - 1]);
        var before, after := p.tables.classToGuids, r.tables.classToGuids;
        forall k, g | k in after.m && g in after.m[k]
          ensures (k in t.classToGuids.m && g in t.classToGuids.m[k])
            || (g == guid && exists i :: 0 <= i < n && cuts[i].accepted && cuts[i].name == k)
        {
          if !(k in before.m && g in before.m[k]) {
            assert cuts[n - 1].accepted && cuts[n - 1].name == k && g == guid;
          }
        }
      }
    }
  }

  /**
   * Mappings made before the script are kept; when the indexer runs to the
   * end, every accepted `CustomEditor` cut has a readable inspected type,
   * which is now mapped.
   */
  lemma {:induction false} IndexCutsEditors(cuts: seq<Cut>, guid: string, t: ClassTables, n: nat)
    requires n <= |cuts|
    ensures var r := IndexCuts(cuts, guid, t, n);
      (forall k :: k in t.classToEditor.m ==>
        k in r.tables.classToEditor.m && r.tables.classToEditor.m[k] == t.classToEditor.m[k])
      && (r.ok ==> forall i :: 0 <= i < n && cuts[i].accepted && cuts[i].editor ==>
            cuts[i].inspected.Ok? && cuts[i].inspected.value in r.tables.classToEditor.m)
  {
    if n > 0 {
      IndexCutsEditors(cuts, guid, t, n - 1);
    }
  }

  /**
   * The indexer throws exactly when it reaches an accepted `CustomEditor` cut
   * whose inspected type cannot be read or already has an editor.
   */
  lemma {:induction false} IndexCutsThrows(cuts: seq<Cut>, guid: string, t: ClassTables, n: nat)
    requires n <= |cuts|
    ensures !IndexCuts(cuts, guid, t, n).ok <==>
      exists i :: 0 <= i < n && cuts[i].accepted && cuts[i].editor && IndexCuts(cuts, guid, t, i).ok
        && (cuts[i].inspected == Throws
            || cuts[i].inspected.value in IndexCuts(cuts, guid, t, i).tables.classToEditor.m)
  {
    if n > 0 {
      IndexCutsThrows(cuts, guid, t, n - 1);
    }
  }
}
