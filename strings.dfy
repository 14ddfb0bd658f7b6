/**
 * The handful of .NET `string` operations the asset analysis relies on,
 * written out with their ordinal (culture-independent) semantics.
 *
 * Splitting follows `String.Split`: empty pieces are kept unless a caller
 * removes them, occurrences are found left to right without overlapping,
 * and an empty separator string leaves the input as the single piece.
 */
module Strings {
  /** `char.IsWhiteSpace`: the Unicode White_Space characters of .NET. */
  predicate IsWhiteSpace(c: char)
  {
    ('\U{0009}' <= c <= '\U{000D}') || c == ' ' || c == '\U{0085}' || c == '\U{00A0}'
    || c == '\U{1680}' || ('\U{2000}' <= c <= '\U{200A}') || c == '\U{2028}' || c == '\U{2029}'
    || c == '\U{202F}' || c == '\U{205F}' || c == '\U{3000}'
  }

  /** `s.TrimStart()`: drops the leading white space. */
  function TrimStart(s: string): (r: string)
    ensures |r| <= |s| && r == s[|s| - |r|..]
    ensures r == [] || !IsWhiteSpace(r[0])
    ensures forall i :: 0 <= i < |s| - |r| ==> IsWhiteSpace(s[i])
  {
    if s != [] && IsWhiteSpace(s[0]) then TrimStart(s[1..]) else s
  }

  /** `s.TrimEnd()`: drops the trailing white space. */
  function TrimEnd(s: string): (r: string)
    ensures |r| <= |s| && r == s[..|r|]
    ensures r == [] || !IsWhiteSpace(r[|r| - 1])
    ensures forall i :: |r| <= i < |s| ==> IsWhiteSpace(s[i])
  {
    if s != [] && IsWhiteSpace(s[|s| - 1]) then TrimEnd(s[..|s| - 1]) else s
  }

  /** `s.Trim()`. */
  function Trim(s: string): string
  {
    TrimEnd(TrimStart(s))
  }

  /** `s.TrimEnd(c)`: drops trailing copies of one character. */
  function TrimEndChar(s: string, c: char): (r: string)
    ensures |r| <= |s| && r == s[..|r|] && (r == [] || r[|r| - 1] != c)
  {
    if s != [] && s[|s| - 1] == c then TrimEndChar(s[..|s| - 1], c) else s
  }

  predicate StartsWith(s: string, p: string)
  {
    |p| <= |s| && s[..|p|] == p
  }

  predicate OccursAt(s: string, p: string, i: int)
  {
    0 <= i && i + |p| <= |s| && s[i..i + |p|] == p
  }

  /** `s.IndexOf(p)`: the first position at which `p` occurs, or -1. */
  function IndexOf(s: string, p: string): (r: int)
    ensures r >= -1
    ensures r >= 0 ==> OccursAt(s, p, r)
    ensures forall i :: 0 <= i && (r < 0 || i < r) ==> !OccursAt(s, p, i)
  {
    if |s| < |p| then -1
    else if s[..|p|] == p then 0
    else
      var r := IndexOf(s[1..], p);
      OccursAfterFirst(s, p);
      if r < 0 then -1 else r + 1
  }

  /** `s.Contains(p)`. */
  predicate Contains(s: string, p: string)
  {
    IndexOf(s, p) >= 0
  }

  /** `s.LastIndexOf(p)`: the last position at which `p` occurs, or -1. */
  function LastIndexOf(s: string, p: string): (r: int)
    ensures r >= -1
    ensures r >= 0 ==> OccursAt(s, p, r)
    ensures forall i :: r < i ==> !OccursAt(s, p, i)
  {
    if |s| < |p| then -1
    else if s[|s| - |p|..] == p then |s| - |p|
    else
      var r := LastIndexOf(s[..|s| - 1], p);
      OccursBeforeLast(s, p);
      r
  }

  /** `s.Split(sep)`, for a string or a single-character separator. */
  function Split(s: string, sep: string): (r: seq<string>)
    ensures |r| >= 1
    ensures |r| >= 2 <==> sep != [] && Contains(s, sep)
    decreases |s|
  {
    if sep == [] then [s]
    else
      var i := IndexOf(s, sep);
      if i < 0 then [s] else [s[..i]] + Split(s[i + |sep|..], sep)
  }

  /** The pieces of `s` between separators, joined back with `sep`. */
  function Join(parts: seq<string>, sep: string): string
  {
    if |parts| <= 1 then (if parts == [] then [] else parts[0])
    else parts[0] + sep + Join(parts[1..], sep)
  }

  /** Splitting loses nothing: joining the pieces restores the input. */
  lemma {:induction false} JoinSplit(s: string, sep: string)
    ensures Join(Split(s, sep), sep) == s
    decreases |s|
  {
    if sep != [] {
      var i := IndexOf(s, sep);
      if i >= 0 {
        var rest := s[i + |sep|..];
        var tail := Split(rest, sep);
        var parts := [s[..i]] + tail;
        assert Split(s, sep) == parts;
        assert parts[1..] == tail;
        calc {
          Join(parts, sep);
          s[..i] + sep + Join(tail, sep);
          { JoinSplit(rest, sep); }
          s[..i] + sep + rest;
          { assert s[i..i + |sep|] == sep; }
          s;
        }
      }
    }
  }

  /** An occurrence in a suffix is an occurrence in the whole string, shifted. */
  lemma OccursInSuffix(s: string, p: string, k: nat, j: int)
    requires k <= |s|
    ensures OccursAt(s[k..], p, j) <==> j >= 0 && OccursAt(s, p, k + j)
  {
    if j >= 0 && k + j + |p| <= |s| {
      assert s[k..][j..j + |p|] == s[k + j..k + j + |p|];
    }
  }

  /** An occurrence in a prefix is an occurrence in the whole string that ends inside the prefix. */
  lemma OccursInPrefix(s: string, p: string, i: nat, j: int)
    requires i <= |s|
    ensures OccursAt(s[..i], p, j) <==> OccursAt(s, p, j) && j + |p| <= i
  {
    if 0 <= j && j + |p| <= i {
      assert s[..i][j..j + |p|] == s[j..j + |p|];
    }
  }

  /** The occurrences after the first character are those of the rest, shifted by one. */
  lemma OccursAfterFirst(s: string, p: string)
    requires s != []
    ensures forall i :: 1 <= i ==> (OccursAt(s, p, i) <==> OccursAt(s[1..], p, i - 1))
  {
    forall i | 1 <= i
      ensures OccursAt(s, p, i) <==> OccursAt(s[1..], p, i - 1)
    {
      OccursInSuffix(s, p, 1, i - 1);
    }
  }

  /** The occurrences that end before the last character are those of the text without it. */
  lemma OccursBeforeLast(s: string, p: string)
    requires s != []
    ensures forall i :: i < |s| - |p| ==> (OccursAt(s, p, i) <==> OccursAt(s[..|s| - 1], p, i))
  {
    forall i | i < |s| - |p|
      ensures OccursAt(s, p, i) <==> OccursAt(s[..|s| - 1], p, i)
    {
      OccursInPrefix(s, p, |s| - 1, i);
    }
  }

  /** The last element of a nonempty sequence. */
  function Last<T>(xs: seq<T>): T
    requires xs != []
  {
    xs[|xs| - 1]
  }

  /** `parts` with the empty strings removed (`StringSplitOptions.RemoveEmptyEntries`). */
  function RemoveEmpty(parts: seq<string>): (r: seq<string>)
    ensures |r| <= |parts|
    ensures forall k :: 0 <= k < |r| ==> r[k] != []
    ensures forall x :: x in r <==> x in parts && x != []
  {
    if parts == [] then []
    else if parts[0] == [] then RemoveEmpty(parts[1..])
    else [parts[0]] + RemoveEmpty(parts[1..])
  }

  /**
   * `s.Split(chars)[0]`: the text before the first character of `chars`
   * (the whole of `s` when none occurs).
   */
  function PrefixBefore(s: string, chars: set<char>): (r: string)
    ensures StartsWith(s, r)
    ensures forall i :: 0 <= i < |r| ==> r[i] !in chars
    ensures r == s || s[|r|] in chars
  {
    if s == [] || s[0] in chars then [] else [s[0]] + PrefixBefore(s[1..], chars)
  }

  /** Length of the first separator of `seps` that occurs at position `i`, or 0. */
  function SeparatorAt(s: string, seps: seq<string>, i: nat): (n: nat)
    ensures n > 0 ==> i + n <= |s|
  {
    if seps == [] then 0
    else if seps[0] != [] && OccursAt(s, seps[0], i) then |seps[0]|
    else SeparatorAt(s, seps[1..], i)
  }

  /**
   * `s.Split(seps)` for several string separators, scanning from position `i`
   * with the current piece starting at `start`; at each position the first
   * separator in the order given wins.
   */
  function SplitAnyFrom(s: string, seps: seq<string>, start: nat, i: nat): (r: seq<string>)
    requires start <= i <= |s|
    ensures |r| >= 1
    decreases |s| - i
  {
    if i == |s| then [s[start..]]
    else
      var n := SeparatorAt(s, seps, i);
      if n == 0 then SplitAnyFrom(s, seps, start, i + 1)
      else [s[start..i]] + SplitAnyFrom(s, seps, i + n, i + n)
  }

  function SplitAny(s: string, seps: seq<string>): seq<string>
  {
    SplitAnyFrom(s, seps, 0, 0)
  }

  /** `s.Replace(target, with)`: every non-overlapping occurrence, left to right. */
  function Replace(s: string, target: string, with: string): (r: string)
    requires target != []
    ensures !Contains(s, target) ==> r == s
    decreases |s|
  {
    var i := IndexOf(s, target);
    if i < 0 then s else s[..i] + with + Replace(s[i + |target|..], target, with)
  }

  function LowerChar(c: char): char
  {
    if 'A' <= c <= 'Z' then (c as int + 32) as char else c
  }

  /** `s.ToLower()` for ASCII letters. */
  function ToLower(s: string): (r: string)
    ensures |r| == |s|
    ensures forall i :: 0 <= i < |s| ==> r[i] == LowerChar(s[i])
  {
    seq(|s|, i requires 0 <= i < |s| => LowerChar(s[i]))
  }
}
