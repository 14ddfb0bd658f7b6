/**
 * Facts about the string operations of `Strings`: what the pieces of a
 * split are, how `Replace` relates to `Split`, and the one-step unfoldings
 * the scanners' proofs use.
 */
module StringFacts {
  import opened Strings

  /** No occurrence starting before `i` means none inside `s[..i]`. */
  lemma NoneBefore(s: string, p: string, i: nat)
    requires p != [] && i <= |s|
    requires forall j :: 0 <= j < i ==> !OccursAt(s, p, j)
    ensures !Contains(s[..i], p)
  {
    if Contains(s[..i], p) {
      OccursInPrefix(s, p, i, IndexOf(s[..i], p));
    }
  }

  /** No piece of a split holds the separator, and joining them restores the input. */
  lemma {:induction false} SplitPieces(s: string, sep: string)
    requires sep != []
    ensures forall k :: 0 <= k < |Split(s, sep)| ==> !Contains(Split(s, sep)[k], sep)
    ensures Join(Split(s, sep), sep) == s
    decreases |s|
  {
    JoinSplit(s, sep);
    var i := IndexOf(s, sep);
    if i >= 0 {
      var rest := s[i + |sep|..];
      SplitPieces(rest, sep);
      NoneBefore(s, sep, i);
      assert Split(s, sep) == [s[..i]] + Split(rest, sep);
    }
  }

  /** The last occurrence in `s`, found in a suffix that still holds one. */
  lemma LastIndexOfSuffix(s: string, p: string, k: nat)
    requires p != [] && k <= |s| && Contains(s[k..], p)
    ensures LastIndexOf(s, p) == k + LastIndexOf(s[k..], p)
  {
    var l, l' := LastIndexOf(s, p), LastIndexOf(s[k..], p);
    OccursInSuffix(s, p, k, l');
    OccursInSuffix(s, p, k, l - k);
  }

  /** An occurrence with none after it is the last one. */
  lemma LastIndexOfNoneAfter(s: string, p: string, i: nat)
    requires p != [] && OccursAt(s, p, i) && !Contains(s[i + 1..], p)
    ensures LastIndexOf(s, p) == i
  {
    var l := LastIndexOf(s, p);
    OccursInSuffix(s, p, i + 1, l - i - 1);
  }

  /** The last piece of a split is the last piece of the split after the first separator. */
  lemma SplitLastStep(s: string, sep: string, i: nat)
    requires |sep| == 1 && IndexOf(s, sep) == i
    ensures Last(Split(s, sep)) == Last(Split(s[i + 1..], sep))
  {
    var tail := Split(s[i + 1..], sep);
    assert Split(s, sep) == [s[..i]] + tail by {
      SplitUnfold(s, sep);
    }
    LastCons(s[..i], tail);
  }

  lemma LastCons<T>(x: T, xs: seq<T>)
    requires xs != []
    ensures Last([x] + xs) == Last(xs)
  {
  }

  /** The last occurrence of a one-character separator, seen from after its first occurrence. */
  lemma LastIndexStep(s: string, sep: string, i: nat)
    requires |sep| == 1 && IndexOf(s, sep) == i
    ensures Contains(s[i + 1..], sep) ==> LastIndexOf(s, sep) == i + 1 + LastIndexOf(s[i + 1..], sep)
    ensures !Contains(s[i + 1..], sep) ==> LastIndexOf(s, sep) == i
  {
    if Contains(s[i + 1..], sep) {
      LastIndexOfSuffix(s, sep, i + 1);
    } else {
      LastIndexOfNoneAfter(s, sep, i);
    }
  }

  /**
   * Splitting on a one-character separator: the last piece is the text
   * after the last occurrence of the separator, and without one the input
   * is the only piece.
   */
  lemma {:induction false} SplitCharLast(s: string, sep: string)
    requires |sep| == 1
    ensures var parts := Split(s, sep);
      && (Contains(s, sep) ==> Last(parts) == s[LastIndexOf(s, sep) + 1..])
      && (!Contains(s, sep) ==> parts == [s])
    decreases |s|
  {
    if Contains(s, sep) {
      var i := IndexOf(s, sep);
      var rest := s[i + 1..];
      SplitLastStep(s, sep, i);
      LastIndexStep(s, sep, i);
      SplitCharLast(rest, sep);
      if Contains(rest, sep) {
        var l' := LastIndexOf(rest, sep);
        assert s[i + 1 + l' + 1..] == rest[l' + 1..];
      }
    }
  }

  /** One step of `Split` when the separator occurs. */
  lemma SplitUnfold(s: string, sep: string)
    requires sep != [] && Contains(s, sep)
    ensures Split(s, sep) == [s[..IndexOf(s, sep)]] + Split(s[IndexOf(s, sep) + |sep|..], sep)
  {
  }

  /** A separator that occurs once, after `pre`, cuts the input in two. */
  lemma SplitOnce(s: string, pre: string, sep: string, post: string)
    requires sep != [] && s == pre + sep + post
    requires IndexOf(s, sep) == |pre| && !Contains(post, sep)
    ensures Split(s, sep) == [pre, post]
  {
    SplitUnfold(s, sep);
    assert s[..|pre|] == pre && s[|pre| + |sep|..] == post;
  }

  /** The first piece of a split is where the input starts. */
  lemma SplitHead(s: string, sep: string)
    ensures StartsWith(s, Split(s, sep)[0])
  {
  }

  /** A one-character separator occurs exactly where that character is. */
  lemma CharOccurs(s: string, c: char, j: int)
    ensures OccursAt(s, [c], j) <==> 0 <= j < |s| && s[j] == c
  {
    if 0 <= j < |s| {
      assert s[j..j + 1] == [s[j]];
    }
  }

  /** Without the separator character the input is the only piece. */
  lemma SplitCharAbsent(s: string, c: char)
    requires c !in s
    ensures Split(s, [c]) == [s]
  {
    if Contains(s, [c]) {
      CharOccurs(s, c, IndexOf(s, [c]));
    }
  }

  /** Text free of the separator character, the separator, then the rest: the text is the first piece. */
  lemma SplitCharConcat(a: string, c: char, b: string)
    requires c !in a
    ensures Split(a + [c] + b, [c]) == [a] + Split(b, [c])
  {
    var s := a + [c] + b;
    CharOccurs(s, c, |a|);
    var k := IndexOf(s, [c]);
    CharOccurs(s, c, k);
    assert k == |a|;
    assert s[..k] == a && s[k + 1..] == b;
  }

  /** The first piece of a split on one character is the text before that character. */
  lemma SplitCharFirstPiece(s: string, c: char)
    ensures Split(s, [c])[0] == PrefixBefore(s, {c})
  {
    var r := PrefixBefore(s, {c});
    assert c !in r;
    if r == s {
      SplitCharAbsent(s, c);
    } else {
      assert s == r + [c] + s[|r| + 1..];
      SplitCharConcat(r, c, s[|r| + 1..]);
    }
  }

  /** Text free of `c` is kept whole in front of what `PrefixBefore` takes from the rest. */
  lemma {:induction false} PrefixBeforeExtends(a: string, b: string, c: char)
    requires c !in a
    ensures PrefixBefore(a + b, {c}) == a + PrefixBefore(b, {c})
  {
    if a != [] {
      var t := a[1..];
      assert a == [a[0]] + t && a[0] != c && c !in t;
      PrefixBeforeExtends(t, b, c);
      assert (a + b)[0] == a[0] && (a + b)[1..] == t + b;
      assert PrefixBefore(a + b, {c}) == [a[0]] + PrefixBefore(t + b, {c});
      assert [a[0]] + (t + PrefixBefore(b, {c})) == a + PrefixBefore(b, {c});
    } else {
      assert a + b == b;
    }
  }

  /** After a leading separator character, the second piece runs to the next one. */
  lemma OpenThenPiece(head: string, post: string, c: char)
    requires c !in head
    ensures var parts := Split([c] + head + post, [c]);
      |parts| >= 2 && parts[1] == head + PrefixBefore(post, {c})
  {
    var rest := head + post;
    assert Split([c] + head + post, [c]) == [[]] + Split(rest, [c]) by {
      assert [c] + head + post == [] + [c] + rest;
      SplitCharConcat([], c, rest);
    }
    SplitCharFirstPiece(rest, c);
    PrefixBeforeExtends(head, post, c);
  }

  /** `Replace` cuts the input at every occurrence and joins the pieces back with the replacement. */
  lemma {:induction false} ReplaceIsJoinOfSplit(s: string, target: string, with: string)
    requires target != []
    ensures Replace(s, target, with) == Join(Split(s, target), with)
    decreases |s|
  {
    var i := IndexOf(s, target);
    if i >= 0 {
      var rest := s[i + |target|..];
      ReplaceIsJoinOfSplit(rest, target, with);
      var parts := [s[..i]] + Split(rest, target);
      assert Split(s, target) == parts;
      assert parts[1..] == Split(rest, target);
    }
  }

  /** The separators `SplitAnyFrom` cuts at, in order. */
  function DelimitersFrom(s: string, seps: seq<string>, start: nat, i: nat): (d: seq<string>)
    requires start <= i <= |s|
    ensures |d| + 1 == |SplitAnyFrom(s, seps, start, i)|
    decreases |s| - i
  {
    if i == |s| then []
    else
      var n := SeparatorAt(s, seps, i);
      if n == 0 then DelimitersFrom(s, seps, start, i + 1)
      else [s[i..i + n]] + DelimitersFrom(s, seps, i + n, i + n)
  }

  /** Pieces with the delimiters between them put back. */
  function Interleave(parts: seq<string>, delims: seq<string>): string
    requires |parts| == |delims| + 1
  {
    if delims == [] then parts[0] else parts[0] + delims[0] + Interleave(parts[1..], delims[1..])
  }

  lemma InterleaveCons(x: string, y: string, r: seq<string>, d: seq<string>)
    requires |r| == |d| + 1
    ensures Interleave([x] + r, [y] + d) == x + y + Interleave(r, d)
  {
    assert ([x] + r)[1..] == r && ([y] + d)[1..] == d;
  }

  lemma SliceThree(s: string, a: nat, b: nat, c: nat)
    requires a <= b <= c <= |s|
    ensures s[a..] == s[a..b] + s[b..c] + s[c..]
  {
  }

  /** A nonzero `SeparatorAt` is the length of a separator found there; zero means none is. */
  lemma {:induction false} SeparatorAtFinds(s: string, seps: seq<string>, i: nat)
    ensures SeparatorAt(s, seps, i) > 0 ==> s[i..i + SeparatorAt(s, seps, i)] in seps
    ensures SeparatorAt(s, seps, i) == 0 ==> forall t :: t in seps && t != [] ==> !OccursAt(s, t, i)
  {
    if seps != [] {
      SeparatorAtFinds(s, seps[1..], i);
      assert forall t :: t in seps ==> t == seps[0] || t in seps[1..];
    }
  }

  /** A stretch of `s` at none of whose positions a separator starts holds no separator. */
  lemma PieceFree(s: string, seps: seq<string>, a: nat, b: nat, t: string)
    requires a <= b <= |s| && t in seps && t != []
    requires forall p :: a <= p < b ==> SeparatorAt(s, seps, p) == 0
    ensures !Contains(s[a..b], t)
  {
    if Contains(s[a..b], t) {
      var j := IndexOf(s[a..b], t);
      assert s[a..b] == s[a..][..b - a];
      OccursInPrefix(s[a..], t, b - a, j);
      OccursInSuffix(s, t, a, j);
      SeparatorAtFinds(s, seps, a + j);
    }
  }

  /** The pieces of `SplitAnyFrom` with the separators put back restore the rest of the input. */
  lemma {:induction false} SplitAnyFromJoin(s: string, seps: seq<string>, start: nat, i: nat)
    requires start <= i <= |s|
    ensures Interleave(SplitAnyFrom(s, seps, start, i), DelimitersFrom(s, seps, start, i)) == s[start..]
    decreases |s| - i
  {
    if i < |s| {
      var n := SeparatorAt(s, seps, i);
      if n == 0 {
        SplitAnyFromJoin(s, seps, start, i + 1);
      } else {
        SplitAnyFromJoin(s, seps, i + n, i + n);
        var r', d' := SplitAnyFrom(s, seps, i + n, i + n), DelimitersFrom(s, seps, i + n, i + n);
        assert SplitAnyFrom(s, seps, start, i) == [s[start..i]] + r';
        assert DelimitersFrom(s, seps, start, i) == [s[i..i + n]] + d';
        InterleaveCons(s[start..i], s[i..i + n], r', d');
        SliceThree(s, start, i, i + n);
      }
    }
  }

  /** Every cut `SplitAnyFrom` makes is at one of the (nonempty) separators. */
  lemma {:induction false} SplitAnyFromDelimiters(s: string, seps: seq<string>, start: nat, i: nat)
    requires start <= i <= |s|
    ensures forall k :: 0 <= k < |DelimitersFrom(s, seps, start, i)| ==>
      DelimitersFrom(s, seps, start, i)[k] in seps && DelimitersFrom(s, seps, start, i)[k] != []
    decreases |s| - i
  {
    if i < |s| {
      var n := SeparatorAt(s, seps, i);
      if n == 0 {
        SplitAnyFromDelimiters(s, seps, start, i + 1);
      } else {
        SplitAnyFromDelimiters(s, seps, i + n, i + n);
        SeparatorAtFinds(s, seps, i);
        var d := DelimitersFrom(s, seps, start, i);
        assert d[0] == s[i..i + n] && d[1..] == DelimitersFrom(s, seps, i + n, i + n);
      }
    }
  }

  /** No piece `SplitAnyFrom` gives holds a separator, when none starts between `start` and `i`. */
  lemma {:induction false} SplitAnyFromFree(s: string, seps: seq<string>, start: nat, i: nat, t: string)
    requires start <= i <= |s| && t in seps && t != []
    requires forall p :: start <= p < i ==> SeparatorAt(s, seps, p) == 0
    ensures forall k :: 0 <= k < |SplitAnyFrom(s, seps, start, i)| ==> !Contains(SplitAnyFrom(s, seps, start, i)[k], t)
    decreases |s| - i
  {
    if i == |s| {
      PieceFree(s, seps, start, i, t);
      assert s[start..i] == s[start..];
    } else {
      var n := SeparatorAt(s, seps, i);
      if n == 0 {
        SplitAnyFromFree(s, seps, start, i + 1, t);
      } else {
        SplitAnyFromFree(s, seps, i + n, i + n, t);
        PieceFree(s, seps, start, i, t);
        var r := SplitAnyFrom(s, seps, start, i);
        assert r == [s[start..i]] + SplitAnyFrom(s, seps, i + n, i + n);
      }
    }
  }

  /**
   * `SplitAny`: the pieces and the separators between them restore the
   * input, every separator is one of `seps`, and no piece holds one.
   */
  lemma SplitAnyPieces(s: string, seps: seq<string>)
    ensures var r := SplitAny(s, seps);
      var d := DelimitersFrom(s, seps, 0, 0);
      && Interleave(r, d) == s
      && (forall k :: 0 <= k < |d| ==> d[k] in seps && d[k] != [])
      && (forall k, t :: 0 <= k < |r| && t in seps && t != [] ==> !Contains(r[k], t))
  {
    SplitAnyFromJoin(s, seps, 0, 0);
    SplitAnyFromDelimiters(s, seps, 0, 0);
    forall t | t in seps && t != [] {
      SplitAnyFromFree(s, seps, 0, 0, t);
    }
  }
}
