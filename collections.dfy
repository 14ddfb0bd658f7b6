/**
 * Value models of the .NET collections the analysis mutates: a `Dictionary`
 * with string keys, kept together with the order in which its keys were
 * added (the order `foreach` enumerates them in), and the `List` operations
 * used on its values.
 */
module Collections {

  /** A computation that either yields a value or throws an exception. */
  datatype Result<T> = Ok(value: T) | Throws

  predicate NoDup<T(==)>(s: seq<T>)
  {
    forall i, j :: 0 <= i < j < |s| ==> s[i] != s[j]
  }

  /** In a list without repeats, an element does not occur before its position. */
  lemma NoDupPrefix<T>(s: seq<T>, i: nat)
    requires NoDup(s) && i < |s|
    ensures s[i] !in s[..i]
  {
    forall j | 0 <= j < i
      ensures s[..i][j] != s[i]
    {
      assert s[..i][j] == s[j];
    }
  }

  /** The prefix of `s` one element longer. */
  lemma PrefixNext<T>(s: seq<T>, i: nat)
    requires i < |s|
    ensures s[..i + 1] == s[..i] + [s[i]]
  {
  }

  /** Appending nothing changes nothing. */
  lemma AppendEmpty<T>(s: seq<T>)
    ensures s + [] == s
  {
  }

  /** `list.Remove(x)`: drops the first occurrence of `x`, if any. */
  function RemoveFirst(s: seq<string>, x: string): (r: seq<string>)
    ensures x !in s ==> r == s
    ensures x in s ==> |r| == |s| - 1
    ensures forall y :: y != x ==> (y in r <==> y in s)
    ensures NoDup(s) ==> NoDup(r) && x !in r
  {
    if s == [] then []
    else if s[0] == x then s[1..]
    else
      var t := RemoveFirst(s[1..], x);
      assert NoDup(s) ==> NoDup(s[1..]) && s[0] !in s[1..] && s[0] !in t;
      [s[0]] + t
  }

  /** `list.Contains(x)` followed by `list.Add(x)` when absent. */
  function AddIfAbsent(s: seq<string>, x: string): (r: seq<string>)
    ensures x in r
    ensures forall y :: y in r <==> y in s || y == x
    ensures NoDup(s) ==> NoDup(r)
  {
    if x in s then s else s + [x]
  }

  /**
   * `Dictionary<string, V>`: a map together with the order in which its keys
   * were added, which is the order enumeration visits them in.
   */
  datatype Dict<V> = Dict(keys: seq<string>, m: map<string, V>)
  {
    ghost predicate Valid()
    {
      NoDup(keys) && (forall k :: k in m <==> k in keys)
    }

    /** `d.Add(k, v)`; the caller checks that `k` is new (C# throws otherwise). */
    function Add(k: string, v: V): (d: Dict<V>)
      requires k !in m
    {
      Dict(keys + [k], m[k := v])
    }

    /** Adding a new key keeps the key order free of repeats and in step with the map. */
    lemma AddValid(k: string, v: V)
      requires Valid() && k !in m
      ensures Add(k, v).Valid()
    {
    }

    /** `d[k] = v`: overwrites an existing entry in place or appends a new key. */
    function Set(k: string, v: V): (d: Dict<V>)
    {
      if k in m then Dict(keys, m[k := v]) else Add(k, v)
    }

    /** Overwriting or adding an entry keeps the dictionary well formed. */
    lemma SetValid(k: string, v: V)
      requires Valid()
      ensures Set(k, v).Valid()
    {
    }

    /** `d.Remove(k)`: the remaining keys keep their relative order. */
    function Remove(k: string): (d: Dict<V>)
      requires Valid()
      ensures d.Valid()
      ensures d.m == m - {k}
      ensures forall x :: x in d.keys <==> x in keys && x != k
    {
      Dict(RemoveFirst(keys, k), m - {k})
    }

    /** The values in key order, as a `foreach` over the pairs sees them. */
    function Values(): (vs: seq<V>)
      requires Valid()
      ensures |vs| == |keys|
      ensures forall i :: 0 <= i < |keys| ==> vs[i] == m[keys[i]]
    {
      seq(|keys|, i requires 0 <= i < |keys| => m[keys[i]])
    }
  }

  /** Every list stored in the dictionary is free of repeats. */
  ghost predicate ListsNoDup(d: Dict<seq<string>>)
  {
    forall k :: k in d.m ==> NoDup(d.m[k])
  }

  /**
   * Adds `x` to the list under `k`, creating an empty list for a new key first
   * and skipping an `x` that is already there.
   */
  function AddToList(d: Dict<seq<string>>, k: string, x: string): (r: Dict<seq<string>>)
  {
    if k !in d.m then d.Add(k, [x])
    else if x in d.m[k] then d
    else d.Set(k, d.m[k] + [x])
  }

  /**
   * `AddToList` adds `x` to the list under `k` and nothing else: a new key
   * goes to the end of the key order, other keys keep their lists, and the
   * lists stay free of repeats.
   */
  lemma AddToListSpec(d: Dict<seq<string>>, k: string, x: string)
    ensures var r := AddToList(d, k, x);
      && k in r.m && x in r.m[k]
      && (k in d.m ==> r.keys == d.keys)
      && (k !in d.m ==> r.keys == d.keys + [k])
      && (forall j :: j in r.m <==> j in d.m || j == k)
      && (forall j :: j in d.m && j != k ==> r.m[j] == d.m[j])
      && (forall y :: y in r.m[k] <==> y == x || (k in d.m && y in d.m[k]))
      && (d.Valid() ==> r.Valid())
      && (ListsNoDup(d) ==> ListsNoDup(r))
  {
  }

  function EmptyDict<V>(): (d: Dict<V>)
    ensures d.Valid() && d.keys == [] && d.m == map[]
  {
    Dict([], map[])
  }
}
