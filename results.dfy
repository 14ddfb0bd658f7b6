/**
 * `AnalysisResults`: the three dictionaries the analysis publishes
 * (assets by GUID, referrers by referenced GUID, reachability marks) and
 * their flattening into parallel key and value lists for saving, with the
 * rebuilding that loading performs. Also the table surgery that forgets an
 * asset when it is moved out of the project.
 */
module ResultTables {
  import opened Collections
  import opened References

  // ----- Saving and loading -----

  /**
   * `PostSerialization`'s loop over the first `n` keys: `Add(keys[i],
   * values[i])` into a new dictionary. A repeated key throws, and so does a
   * key without a value (an index past the end of the value list).
   */
  function Rebuild<V>(keys: seq<string>, values: seq<V>, n: nat): (r: Result<Dict<V>>)
    requires n <= |keys|
    ensures r.Ok? ==> r.value.Valid() && r.value.keys == keys[..n]
  {
    if n == 0 then Ok(EmptyDict())
    else
      match Rebuild(keys, values, n - 1)
      case Throws => Throws
      case Ok(d) =>
        if n - 1 >= |values| || keys[n - 1] in d.m then Throws
        else
          assert keys[..n] == keys[..n - 1] + [keys[n - 1]];
          d.AddValid(keys[n - 1], values[n - 1]);
          Ok(d.Add(keys[n - 1], values[n - 1]))
  }

  /** A list with one more element is free of repeats when the list is and does not hold the element. */
  lemma NoDupSnoc(s: seq<string>, x: string)
    ensures NoDup(s + [x]) <==> NoDup(s) && x !in s
  {
    var t := s + [x];
    if NoDup(t) {
      forall i | 0 <= i < |s| ensures s[i] != x {
        assert t[i] == s[i] && t[|s|] == x;
      }
      forall i, j | 0 <= i < j < |s| ensures s[i] != s[j] {
        assert t[i] == s[i] && t[j] == s[j];
      }
    }
    if NoDup(s) && x !in s {
      forall i, j | 0 <= i < j < |t| ensures t[i] != t[j] {
        assert t[i] == s[i];
        if j < |s| {
          assert t[j] == s[j];
        }
      }
    }
  }

  /** One more key: added to the dictionary so far, unless it repeats or has no value. */
  lemma RebuildNext<V>(keys: seq<string>, values: seq<V>, n: nat)
    requires n < |keys|
    ensures Rebuild(keys, values, n + 1) ==
      match Rebuild(keys, values, n)
      case Throws => Throws
      case Ok(d) => if n >= |values| || keys[n] in d.m then Throws else Ok(d.Add(keys[n], values[n]))
  {
  }

  /**
   * Rebuilding succeeds exactly when the keys are distinct and each has a
   * value; the dictionary then maps each key to the value at its position.
   */
  lemma {:induction false} RebuildOk<V>(keys: seq<string>, values: seq<V>, n: nat)
    requires n <= |keys|
    ensures Rebuild(keys, values, n).Ok? <==> NoDup(keys[..n]) && n <= |values|
    ensures Rebuild(keys, values, n).Ok? ==>
      forall i :: 0 <= i < n ==> Rebuild(keys, values, n).value.m[keys[i]] == values[i]
  {
    if n > 0 {
      RebuildOk(keys, values, n - 1);
      RebuildNext(keys, values, n - 1);
      var prefix, key := keys[..n - 1], keys[n - 1];
      assert NoDup(keys[..n]) <==> NoDup(prefix) && key !in prefix by {
        assert keys[..n] == prefix + [key];
        NoDupSnoc(prefix, key);
      }
      var r := Rebuild(keys, values, n - 1);
      if r.Ok? && n <= |values| && NoDup(keys[..n]) {
        var d := r.value.Add(key, values[n - 1]);
        assert Rebuild(keys, values, n) == Ok(d);
        forall i | 0 <= i < n ensures d.m[keys[i]] == values[i] {
          if i < n - 1 {
            assert keys[i] == prefix[i] && keys[i] != key;
          }
        }
      }
    }
  }

  /**
   * Loading what was saved gives back the dictionary that was saved: the
   * keys in the same order, each with its value.
   */
  lemma RebuildFlattened<V>(d: Dict<V>)
    requires d.Valid()
    ensures Rebuild(d.keys, d.Values(), |d.keys|) == Ok(d)
  {
    var n := |d.keys|;
    RebuildOk(d.keys, d.Values(), n);
    assert d.keys[..n] == d.keys;
    SameEntries(Rebuild(d.keys, d.Values(), n).value, d);
  }

  /** Two dictionaries with the same key order and the same value under each key are equal. */
  lemma SameEntries<V>(r: Dict<V>, d: Dict<V>)
    requires r.Valid() && d.Valid() && r.keys == d.keys
    requires forall i :: 0 <= i < |d.keys| ==> r.m[d.keys[i]] == d.m[d.keys[i]]
    ensures r == d
  {
    forall k | k in d.m ensures k in r.m && r.m[k] == d.m[k] {
      var i :| 0 <= i < |d.keys| && d.keys[i] == k;
    }
    assert r.m == d.m;
  }

  /** The published tables and their flattened copies. */
  class AnalysisResults {
    var guidToPath: Dict<string>
    var guidToSources: Dict<seq<string>>
    var guidToRefStatus: Dict<bool>

    var guidToPathKeys: seq<string>
    var guidToPathValues: seq<string>
    var guidToSourcesKeys: seq<string>
    var guidToSourcesValues: seq<seq<string>>
    var guidToRefStatusKeys: seq<string>
    var guidToRefStatusValues: seq<bool>

    ghost predicate Valid()
      reads this
    {
      guidToPath.Valid() && guidToSources.Valid() && guidToRefStatus.Valid()
    }

    /** Three empty dictionaries. */
    constructor ()
      ensures Valid()
      ensures guidToPath == EmptyDict() && guidToSources == EmptyDict() && guidToRefStatus == EmptyDict()
    {
      guidToPath := EmptyDict();
      guidToSources := EmptyDict();
      guidToRefStatus := EmptyDict();
      guidToPathKeys, guidToPathValues := [], [];
      guidToSourcesKeys, guidToSourcesValues := [], [];
      guidToRefStatusKeys, guidToRefStatusValues := [], [];
    }

    /** The saved lists hold every dictionary's keys and values, in enumeration order. */
    ghost predicate Flattened()
      reads this
    {
      && Valid()
      && guidToPathKeys == guidToPath.keys && guidToPathValues == guidToPath.Values()
      && guidToSourcesKeys == guidToSources.keys && guidToSourcesValues == guidToSources.Values()
      && guidToRefStatusKeys == guidToRefStatus.keys && guidToRefStatusValues == guidToRefStatus.Values()
    }

    /**
     * What saving leaves is what loading needs: rebuilding from the flattened
     * lists gives back each dictionary, keys in the same order, without a throw.
     */
    lemma FlattenedRebuilds()
      requires Flattened()
      ensures Rebuild(guidToPathKeys, guidToPathValues, |guidToPathKeys|) == Ok(guidToPath)
      ensures Rebuild(guidToSourcesKeys, guidToSourcesValues, |guidToSourcesKeys|) == Ok(guidToSources)
      ensures Rebuild(guidToRefStatusKeys, guidToRefStatusValues, |guidToRefStatusKeys|) == Ok(guidToRefStatus)
    {
      RebuildFlattened(guidToPath);
      RebuildFlattened(guidToSources);
      RebuildFlattened(guidToRefStatus);
    }

    /** Copies every dictionary into a key list and a value list, in enumeration order. */
    method PreSerialization()
      requires Valid()
      modifies this`guidToPathKeys, this`guidToPathValues, this`guidToSourcesKeys, this`guidToSourcesValues
      modifies this`guidToRefStatusKeys, this`guidToRefStatusValues
      ensures Flattened()
    {
      guidToPathKeys, guidToPathValues := Flatten(guidToPath);
      guidToSourcesKeys, guidToSourcesValues := Flatten(guidToSources);
      guidToRefStatusKeys, guidToRefStatusValues := Flatten(guidToRefStatus);
    }

    /**
     * Rebuilds the three dictionaries from the saved lists, one after the
     * other; `ok` is false when one of them throws, which leaves that
     * dictionary partly built and the ones after it untouched.
     */
    method PostSerialization() returns (ok: bool)
      modifies this`guidToPath, this`guidToSources, this`guidToRefStatus
      ensures var p := Rebuild(guidToPathKeys, guidToPathValues, |guidToPathKeys|);
        var s := Rebuild(guidToSourcesKeys, guidToSourcesValues, |guidToSourcesKeys|);
        var r := Rebuild(guidToRefStatusKeys, guidToRefStatusValues, |guidToRefStatusKeys|);
        && (ok <==> p.Ok? && s.Ok? && r.Ok?)
        && (p.Ok? ==> guidToPath == p.value)
        && (p.Ok? && s.Ok? ==> guidToSources == s.value)
        && (ok ==> guidToRefStatus == r.value)
        && (p.Throws? ==> guidToSources == old(guidToSources))
        && (!(p.Ok? && s.Ok?) ==> guidToRefStatus == old(guidToRefStatus))
    {
      var pathOk;
      guidToPath, pathOk := RebuildDict(guidToPathKeys, guidToPathValues);
      if !pathOk {
        return false;
      }
      var sourcesOk;
      guidToSources, sourcesOk := RebuildDict(guidToSourcesKeys, guidToSourcesValues);
      if !sourcesOk {
        return false;
      }
      guidToRefStatus, ok := RebuildDict(guidToRefStatusKeys, guidToRefStatusValues);
    }
  }

  /** One loop of `PreSerialization`: every pair, in enumeration order, split into its key and its value. */
  method Flatten<V>(d: Dict<V>) returns (keys: seq<string>, values: seq<V>)
    requires d.Valid()
    ensures keys == d.keys && values == d.Values()
  {
    keys, values := [], [];
    var i: nat := 0;
    while i < |d.keys|
      invariant 0 <= i <= |d.keys|
      invariant keys == d.keys[..i] && |values| == i
      invariant forall j :: 0 <= j < i ==> values[j] == d.m[d.keys[j]]
    {
      var k := d.keys[i];
      keys := keys + [k];
      values := values + [d.m[k]];
      i := i + 1;
    }
    assert keys == d.keys[..|d.keys|];
  }

  /** One loop of `PostSerialization`: the dictionary rebuilt from `keys` and `values`, or partly built when it throws. */
  method RebuildDict<V>(keys: seq<string>, values: seq<V>) returns (d: Dict<V>, ok: bool)
    ensures ok <==> Rebuild(keys, values, |keys|).Ok?
    ensures ok ==> d == Rebuild(keys, values, |keys|).value
  {
    d := EmptyDict();
    var i: nat := 0;
    while i < |keys|
      invariant 0 <= i <= |keys|
      invariant Rebuild(keys, values, i).Ok? && Rebuild(keys, values, i).value == d
    {
      RebuildNext(keys, values, i);
      if i >= |values| || keys[i] in d.m {
        RebuildStuck(keys, values, i + 1, |keys|);
        return d, false;
      }
      d := d.Add(keys[i], values[i]);
      i := i + 1;
    }
    return d, true;
  }

  /** Once rebuilding has thrown, it stays thrown. */
  lemma {:induction false} RebuildStuck<V>(keys: seq<string>, values: seq<V>, n: nat, m: nat)
    requires n <= m <= |keys| && Rebuild(keys, values, n).Throws?
    ensures Rebuild(keys, values, m).Throws?
    decreases m
  {
    if m > n {
      RebuildStuck(keys, values, n, m - 1);
    }
  }

  // ----- Forgetting an asset -----

  /** `list.Remove(x)` on every list of the dictionary. */
  function PurgeLists(d: Dict<seq<string>>, x: string): (r: Dict<seq<string>>)
    ensures r.keys == d.keys && (forall k :: k in r.m <==> k in d.m)
    ensures forall k :: k in d.m ==> r.m[k] == RemoveFirst(d.m[k], x)
    ensures ListsNoDup(d) ==> ListsNoDup(r) && forall k :: k in r.m ==> x !in r.m[k]
    ensures d.Valid() ==> r.Valid()
  {
    Dict(d.keys, map k | k in d.m :: RemoveFirst(d.m[k], x))
  }

  /** `if (d.ContainsKey(k)) d.Remove(k)`. */
  function DropKey<V>(d: Dict<V>, k: string): (r: Dict<V>)
    requires d.Valid()
    ensures r.Valid() && r.m == d.m - {k}
  {
    if k in d.m then d.Remove(k) else d
  }

  /**
   * `DereferenceAsset` on `guidToSources` as written: the GUID's own entry is
   * removed and, only when there was such an entry, the GUID is removed from
   * the other entries' referrer lists.
   */
  function SourcesAfterDereferenceAsWritten(sources: Dict<seq<string>>, guid: string): Dict<seq<string>>
    requires sources.Valid()
  {
    if guid in sources.m then PurgeLists(sources.Remove(guid), guid) else sources
  }

  /** `DereferenceAsset` on `guidToSources` as intended: the entry and every mention are removed. */
  function SourcesAfterDereference(sources: Dict<seq<string>>, guid: string): Dict<seq<string>>
    requires sources.Valid()
  {
    PurgeLists(DropKey(sources, guid), guid)
  }

  /** `DereferenceAsset` on `guidToReferences`: the entry and every mention are removed. */
  function RefsAfterDereference(refs: Dict<seq<string>>, guid: string): Dict<seq<string>>
    requires refs.Valid()
  {
    PurgeLists(DropKey(refs, guid), guid)
  }

  /** Both reference tables after forgetting `guid`. */
  function Dereference(g: Graph, guid: string): Graph
    requires g.Valid()
  {
    Graph(RefsAfterDereference(g.refs, guid), SourcesAfterDereference(g.sources, guid))
  }

  /**
   * Forgetting an asset removes exactly the references that involve it, in
   * both directions, and keeps every other one; tables that recorded each
   * reference in both directions still do.
   */
  lemma DereferenceForgets(g: Graph, guid: string, a: string, b: string)
    requires g.Valid()
    ensures Dereference(g, guid).Valid()
    ensures Dereference(g, guid).HasRef(a, b) <==> g.HasRef(a, b) && a != guid && b != guid
    ensures Dereference(g, guid).HasSource(a, b) <==> g.HasSource(a, b) && a != guid && b != guid
  {
  }

  /**
   * Both reference tables after `DereferenceAsset` as written: the reverse
   * table is purged only when the asset had referrers of its own.
   */
  function DereferenceAsWritten(g: Graph, guid: string): Graph
    requires g.Valid()
  {
    Graph(RefsAfterDereference(g.refs, guid), SourcesAfterDereferenceAsWritten(g.sources, guid))
  }

  /**
   * As written, forgetting an asset removes every reference to it and every
   * reference it makes, but the reverse table still records the references
   * it makes when nothing referenced it.
   */
  lemma DereferenceAsWrittenForgets(g: Graph, guid: string, a: string, b: string)
    requires g.Valid()
    ensures DereferenceAsWritten(g, guid).Valid()
    ensures DereferenceAsWritten(g, guid).HasRef(a, b) <==> g.HasRef(a, b) && a != guid && b != guid
    ensures DereferenceAsWritten(g, guid).HasSource(a, b)
      <==> g.HasSource(a, b) && b != guid && (guid in g.sources.m ==> a != guid)
  {
  }

  /** Once something references the asset, the written and the intended purge agree. */
  lemma DereferenceAsWrittenWhenReferenced(g: Graph, guid: string)
    requires g.Valid() && guid in g.sources.m
    ensures DereferenceAsWritten(g, guid) == Dereference(g, guid)
  {
  }

  /** Forgetting an asset keeps the two tables describing the same references. */
  lemma DereferenceSymmetric(g: Graph, guid: string)
    requires g.Valid() && g.Symmetric()
    ensures Dereference(g, guid).Symmetric()
  {
    forall a, b
      ensures Dereference(g, guid).HasRef(a, b) <==> Dereference(g, guid).HasSource(a, b)
    {
      DereferenceForgets(g, guid, a, b);
    }
  }

  /**
   * As written, an asset that references another but is referenced by
   * nothing stays listed among the other asset's referrers after it is
   * forgotten: `x` references `y`, `x` is forgotten, `y` still lists `x`.
   */
  lemma DereferenceAsWrittenKeepsReferrer()
    ensures var g := AddEdge(EmptyGraph(), Edge("x", "y"));
      && "x" !in RefsAfterDereference(g.refs, "x").m
      && "x" in SourcesAfterDereferenceAsWritten(g.sources, "x").m["y"]
      && !Graph(RefsAfterDereference(g.refs, "x"), SourcesAfterDereferenceAsWritten(g.sources, "x")).Symmetric()
  {
    var g := AddEdge(EmptyGraph(), Edge("x", "y"));
    assert g.sources.m == map["y" := ["x"]];
    var after := Graph(RefsAfterDereference(g.refs, "x"), SourcesAfterDereferenceAsWritten(g.sources, "x"));
    assert after.HasSource("x", "y") && !after.HasRef("x", "y");
  }
}
