/**
 * The reference store: the forward table `guidToReferences` (referrer to the
 * GUIDs it references) and the reverse table `guidToSources` (referenced GUID
 * to its referrers), both dictionaries of lists, and the single operation
 * that writes them, `AddAssetReference`.
 */
module References {
  import opened Collections

  /** One reference: `referrer` uses `referenced`. */
  datatype Edge = Edge(referrer: string, referenced: string)

  /** The forward and the reverse table together. */
  datatype Graph = Graph(refs: Dict<seq<string>>, sources: Dict<seq<string>>)
  {
    ghost predicate Valid()
    {
      refs.Valid() && sources.Valid() && ListsNoDup(refs) && ListsNoDup(sources)
    }

    /** `referrer` lists `referenced` in the forward table. */
    predicate HasRef(referrer: string, referenced: string)
    {
      referrer in refs.m && referenced in refs.m[referrer]
    }

    /** `referenced` lists `referrer` in the reverse table. */
    predicate HasSource(referrer: string, referenced: string)
    {
      referenced in sources.m && referrer in sources.m[referenced]
    }

    /** The two tables describe the same set of edges. */
    ghost predicate Symmetric()
    {
      forall a, b :: HasRef(a, b) <==> HasSource(a, b)
    }
  }

  function EmptyGraph(): (g: Graph)
    ensures g.Valid() && g.Symmetric()
  {
    Graph(EmptyDict(), EmptyDict())
  }

  /** `AddAssetReference(guid, refGuid)` on the two tables. */
  function AddEdge(g: Graph, e: Edge): (r: Graph)
  {
    Graph(AddToList(g.refs, e.referrer, e.referenced), AddToList(g.sources, e.referenced, e.referrer))
  }

  /** Adding an edge keeps both tables well formed: ordered keys, lists without repeats. */
  lemma AddEdgeValid(g: Graph, e: Edge)
    requires g.Valid()
    ensures AddEdge(g, e).Valid()
  {
    AddToListSpec(g.refs, e.referrer, e.referenced);
    AddToListSpec(g.sources, e.referenced, e.referrer);
  }

  /** Adding an edge adds exactly that edge to both tables and nothing else. */
  lemma AddEdgeExactly(g: Graph, e: Edge, a: string, b: string)
    ensures AddEdge(g, e).HasRef(a, b) <==> g.HasRef(a, b) || (a == e.referrer && b == e.referenced)
    ensures AddEdge(g, e).HasSource(a, b) <==> g.HasSource(a, b) || (a == e.referrer && b == e.referenced)
  {
  }

  /** A key other than the edge's ends keeps its lists untouched. */
  lemma AddEdgeFrame(g: Graph, e: Edge, k: string)
    requires k != e.referrer
    ensures k in AddEdge(g, e).refs.m <==> k in g.refs.m
    ensures k in g.refs.m ==> AddEdge(g, e).refs.m[k] == g.refs.m[k]
  {
  }

  /** Adding an edge that is already recorded changes nothing. */
  lemma AddEdgePresent(g: Graph, e: Edge)
    requires g.HasRef(e.referrer, e.referenced) && g.HasSource(e.referrer, e.referenced)
    ensures AddEdge(g, e) == g
  {
  }

  /** A repeated call changes nothing. */
  lemma AddEdgeIdempotent(g: Graph, e: Edge)
    ensures AddEdge(AddEdge(g, e), e) == AddEdge(g, e)
  {
    AddEdgePresent(AddEdge(g, e), e);
  }

  /** Adding an edge keeps the two tables describing the same edges. */
  lemma AddEdgeSymmetric(g: Graph, e: Edge)
    requires g.Symmetric()
    ensures AddEdge(g, e).Symmetric()
  {
    forall a, b
      ensures AddEdge(g, e).HasRef(a, b) <==> AddEdge(g, e).HasSource(a, b)
    {
      AddEdgeExactly(g, e, a, b);
    }
  }

  /** A sequence of `AddAssetReference` calls, in order. */
  function ApplyEdges(g: Graph, es: seq<Edge>): (r: Graph)
  {
    if es == [] then g else AddEdge(ApplyEdges(g, es[..|es| - 1]), es[|es| - 1])
  }

  /** Any sequence of calls keeps both tables well formed. */
  lemma {:induction false} ApplyEdgesValid(g: Graph, es: seq<Edge>)
    requires g.Valid()
    ensures ApplyEdges(g, es).Valid()
  {
    if es != [] {
      ApplyEdgesValid(g, es[..|es| - 1]);
      AddEdgeValid(ApplyEdges(g, es[..|es| - 1]), es[|es| - 1]);
    }
  }

  /** Applying two batches one after the other is applying their concatenation. */
  lemma {:induction false} ApplyEdgesAppend(g: Graph, a: seq<Edge>, b: seq<Edge>)
    ensures ApplyEdges(ApplyEdges(g, a), b) == ApplyEdges(g, a + b)
  {
    if b != [] {
      calc {
        ApplyEdges(g, a + b);
        { assert (a + b)[..|a + b| - 1] == a + b[..|b| - 1]; }
        AddEdge(ApplyEdges(g, a + b[..|b| - 1]), b[|b| - 1]);
        { ApplyEdgesAppend(g, a, b[..|b| - 1]); }
        AddEdge(ApplyEdges(ApplyEdges(g, a), b[..|b| - 1]), b[|b| - 1]);
      }
    } else {
      assert a + b == a;
    }
  }

  /**
   * After a batch, an edge is recorded exactly when it was recorded before or
   * is one of the batch's edges, in both tables.
   */
  lemma {:induction false} ApplyEdgesExactly(g: Graph, es: seq<Edge>, a: string, b: string)
    ensures ApplyEdges(g, es).HasRef(a, b) <==> g.HasRef(a, b) || Edge(a, b) in es
    ensures ApplyEdges(g, es).HasSource(a, b) <==> g.HasSource(a, b) || Edge(a, b) in es
  {
    if es != [] {
      var init := es[..|es| - 1];
      ApplyEdgesExactly(g, init, a, b);
      AddEdgeExactly(ApplyEdges(g, init), es[|es| - 1], a, b);
      assert es == init + [es[|es| - 1]];
    }
  }

  /**
   * Any sequence of calls starting from symmetric tables (in particular the
   * empty ones each analysis starts from) leaves them symmetric: `b` is in
   * `refs[a]` exactly when `a` is in `sources[b]`.
   */
  lemma {:induction false} ApplyEdgesSymmetric(g: Graph, es: seq<Edge>)
    requires g.Symmetric()
    ensures ApplyEdges(g, es).Symmetric()
  {
    if es != [] {
      ApplyEdgesSymmetric(g, es[..|es| - 1]);
      AddEdgeSymmetric(ApplyEdges(g, es[..|es| - 1]), es[|es| - 1]);
    }
  }

  /** Repeating a batch that was already applied changes nothing. */
  lemma {:induction false} ApplyEdgesAgain(g: Graph, es: seq<Edge>)
    ensures ApplyEdges(ApplyEdges(g, es), es) == ApplyEdges(g, es)
  {
    forall e | e in es
      ensures ApplyEdges(g, es).HasRef(e.referrer, e.referenced)
      ensures ApplyEdges(g, es).HasSource(e.referrer, e.referenced)
    {
      ApplyEdgesExactly(g, es, e.referrer, e.referenced);
    }
    ApplyEdgesPresent(ApplyEdges(g, es), es);
  }

  lemma {:induction false} ApplyEdgesPresent(g: Graph, es: seq<Edge>)
    requires forall e :: e in es ==> g.HasRef(e.referrer, e.referenced) && g.HasSource(e.referrer, e.referenced)
    ensures ApplyEdges(g, es) == g
  {
    if es != [] {
      ApplyEdgesPresent(g, es[..|es| - 1]);
      AddEdgePresent(g, es[|es| - 1]);
    }
  }
}
