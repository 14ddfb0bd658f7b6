/**
 * The reference-chain walk: a worklist starts with the seeds (open scenes,
 * then the assets of every asset bundle) and `RegisterAssetRef` marks each
 * item it visits and appends the item's unseen references to the very list
 * being walked. When the walk ends, the marked assets are exactly those
 * reachable from the seeds through `guidToReferences`.
 */
module Reachability {
  import opened Collections

  /** `list.Add(item)` for each item not yet in the list, in order (the `ForEach` of `RegisterAssetRef`). */
  function AppendUnseen(list: seq<string>, items: seq<string>): (r: seq<string>)
    ensures |list| <= |r| && r[..|list|] == list
    decreases |items|
  {
    if items == [] then list
    else AppendUnseen(if items[0] in list then list else list + [items[0]], items[1..])
  }

  /** The list ends up holding the old items and the new ones, and what was appended repeats nothing. */
  lemma {:induction false} AppendUnseenContents(list: seq<string>, items: seq<string>)
    ensures var r := AppendUnseen(list, items);
      && (forall x :: x in r <==> x in list || x in items)
      && (forall i, j :: 0 <= j < i < |r| && |list| <= i ==> r[j] != r[i])
    decreases |items|
  {
    if items != [] {
      var next := if items[0] in list then list else list + [items[0]];
      AppendUnseenContents(next, items[1..]);
      assert items == [items[0]] + items[1..];
      var r := AppendUnseen(list, items);
      assert r[..|next|] == next;
      forall i, j | 0 <= j < i < |r| && |list| <= i ensures r[j] != r[i] {
        if i < |next| {
          assert r[i] == next[i] && r[j] == next[j];
        }
      }
    }
  }

  /** A path of references from `p[0]` to its last element. */
  ghost predicate IsPath(refs: Dict<seq<string>>, p: seq<string>)
  {
    forall i :: 0 <= i < |p| - 1 ==> p[i] in refs.m && p[i + 1] in refs.m[p[i]]
  }

  /** `x` can be reached from one of the seeds by following references. */
  ghost predicate Reachable(refs: Dict<seq<string>>, seeds: seq<string>, x: string)
  {
    exists p :: |p| >= 1 && p[0] in seeds && p[|p| - 1] == x && IsPath(refs, p)
  }

  /** The walk: visit marks, the worklist, and the position of the next item to visit. */
  datatype Walk = Walk(status: Dict<bool>, list: seq<string>, index: nat)
  {
    predicate Done()
    {
      index >= |list|
    }
  }

  /** `RegisterAssetRef(list, guid)`: mark `guid`, then queue its unseen references. */
  function Register(status: Dict<bool>, list: seq<string>, refs: Dict<seq<string>>, guid: string): (r: (Dict<bool>, seq<string>))
    ensures r.0.m == status.m[guid := true]
    ensures r.0.Valid() <== status.Valid()
    ensures |list| <= |r.1| && r.1[..|list|] == list
  {
    (status.Set(guid, true), if guid in refs.m then AppendUnseen(list, refs.m[guid]) else list)
  }

  /** What `Register` queues: the references of `guid`, each at most once beyond the old list. */
  lemma RegisterQueues(status: Dict<bool>, list: seq<string>, refs: Dict<seq<string>>, guid: string)
    ensures var r := Register(status, list, refs, guid).1;
      && (forall x :: x in r <==> x in list || (guid in refs.m && x in refs.m[guid]))
      && (forall i, j :: 0 <= j < i < |r| && |list| <= i ==> r[j] != r[i])
  {
    if guid in refs.m {
      AppendUnseenContents(list, refs.m[guid]);
    }
  }

  /** One iteration of the walk loop. */
  function Step(w: Walk, refs: Dict<seq<string>>): Walk
    requires !w.Done()
  {
    var r := Register(w.status, w.list, refs, w.list[w.index]);
    Walk(r.0, r.1, w.index + 1)
  }

  /** At most `n` iterations of the walk loop; it stops early once the list is exhausted. */
  function Run(w: Walk, refs: Dict<seq<string>>, n: nat): Walk
    decreases n
  {
    if n == 0 || w.Done() then w else Run(Step(w, refs), refs, n - 1)
  }

  /** One more iteration after `n` of them. */
  lemma {:induction false} RunOneMore(w: Walk, refs: Dict<seq<string>>, n: nat)
    ensures Run(w, refs, n + 1) == if Run(w, refs, n).Done() then Run(w, refs, n) else Step(Run(w, refs, n), refs)
    decreases n
  {
    if n > 0 && !w.Done() {
      RunOneMore(Step(w, refs), refs, n - 1);
    }
  }

  /**
   * Resuming is the same as running on: `a` iterations, then `b` more, is
   * `a + b` iterations. This is why cutting the walk into time slices of any
   * sizes gives the same result.
   */
  lemma {:induction false} RunSplit(w: Walk, refs: Dict<seq<string>>, a: nat, b: nat)
    ensures Run(Run(w, refs, a), refs, b) == Run(w, refs, a + b)
    decreases a
  {
    if a > 0 && !w.Done() {
      RunSplit(Step(w, refs), refs, a - 1, b);
    } else if a > 0 {
      assert Run(w, refs, a) == w;
      if b > 0 {
        assert Run(w, refs, a + b) == w;
      }
    }
  }

  /** Once the walk is done, further iterations change nothing. */
  lemma {:induction false} RunDone(w: Walk, refs: Dict<seq<string>>, a: nat, b: nat)
    requires a <= b && Run(w, refs, a).Done()
    ensures Run(w, refs, b) == Run(w, refs, a)
  {
    RunSplit(w, refs, a, b - a);
  }

  /** Every GUID any list of `refs` names. */
  ghost function AllTargets(refs: Dict<seq<string>>): set<string>
  {
    set k, y | k in refs.m && y in refs.m[k] :: y
  }

  /** The list is the seeds followed by items that occur nowhere earlier in it. */
  ghost predicate Shaped(list: seq<string>, index: nat, seeds: seq<string>)
  {
    && index <= |list|
    && |seeds| <= |list| && list[..|seeds|] == seeds
    && (forall i, j :: 0 <= j < i < |list| && |seeds| <= i ==> list[j] != list[i])
  }

  /** Item `i` is referenced by an earlier item that has been visited. */
  ghost predicate HasParent(list: seq<string>, index: nat, refs: Dict<seq<string>>, i: nat)
    requires i < |list|
  {
    exists j :: 0 <= j < index && j < i && list[j] in refs.m && list[i] in refs.m[list[j]]
  }

  /** Every item queued after the seeds has a visited parent. */
  ghost predicate Parented(list: seq<string>, index: nat, refs: Dict<seq<string>>, seeds: seq<string>)
  {
    forall i :: |seeds| <= i < |list| ==> HasParent(list, index, refs, i)
  }

  /** Every visited item has all its references queued. */
  ghost predicate Closed(list: seq<string>, index: nat, refs: Dict<seq<string>>)
    requires index <= |list|
  {
    forall j, y :: 0 <= j < index && list[j] in refs.m && y in refs.m[list[j]] ==> y in list
  }

  /** An asset is marked exactly when it was marked before the walk or has been visited. */
  ghost predicate Marked(status: Dict<bool>, visited: seq<string>, status0: Dict<bool>)
  {
    && (forall k :: k in status.m <==> k in status0.m || k in visited)
    && (forall k :: k in status.m ==> (status.m[k] <==> (k in status0.m && status0.m[k]) || k in visited))
  }

  /**
   * The invariant of the walk started from `seeds` on marks `status0`: the
   * list is the seeds followed by distinct references; each queued item was
   * referenced by an item already visited; every visited item has all its
   * references queued; and an asset is marked exactly when it was marked
   * before or has been visited.
   */
  ghost predicate WalkInv(w: Walk, refs: Dict<seq<string>>, seeds: seq<string>, status0: Dict<bool>)
  {
    && w.status.Valid()
    && Shaped(w.list, w.index, seeds)
    && Parented(w.list, w.index, refs, seeds)
    && Closed(w.list, w.index, refs)
    && Marked(w.status, w.list[..w.index], status0)
  }

  /** The walk as `SyncRefAnalysis` starts it: the seeds queued, nothing visited. */
  lemma WalkInvInit(refs: Dict<seq<string>>, seeds: seq<string>, status0: Dict<bool>)
    requires status0.Valid()
    ensures WalkInv(Walk(status0, seeds, 0), refs, seeds, status0)
  {
    assert seeds[..|seeds|] == seeds;
  }

  lemma StepShaped(w: Walk, refs: Dict<seq<string>>, seeds: seq<string>)
    requires Shaped(w.list, w.index, seeds) && !w.Done()
    ensures Shaped(Step(w, refs).list, Step(w, refs).index, seeds)
  {
    RegisterQueues(w.status, w.list, refs, w.list[w.index]);
    var l' := Step(w, refs).list;
    assert l'[..|w.list|] == w.list;
    assert l'[..|seeds|] == w.list[..|w.list|][..|seeds|];
    forall i, j | 0 <= j < i < |l'| && |seeds| <= i ensures l'[j] != l'[i] {
      if i < |w.list| {
        assert l'[i] == w.list[i] && l'[j] == w.list[j];
      }
    }
  }

  lemma StepParented(w: Walk, refs: Dict<seq<string>>, seeds: seq<string>)
    requires Shaped(w.list, w.index, seeds) && Parented(w.list, w.index, refs, seeds) && !w.Done()
    ensures Parented(Step(w, refs).list, Step(w, refs).index, refs, seeds)
  {
    RegisterQueues(w.status, w.list, refs, w.list[w.index]);
    var l' := Step(w, refs).list;
    var g := w.list[w.index];
    var index' := Step(w, refs).index;
    assert l'[..|w.list|] == w.list;
    forall i | |seeds| <= i < |l'| ensures HasParent(l', index', refs, i) {
      if i < |w.list| {
        assert HasParent(w.list, w.index, refs, i);
        var j :| 0 <= j < w.index && j < i && w.list[j] in refs.m && w.list[i] in refs.m[w.list[j]];
        assert l'[j] == w.list[j] && l'[i] == w.list[i];
      } else {
        forall j | 0 <= j < |w.list| ensures w.list[j] != l'[i] {
          assert l'[j] == w.list[j];
        }
        assert l'[i] !in w.list;
        assert l'[w.index] == g;
      }
    }
  }

  lemma StepClosed(w: Walk, refs: Dict<seq<string>>, seeds: seq<string>)
    requires Shaped(w.list, w.index, seeds) && Closed(w.list, w.index, refs) && !w.Done()
    ensures Step(w, refs).index <= |Step(w, refs).list|
    ensures Closed(Step(w, refs).list, Step(w, refs).index, refs)
  {
    RegisterQueues(w.status, w.list, refs, w.list[w.index]);
    var l' := Step(w, refs).list;
    assert l'[..|w.list|] == w.list;
    forall j, y | 0 <= j < w.index + 1 && l'[j] in refs.m && y in refs.m[l'[j]] ensures y in l' {
      assert l'[j] == w.list[j];
      if j < w.index {
        assert y in w.list;
      }
    }
  }

  lemma StepMarked(w: Walk, refs: Dict<seq<string>>, status0: Dict<bool>)
    requires !w.Done() && Marked(w.status, w.list[..w.index], status0)
    ensures Marked(Step(w, refs).status, Step(w, refs).list[..Step(w, refs).index], status0)
  {
    var w' := Step(w, refs);
    assert w'.list[..|w.list|] == w.list;
    assert w'.list[..w'.index] == w.list[..w.index] + [w.list[w.index]];
  }

  /** One iteration keeps the invariant. */
  lemma WalkInvStep(w: Walk, refs: Dict<seq<string>>, seeds: seq<string>, status0: Dict<bool>)
    requires WalkInv(w, refs, seeds, status0) && !w.Done()
    ensures WalkInv(Step(w, refs), refs, seeds, status0)
  {
    StepShaped(w, refs, seeds);
    StepParented(w, refs, seeds);
    StepClosed(w, refs, seeds);
    StepMarked(w, refs, status0);
  }

  /** The number of distinct elements a repeat-free list can hold is bounded by any set containing them. */
  lemma {:induction false} DistinctBound(s: seq<string>, bound: set<string>)
    requires NoDup(s) && forall x :: x in s ==> x in bound
    ensures |s| <= |bound|
  {
    if s != [] {
      var rest := bound - {s[0]};
      assert forall x :: x in s[1..] ==> x in rest by {
        forall x | x in s[1..] ensures x in rest {
          var i :| 0 <= i < |s[1..]| && s[1..][i] == x;
          assert s[i + 1] == x;
        }
      }
      DistinctBound(s[1..], rest);
    }
  }

  /**
   * The worklist never outgrows the seeds plus the distinct GUIDs the
   * reference lists name, so the walk loop terminates.
   */
  lemma ListBound(w: Walk, refs: Dict<seq<string>>, seeds: seq<string>, status0: Dict<bool>)
    requires WalkInv(w, refs, seeds, status0)
    ensures |w.list| <= |seeds| + |AllTargets(refs)|
  {
    var tail := w.list[|seeds|..];
    forall x | x in tail ensures x in AllTargets(refs) {
      var i :| 0 <= i < |tail| && tail[i] == x;
      assert w.list[|seeds| + i] == x;
      assert HasParent(w.list, w.index, refs, |seeds| + i);
      var j :| 0 <= j < w.index && j < |seeds| + i && w.list[j] in refs.m && x in refs.m[w.list[j]];
    }
    forall a, b | 0 <= a < b < |tail| ensures tail[a] != tail[b] {
      assert tail[a] == w.list[|seeds| + a] && tail[b] == w.list[|seeds| + b];
    }
    DistinctBound(tail, AllTargets(refs));
    assert w.list == seeds + tail;
  }

  /** Every queued item is reachable from the seeds. */
  lemma {:induction false} QueuedReachable(w: Walk, refs: Dict<seq<string>>, seeds: seq<string>, status0: Dict<bool>, i: nat)
    requires WalkInv(w, refs, seeds, status0) && i < |w.list|
    ensures Reachable(refs, seeds, w.list[i])
    decreases i
  {
    if i < |seeds| {
      assert w.list[i] == seeds[i];
      var p := [w.list[i]];
      assert IsPath(refs, p);
    } else {
      assert HasParent(w.list, w.index, refs, i);
      var j :| 0 <= j < w.index && j < i && w.list[j] in refs.m && w.list[i] in refs.m[w.list[j]];
      QueuedReachable(w, refs, seeds, status0, j);
      var p :| |p| >= 1 && p[0] in seeds && p[|p| - 1] == w.list[j] && IsPath(refs, p);
      var q := p + [w.list[i]];
      assert IsPath(refs, q) by {
        forall k | 0 <= k < |q| - 1 ensures q[k] in refs.m && q[k + 1] in refs.m[q[k]] {
          if k < |p| - 1 {
            assert q[k] == p[k] && q[k + 1] == p[k + 1];
          }
        }
      }
      assert q[0] == p[0];
    }
  }

  /** When the walk is done, everything reachable from the seeds has been queued. */
  lemma {:induction false} ReachableQueued(w: Walk, refs: Dict<seq<string>>, seeds: seq<string>, status0: Dict<bool>, p: seq<string>)
    requires WalkInv(w, refs, seeds, status0) && w.Done()
    requires |p| >= 1 && p[0] in seeds && IsPath(refs, p)
    ensures p[|p| - 1] in w.list
    decreases |p|
  {
    if |p| == 1 {
      assert w.list[..|seeds|] == seeds;
      assert p[0] in w.list[..|seeds|];
    } else {
      var init := p[..|p| - 1];
      assert IsPath(refs, init) by {
        forall k | 0 <= k < |init| - 1 ensures init[k] in refs.m && init[k + 1] in refs.m[init[k]] {
          assert init[k] == p[k] && init[k + 1] == p[k + 1];
        }
      }
      ReachableQueued(w, refs, seeds, status0, init);
      var x := p[|p| - 2];
      assert init[|init| - 1] == x;
      var j :| 0 <= j < |w.list| && w.list[j] == x;
      assert x in refs.m && p[|p| - 1] in refs.m[x];
    }
  }

  /**
   * The walk's outcome: when it is done, an asset that was unmarked before
   * the walk is marked exactly when it is reachable from the seeds.
   */
  lemma WalkDoneMarksReachable(w: Walk, refs: Dict<seq<string>>, seeds: seq<string>, status0: Dict<bool>, k: string)
    requires WalkInv(w, refs, seeds, status0) && w.Done()
    requires k in status0.m && !status0.m[k]
    ensures k in w.status.m && (w.status.m[k] <==> Reachable(refs, seeds, k))
  {
    assert w.list[..w.index] == w.list;
    if k in w.list {
      var i :| 0 <= i < |w.list| && w.list[i] == k;
      QueuedReachable(w, refs, seeds, status0, i);
    }
    if Reachable(refs, seeds, k) {
      var p :| |p| >= 1 && p[0] in seeds && p[|p| - 1] == k && IsPath(refs, p);
      ReachableQueued(w, refs, seeds, status0, p);
    }
  }

  /** The invariant survives any number of iterations. */
  lemma {:induction false} RunKeepsInv(w: Walk, refs: Dict<seq<string>>, seeds: seq<string>, status0: Dict<bool>, n: nat)
    requires WalkInv(w, refs, seeds, status0)
    ensures WalkInv(Run(w, refs, n), refs, seeds, status0)
    decreases n
  {
    if n > 0 && !w.Done() {
      WalkInvStep(w, refs, seeds, status0);
      RunKeepsInv(Step(w, refs), refs, seeds, status0, n - 1);
    }
  }

  /**
   * The walk is done after at most `|seeds| + |AllTargets(refs)|`
   * iterations from its start.
   */
  lemma {:induction false} RunTerminates(w: Walk, refs: Dict<seq<string>>, seeds: seq<string>, status0: Dict<bool>, n: nat)
    requires WalkInv(w, refs, seeds, status0)
    requires n + w.index >= |seeds| + |AllTargets(refs)|
    ensures Run(w, refs, n).Done()
    decreases n
  {
    ListBound(w, refs, seeds, status0);
    if n > 0 && !w.Done() {
      WalkInvStep(w, refs, seeds, status0);
      RunTerminates(Step(w, refs), refs, seeds, status0, n - 1);
    }
  }
}
