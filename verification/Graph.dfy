/** Walks and cycles in a reference graph, and how traces embed in it. */
module Graph {
  import opened Base
  import opened Spans

  type Edges = set<(Uid, Uid)>

  ghost predicate Walk(e: Edges, p: seq<Uid>) {
    p != [] && forall i :: 0 <= i < |p| - 1 ==> (p[i], p[i + 1]) in e
  }

  ghost predicate WalkFrom(e: Edges, u: Uid, v: Uid, p: seq<Uid>) {
    Walk(e, p) && |p| > 1 && p[0] == u && p[|p| - 1] == v
  }

  /** A chain of at least one reference leads from u back to u. */
  ghost predicate OnCycle(e: Edges, u: Uid) {
    exists p :: WalkFrom(e, u, u, p)
  }

  /** All nodes but the last are outside the set. */
  ghost predicate Avoids(p: seq<Uid>, stop: set<Uid>) {
    forall i :: 0 <= i < |p| - 1 ==> p[i] !in stop
  }

  /** Every walk from u reaches the stop set or a dead end within n edges. */
  ghost predicate Bounded(e: Edges, stop: set<Uid>, u: Uid, n: nat)
    decreases n
  {
    u in stop || (n > 0 && forall v :: (u, v) in e ==> Bounded(e, stop, v, n - 1))
  }

  /** Walks from u that do not enter the stop set have a bounded length. */
  ghost predicate Acyclic(e: Edges, stop: set<Uid>, u: Uid) {
    exists n: nat :: Bounded(e, stop, u, n)
  }

  lemma {:induction false} BoundedMore(e: Edges, stop: set<Uid>, u: Uid, n: nat, m: nat)
    requires Bounded(e, stop, u, n) && n <= m
    ensures Bounded(e, stop, u, m)
    decreases n
  {
    if u !in stop {
      forall v | (u, v) in e ensures Bounded(e, stop, v, m - 1) {
        BoundedMore(e, stop, v, n - 1, m - 1);
      }
    }
  }

  /** One bound serves a whole list of nodes. */
  lemma {:induction false} CommonBound(e: Edges, stop: set<Uid>, us: seq<Uid>) returns (n: nat)
    requires forall i :: 0 <= i < |us| ==> Acyclic(e, stop, us[i])
    ensures forall i :: 0 <= i < |us| ==> Bounded(e, stop, us[i], n)
  {
    n := 0;
    if us != [] {
      var rest := us[1..];
      forall i | 0 <= i < |rest| ensures Acyclic(e, stop, rest[i]) {
        assert rest[i] == us[i + 1];
      }
      var m := CommonBound(e, stop, rest);
      var k: nat :| Bounded(e, stop, us[0], k);
      n := if m < k then k else m;
      forall i | 0 <= i < |us| ensures Bounded(e, stop, us[i], n) {
        if i == 0 {
          BoundedMore(e, stop, us[0], k, n);
        } else {
          BoundedMore(e, stop, rest[i - 1], m, n);
        }
      }
    }
  }

  /** A bounded node is not on a cycle that avoids the stop set. */
  lemma {:induction false} BoundedNoCycle(e: Edges, stop: set<Uid>, u: Uid, n: nat, p: seq<Uid>)
    requires Bounded(e, stop, u, n) && WalkFrom(e, u, u, p) && Avoids(p, stop)
    ensures false
    decreases n
  {
    assert p[0] !in stop && (p[0], p[1]) in e;
    var turned := p[1..] + [p[1]];
    forall i | 0 <= i < |turned| - 1 ensures (turned[i], turned[i + 1]) in e && turned[i] !in stop {
      if i < |p| - 2 {
        assert turned[i] == p[i + 1] && turned[i + 1] == p[i + 2];
      } else {
        assert turned[i] == p[|p| - 1] == p[0];
      }
    }
    BoundedNoCycle(e, stop, p[1], n - 1, turned);
  }

  /** Boundedness passes down a walk, with nothing to stop it. */
  lemma {:induction false} BoundedBelow(e: Edges, u: Uid, n: nat, p: seq<Uid>)
    requires Bounded(e, {}, u, n) && Walk(e, p) && p[0] == u
    ensures Acyclic(e, {}, p[|p| - 1])
    decreases |p|
  {
    if |p| > 1 {
      assert (p[0], p[1]) in e;
      BoundedBelow(e, p[1], n - 1, p[1..]);
    }
  }

  // ---------------------------------------------------------------- traces in the graph

  /** Every parent and child in the trace of u is an edge. */
  ghost predicate Grounded(e: Edges, u: Uid, f: seq<Span>)
    decreases f
  {
    forall i :: 0 <= i < |f| ==> (u, f[i].uid) in e && Grounded(e, f[i].uid, f[i].trace)
  }

  lemma {:induction false} GroundedMore(e: Edges, more: Edges, u: Uid, f: seq<Span>)
    requires Grounded(e, u, f) && e <= more
    ensures Grounded(more, u, f)
    decreases f
  {
    forall i | 0 <= i < |f| ensures Grounded(more, f[i].uid, f[i].trace) {
      GroundedMore(e, more, f[i].uid, f[i].trace);
    }
  }

  lemma {:induction false} GroundedPrune(e: Edges, u: Uid, f: seq<Span>, self: Uid)
    requires Grounded(e, u, f)
    ensures Grounded(e, u, Prune(f, self))
    decreases f
  {
    forall i | 0 <= i < |f| ensures Grounded(e, f[i].uid, Prune(f, self)[i].trace) {
      GroundedPrune(e, f[i].uid, f[i].trace, self);
    }
  }

  /** A span in the trace is reached from the root by a walk. */
  lemma {:induction false} GroundedWalk(e: Edges, u: Uid, f: seq<Span>, v: Uid) returns (p: seq<Uid>)
    requires Grounded(e, u, f) && Occurs(f, v)
    ensures WalkFrom(e, u, v, p)
    decreases f
  {
    var i :| 0 <= i < |f| && OccursIn(f[i], v);
    if f[i].uid == v {
      p := [u, v];
    } else {
      var rest := GroundedWalk(e, f[i].uid, f[i].trace, v);
      p := [u] + rest;
    }
  }

  /**
   If pruning for y leaves no trace of r although y occurred, then y is reached without
   passing r.
   */
  lemma {:induction false} WalkAroundPruned(e: Edges, u: Uid, f: seq<Span>, y: Uid, r: Uid) returns (p: seq<Uid>)
    requires Grounded(e, u, f) && Occurs(f, y) && !Occurs(Prune(f, y), r) && u != r
    ensures WalkFrom(e, u, y, p) && Avoids(p, {r})
    decreases f
  {
    var i :| 0 <= i < |f| && OccursIn(f[i], y);
    assert !OccursIn(Prune(f, y)[i], r);
    if f[i].uid == y {
      p := [u, y];
    } else {
      var rest := WalkAroundPruned(e, f[i].uid, f[i].trace, y, r);
      p := [u] + rest;
    }
  }

  // ---------------------------------------------------------------- repetition and depth

  /** No UID repeats along any path below the given ancestors, except in omitted leaves. */
  ghost predicate Distinct(above: set<Uid>, f: seq<Span>)
    decreases f
  {
    forall i :: 0 <= i < |f| ==>
      if f[i].uid in above then f[i].cycleOmitted && f[i].trace == []
      else Distinct(above + {f[i].uid}, f[i].trace)
  }

  /** Pruning for self makes room for self among the ancestors. */
  lemma {:induction false} DistinctPrune(above: set<Uid>, f: seq<Span>, self: Uid)
    requires Distinct(above, f)
    ensures Distinct(above + {self}, Prune(f, self))
    decreases f
  {
    var g := Prune(f, self);
    forall i | 0 <= i < |g|
      ensures if g[i].uid in above + {self} then g[i].cycleOmitted && g[i].trace == []
              else Distinct(above + {self} + {g[i].uid}, g[i].trace)
    {
      assert g[i] == PruneSpan(f[i], self) && Prune([], self) == [];
      if f[i].uid !in above && f[i].uid != self {
        DistinctPrune(above + {f[i].uid}, f[i].trace, self);
        assert above + {f[i].uid} + {self} == above + {self} + {f[i].uid};
      }
    }
  }

  /** The UIDs met on the way down to a span. */
  function UidsTo(f: seq<Span>, path: seq<nat>): seq<Uid>
    decreases |path|
  {
    if path == [] || path[0] >= |f| then []
    else [f[path[0]].uid] + UidsTo(f[path[0]].trace, path[1..])
  }

  /** Read path by path: a repeated UID can only be the last one, in an omitted leaf. */
  lemma {:induction false} DistinctPath(above: set<Uid>, f: seq<Span>, path: seq<nat>, j: nat)
    requires Distinct(above, f) && At(f, path).Some?
    requires j < |UidsTo(f, path)| && (UidsTo(f, path)[j] in above || exists i :: 0 <= i < j && UidsTo(f, path)[i] == UidsTo(f, path)[j])
    ensures j == |UidsTo(f, path)| - 1 && At(f, path).value.cycleOmitted && At(f, path).value.trace == []
    decreases |path|
  {
    var s := f[path[0]];
    var us := UidsTo(f, path);
    if |path| > 1 {
      assert s.trace != [];
      assert j > 0;
      assert us[1..] == UidsTo(s.trace, path[1..]);
      DistinctPath(above + {s.uid}, s.trace, path[1..], j - 1);
    }
  }

  ghost predicate Within(f: seq<Span>, all: set<Uid>) {
    forall i :: 0 <= i < |f| ==> f[i].uid in all && Within(f[i].trace, all)
  }

  lemma {:induction false} DistinctDepth(above: set<Uid>, f: seq<Span>, all: set<Uid>)
    requires Distinct(above, f) && Within(f, all) && above <= all
    ensures Depth(f) + |above| <= |all| + 1
    decreases f
  {
    SubsetSize(above, all);
    if f != [] {
      forall i | 0 <= i < |f[1..]| ensures f[1..][i] == f[i + 1] {}
      DistinctDepth(above, f[1..], all);
      if f[0].uid !in above {
        DistinctDepth(above + {f[0].uid}, f[0].trace, all);
      }
    }
  }

  lemma {:induction false} SubsetSize(a: set<Uid>, b: set<Uid>)
    requires a <= b
    ensures |a| <= |b|
    decreases a
  {
    if a != {} {
      var x :| x in a;
      SubsetSize(a - {x}, b - {x});
    }
  }
}
