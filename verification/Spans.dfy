/**
 Component traces as values: the tree of `ComponentSpan`s every component-like
 resource publishes in its status, and the pruning that cycle detection applies to it.
 */
module Spans {
  import opened Base

  type Uid = string

  /** What a span or a reference says about which resource is meant. */
  datatype Key = Key(group: string, kind: string, namespace: string, name: string)

  datatype Span = Span(digest: string, uid: Uid, key: Key, trace: seq<Span>, cycleOmitted: bool)

  /** Some span of the forest carries the UID, at any depth. */
  predicate Occurs(f: seq<Span>, u: Uid) {
    exists i :: 0 <= i < |f| && OccursIn(f[i], u)
  }

  predicate OccursIn(s: Span, u: Uid) {
    s.uid == u || Occurs(s.trace, u)
  }

  /** The forest with everything below a span for `u` cut away and that span marked omitted. */
  function Prune(f: seq<Span>, u: Uid): (r: seq<Span>) {
    seq(|f|, i requires 0 <= i < |f| => PruneSpan(f[i], u))
  }

  function PruneSpan(s: Span, u: Uid): (r: Span) {
    if s.uid == u then s.(trace := [], cycleOmitted := true)
    else s.(trace := Prune(s.trace, u))
  }

  /** Number of spans in the forest. */
  function Size(f: seq<Span>): nat {
    if f == [] then 0 else 1 + Size(f[0].trace) + Size(f[1..])
  }

  /** Number of spans on the longest root-to-leaf path. */
  function Depth(f: seq<Span>): nat {
    if f == [] then 0
    else
      var first, rest := 1 + Depth(f[0].trace), Depth(f[1..]);
      if first < rest then rest else first
  }

  /** The span reached by following child indices from the roots. */
  function At(f: seq<Span>, path: seq<nat>): (r: Option<Span>)
    decreases |path|
  {
    if path == [] || path[0] >= |f| then None
    else if |path| == 1 then Some(f[path[0]])
    else At(f[path[0]].trace, path[1..])
  }

  /** Occurring means being some span's UID, at whatever position. */
  lemma {:induction false} OccursAt(f: seq<Span>, u: Uid)
    ensures Occurs(f, u) <==> exists path :: At(f, path).Some? && At(f, path).value.uid == u
  {
    if Occurs(f, u) {
      var i :| 0 <= i < |f| && OccursIn(f[i], u);
      if f[i].uid == u {
        assert At(f, [i]) == Some(f[i]);
      } else {
        OccursAt(f[i].trace, u);
        var path :| At(f[i].trace, path).Some? && At(f[i].trace, path).value.uid == u;
        assert ([i] + path)[1..] == path;
        assert At(f, [i] + path) == At(f[i].trace, path);
      }
    }
    if path :| At(f, path).Some? && At(f, path).value.uid == u {
      AtOccurs(f, u, path);
    }
  }

  lemma {:induction false} AtOccurs(f: seq<Span>, u: Uid, path: seq<nat>)
    requires At(f, path).Some? && At(f, path).value.uid == u
    ensures Occurs(f, u)
    decreases |path|
  {
    var s := f[path[0]];
    if |path| > 1 {
      AtOccurs(s.trace, u, path[1..]);
    }
    assert OccursIn(s, u);
  }

  // ---------------------------------------------------------------- pruning algebra

  /** Pruning for a UID that does not occur changes nothing. */
  lemma {:induction false} PruneAbsent(f: seq<Span>, u: Uid)
    requires !Occurs(f, u)
    ensures Prune(f, u) == f
  {
    forall i | 0 <= i < |f| ensures Prune(f, u)[i] == f[i] {
      assert !OccursIn(f[i], u);
      PruneAbsent(f[i].trace, u);
    }
  }

  /** Pruning removes no root and never hides whether the UID was there. */
  lemma {:induction false} PruneKeepsOccurrence(f: seq<Span>, u: Uid)
    ensures Occurs(Prune(f, u), u) <==> Occurs(f, u)
  {
    forall i | 0 <= i < |f| ensures OccursIn(Prune(f, u)[i], u) <==> OccursIn(f[i], u) {
      PruneKeepsOccurrence(f[i].trace, u);
    }
    if Occurs(f, u) {
      var i :| 0 <= i < |f| && OccursIn(f[i], u);
      assert OccursIn(Prune(f, u)[i], u);
    }
    if Occurs(Prune(f, u), u) {
      var i :| 0 <= i < |Prune(f, u)| && OccursIn(Prune(f, u)[i], u);
      assert OccursIn(f[i], u);
    }
  }

  /**
   The complete description of the pruned forest: the spans that stay are those with
   no span for `u` strictly above them, each in its old place; a span for `u` becomes an
   omitted leaf and any other keeps its own fields.
   */
  lemma {:induction false} PruneAt(f: seq<Span>, u: Uid, path: seq<nat>)
    ensures At(Prune(f, u), path).Some? <==>
              At(f, path).Some?
              && forall k :: 0 < k < |path| && At(f, path[..k]).Some? ==> At(f, path[..k]).value.uid != u
    ensures At(Prune(f, u), path).Some? ==>
              var before, after := At(f, path).value, At(Prune(f, u), path).value;
              && after.(trace := [], cycleOmitted := before.cycleOmitted) == before.(trace := [])
              && (before.uid == u ==> after.trace == [] && after.cycleOmitted)
              && (before.uid != u ==> |after.trace| == |before.trace| && after.cycleOmitted == before.cycleOmitted)
    decreases |path|
  {
    if path != [] && path[0] < |f| && |path| == 1 {
      assert Prune(f, u)[path[0]] == PruneSpan(f[path[0]], u);
      assert |Prune(f[path[0]].trace, u)| == |f[path[0]].trace|;
    } else if path != [] && path[0] < |f| {
      var s := f[path[0]];
      assert path[..1] == [path[0]];
      assert At(f, path[..1]) == Some(s);
      PruneAt(s.trace, u, path[1..]);
      forall k | 1 < k < |path| ensures At(f, path[..k]) == At(s.trace, path[1..][..k - 1]) {
        assert path[..k][1..] == path[1..][..k - 1];
      }
      if s.uid == u {
        assert At(Prune(f, u), path) == None;
      } else {
        assert At(Prune(f, u), path) == At(Prune(s.trace, u), path[1..]);
        forall k | 0 < k < |path[1..]| ensures At(s.trace, path[1..][..k]) == At(f, path[..k + 1]) {
          assert path[..k + 1][1..] == path[1..][..k];
        }
      }
    }
  }

  lemma {:induction false} PruneIdempotent(f: seq<Span>, u: Uid)
    ensures Prune(Prune(f, u), u) == Prune(f, u)
  {
    forall i | 0 <= i < |f| ensures Prune(Prune(f, u), u)[i] == Prune(f, u)[i] {
      PruneIdempotent(f[i].trace, u);
    }
  }

  /** Two resources that prune the same trace for themselves may do so in either order. */
  lemma {:induction false} PruneCommutes(f: seq<Span>, u: Uid, v: Uid)
    requires u != v
    ensures Prune(Prune(f, u), v) == Prune(Prune(f, v), u)
  {
    forall i | 0 <= i < |f| ensures Prune(Prune(f, u), v)[i] == Prune(Prune(f, v), u)[i] {
      PruneCommutes(f[i].trace, u, v);
      assert Prune(f, u)[i] == PruneSpan(f[i], u) && Prune(f, v)[i] == PruneSpan(f[i], v);
      assert Prune([], u) == [] && Prune([], v) == [];
    }
  }

  /** No span for the UID, at any depth, has anything below it. */
  predicate Leaves(f: seq<Span>, u: Uid) {
    forall i :: 0 <= i < |f| ==> (f[i].uid == u ==> f[i].trace == []) && Leaves(f[i].trace, u)
  }

  /** Pruning never grows a forest, and keeps its size exactly when there is nothing to cut at any depth. */
  lemma {:induction false} PruneShrinks(f: seq<Span>, u: Uid)
    ensures Size(Prune(f, u)) <= Size(f)
    ensures Size(Prune(f, u)) == Size(f) <==> Leaves(f, u)
  {
    if f != [] {
      var rest := f[1..];
      assert Prune(f, u)[1..] == Prune(rest, u);
      PruneShrinks(f[0].trace, u);
      PruneShrinks(rest, u);
      assert Size(f[0].trace) == 0 ==> f[0].trace == [];
      assert Leaves(f, u) <==> (f[0].uid == u ==> f[0].trace == []) && Leaves(f[0].trace, u) && Leaves(rest, u) by {
        assert forall i :: 0 <= i < |rest| ==> rest[i] == f[i + 1];
        assert forall i :: 0 < i < |f| ==> f[i] == rest[i - 1];
      }
    }
  }

  // ---------------------------------------------------------------- forests and concatenation

  lemma OccursAppend(f: seq<Span>, g: seq<Span>, u: Uid)
    ensures Occurs(f + g, u) <==> Occurs(f, u) || Occurs(g, u)
  {
    if i :| 0 <= i < |f| && OccursIn(f[i], u) {
      assert (f + g)[i] == f[i];
    }
    if i :| 0 <= i < |g| && OccursIn(g[i], u) {
      assert (f + g)[|f| + i] == g[i];
    }
  }

  lemma OccursNext(spans: seq<Span>, s: Span, u: Uid)
    requires !Occurs(spans, u)
    ensures Occurs(spans + [s], u) <==> OccursIn(s, u)
  {
    OccursAppend(spans, [s], u);
    assert [s][0] == s;
  }
}
