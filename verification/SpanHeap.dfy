/**
 Component traces in memory: slices of span structs whose nested traces are further
 slices. Copying and cycle detection are proved against the pruning of `Spans`.
 */
module SpanHeap {
  import opened Spans

  /** One span struct; `trace` is the slice header, null for a nil slice. */
  datatype Cell = Cell(digest: string, uid: Uid, key: Key, trace: array?<Cell>, cycleOmitted: bool)

  /** The struct's own fields and the value they stand for agree. */
  predicate SameFields(c: Cell, s: Span) {
    c.digest == s.digest && c.uid == s.uid && c.key == s.key && c.cycleOmitted == s.cycleOmitted
  }

  /** The slice holds exactly the forest `f`, using no array outside `foot`. */
  ghost predicate Holds(a: array?<Cell>, f: seq<Span>, foot: set<object>)
    reads foot
    decreases f
  {
    if a == null then f == []
    else
      && a in foot
      && a.Length == |f|
      && forall i :: 0 <= i < |f| ==> SameFields(a[i], f[i]) && Holds(a[i].trace, f[i].trace, foot - {a})
  }

  /** A list of structs that is not yet (or no longer) backed by an array. */
  ghost predicate CellsHold(cells: seq<Cell>, f: seq<Span>, foot: set<object>)
    reads foot
  {
    && |cells| == |f|
    && forall i :: 0 <= i < |f| ==> SameFields(cells[i], f[i]) && Holds(cells[i].trace, f[i].trace, foot)
  }

  lemma {:induction false} HoldsMore(a: array?<Cell>, f: seq<Span>, foot: set<object>, more: set<object>)
    requires Holds(a, f, foot) && foot <= more
    ensures Holds(a, f, more)
    decreases f
  {
    if a != null {
      forall i | 0 <= i < |f| ensures Holds(a[i].trace, f[i].trace, more - {a}) {
        HoldsMore(a[i].trace, f[i].trace, foot - {a}, more - {a});
      }
    }
  }

  /** `DeepCopy` of a trace: the same value in arrays of its own. */
  method DeepCopy(a: array?<Cell>, ghost f: seq<Span>, ghost foot: set<object>)
    returns (b: array?<Cell>, ghost own: set<object>)
    requires Holds(a, f, foot)
    ensures Holds(b, f, own) && fresh(own)
    ensures Holds(a, f, foot)
    ensures (b == null) == (a == null)
    decreases f
  {
    if a == null {
      return null, {};
    }
    b := new Cell[a.Length];
    own := {};
    for i := 0 to a.Length
      invariant fresh(own) && fresh(b) && b !in own
      invariant b.Length == |f|
      invariant forall k :: 0 <= k < i ==> SameFields(b[k], f[k]) && Holds(b[k].trace, f[k].trace, own)
    {
      var nested;
      ghost var inner;
      nested, inner := DeepCopy(a[i].trace, f[i].trace, foot - {a});
      forall k | 0 <= k < i ensures Holds(b[k].trace, f[k].trace, own + inner) {
        HoldsMore(b[k].trace, f[k].trace, own, own + inner);
      }
      HoldsMore(nested, f[i].trace, inner, own + inner);
      own := own + inner;
      b[i] := a[i].(trace := nested);
    }
    ghost var children := own;
    own := own + {b};
    assert own - {b} == children;
  }

  /**
   `DetectTraceCycle`: reports whether the resource occurs anywhere below itself and
   builds the pruned trace. Nothing that existed before is written, and the result
   shares no array with the input.
   */
  method DetectTraceCycle(trace: array?<Cell>, self: Uid, ghost f: seq<Span>, ghost foot: set<object>)
    returns (hasCycle: bool, sanitized: array?<Cell>, ghost own: set<object>)
    requires Holds(trace, f, foot)
    ensures hasCycle <==> Occurs(f, self)
    ensures Holds(sanitized, Prune(f, self), own) && fresh(own)
    ensures Holds(trace, f, foot)
    ensures (sanitized == null) == (trace == null)
    decreases f
  {
    if trace == null {
      return false, null, {};
    }
    hasCycle := false;
    var cells: seq<Cell> := [];
    own := {};
    for i := 0 to trace.Length
      invariant fresh(own)
      invariant hasCycle <==> Occurs(f[..i], self)
      invariant CellsHold(cells, Prune(f[..i], self), own)
    {
      var nested;
      ghost var copied;
      nested, copied := DeepCopy(trace[i].trace, f[i].trace, foot - {trace});
      var s := trace[i].(trace := nested);
      ghost var below := f[i].trace;
      if s.uid == self {
        hasCycle := true;
        s := s.(cycleOmitted := true, trace := null);
        below, copied := [], {};
      }
      var inner, pruned;
      ghost var fresher;
      inner, pruned, fresher := DetectTraceCycle(s.trace, self, below, copied);
      if inner {
        hasCycle := true;
        s := s.(trace := pruned);
        copied := fresher;
      } else {
        PruneAbsent(below, self);
      }
      assert SameFields(s, PruneSpan(f[i], self)) && Holds(s.trace, PruneSpan(f[i], self).trace, copied);
      CellsAppend(cells, Prune(f[..i], self), own, s, PruneSpan(f[i], self), copied);
      cells := cells + [s];
      own := own + copied;
      assert f[..i + 1] == f[..i] + [f[i]];
      OccursAppend(f[..i], [f[i]], self);
      assert Prune(f[..i + 1], self) == Prune(f[..i], self) + [PruneSpan(f[i], self)];
    }
    assert f[..|f|] == f;
    sanitized := new Cell[|cells|](i requires 0 <= i < |cells| => cells[i]);
    ghost var children := own;
    own := own + {sanitized};
    assert own - {sanitized} == children;
  }

  lemma CellsAppend(cells: seq<Cell>, f: seq<Span>, foot: set<object>, c: Cell, s: Span, more: set<object>)
    requires CellsHold(cells, f, foot)
    requires SameFields(c, s) && Holds(c.trace, s.trace, more)
    ensures CellsHold(cells + [c], f + [s], foot + more)
  {
    forall i | 0 <= i < |f| ensures Holds(cells[i].trace, f[i].trace, foot + more) {
      HoldsMore(cells[i].trace, f[i].trace, foot, foot + more);
    }
    HoldsMore(c.trace, s.trace, more, foot + more);
  }
}
