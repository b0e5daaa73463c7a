/**
 What holds in every reachable world, under any interleaving of creations, edits and
 runs and with any stale reads.
 */
module Safety {
  import opened Base
  import opened Spans
  import opened Resources
  import opened Runs
  import opened Protocol
  import opened Shapes
  import opened Graph

  /** References that were ever in some spec, between any two resources that ever existed. */
  ghost function EverEdges(h: set<Object>): Edges {
    set a, b | a in h && b in h && b.key in References(a.spec) :: (a.uid, b.uid)
  }

  ghost predicate WellFormed(w: World) {
    && (forall u :: u in w.objects ==> w.objects[u].uid == u && w.objects[u] in w.history)
    && (forall x :: x in w.history ==>
          && x.uid in w.objects && w.objects[x.uid].key == x.key && KindFits(x.key, x.spec)
          && (x.spec.Image? ==> x.status.trace == []))
  }

  // ---------------------------------------------------------------- one new version at a time

  /** The object as it is now, before the new version. */
  ghost predicate Current(w: World, o: Object, x: Object) {
    x.uid in w.objects && o == w.objects[x.uid] && o.key == x.key && KindFits(x.key, x.spec)
  }

  ghost predicate Born(w: World, x: Object) {
    x.uid !in w.objects && x.status == INITIAL_STATUS && KindFits(x.key, x.spec)
  }

  ghost predicate Edited(w: World, o: Object, x: Object) {
    Current(w, o, x) && x.status == o.status
  }

  ghost predicate Ran(w: World, o: Object, x: Object) {
    Current(w, o, x) && x.spec == o.spec && Shaped(w.history, o, o.status, x.status)
  }

  ghost predicate Version(w: World, x: Object) {
    Born(w, x) || exists o :: Edited(w, o, x) || Ran(w, o, x)
  }

  /** Restarted conditions and the observed generation do not affect a run's shape. */
  lemma ShapedFromStart(h: set<Object>, o: Object, restart: bool, a: Status, g: nat)
    requires Shaped(h, o, Start(o, restart), a)
    ensures Shaped(h, o, o.status, a.(observedGeneration := g))
  {
    var b, a' := Start(o, restart), a.(observedGeneration := g);
    assert CycleReported(a') ==> CycleReported(a);
    assert CycleReported(b) ==> CycleReported(o.status);
    if Blocked(o.spec, b, a) {
      assert Blocked(o.spec, o.status, a');
    } else if rs: seq<Object>, hit: nat :| Flagged(h, o, b, a, rs, hit) {
      assert Flagged(h, o, o.status, a', rs, hit);
    } else {
      var rs: seq<Object> :| Completed(h, o, b, a, rs);
      assert Completed(h, o, o.status, a', rs);
    }
  }

  /** An action changes nothing or adds one new version. */
  lemma NextVersion(w: World, a: Action) returns (x: Option<Object>)
    requires WellFormed(w) && Enabled(w, a)
    ensures match x
            case None => Apply(w, a) == w
            case Some(v) =>
              && Apply(w, a) == Put(w, v) && Version(w, v)
              && (a.Create? ==> v == a.resource)
              && (a.Edit? ==> v.uid == a.uid && v.spec == a.spec && Edited(w, w.objects[a.uid], v))
              && (a.Reconcile? ==> v.uid == a.uid && Ran(w, w.objects[a.uid], v))
  {
    match a
    case Create(o) =>
      x := Some(o);
    case Edit(u, spec) =>
      x := Some(w.objects[u].(uid := u, spec := spec, generation := w.objects[u].generation + 1));
      assert Edited(w, w.objects[u], x.value);
    case Reconcile(u, env, restart, written) =>
      var o := w.objects[u];
      var r := Run(o, Start(o, restart), env);
      RunShape(w.history, o, Start(o, restart), env);
      x := None;
      if r.Ended? && !r.skip && written {
        x := Some(o.(uid := u, status := r.status.(observedGeneration := o.generation)));
        ShapedFromStart(w.history, o, restart, r.status, o.generation);
        assert Ran(w, o, x.value);
      }
  }

  lemma WellFormedPut(w: World, x: Object)
    requires WellFormed(w) && Version(w, x)
    ensures WellFormed(Put(w, x))
  {
    if o: Object :| Ran(w, o, x) {
      if x.spec.Image? {
        assert o.status.trace == [] && References(o.spec) == [];
      }
    }
  }

  lemma WellFormedInit(w: World)
    requires Init(w)
    ensures WellFormed(w)
  {}

  // ---------------------------------------------------------------- the invariants

  /** Traces only show references that were made at some time. */
  ghost predicate GroundedWorld(w: World) {
    forall x :: x in w.history ==> Grounded(EverEdges(w.history), x.uid, x.status.trace)
  }

  /** Traces do not repeat a resource, the owner included. */
  ghost predicate DistinctWorld(w: World) {
    forall x :: x in w.history ==> Distinct({x.uid}, x.status.trace)
  }

  ghost predicate ReportedWorld(w: World) {
    forall x :: x in w.history && CycleReported(x.status) ==> OnCycle(EverEdges(w.history), x.uid)
  }

  predicate ComponentKind(key: Key) { key.kind == "Component" || key.kind == "ClusterComponent" }

  /** The span carries the digest, and so does the span below it as long as copies are copied. */
  predicate SameDigest(digest: string, s: Span) {
    s.digest == digest && (ComponentKind(s.key) && s.trace != [] ==> SameDigest(digest, s.trace[0]))
  }

  /** A copied component's image is the image of what it was copied from. */
  ghost predicate Conserved(x: Object) {
    x.spec.Component? && Done(x.spec, x.status) && x.status.trace != [] ==>
      && |x.status.trace| == 1 && x.status.image.Digested?
      && SameDigest(x.status.image.digest, x.status.trace[0])
  }

  ghost predicate ConservedWorld(w: World) {
    forall x :: x in w.history ==> Conserved(x)
  }

  ghost predicate Safe(w: World) {
    WellFormed(w) && GroundedWorld(w) && DistinctWorld(w) && ReportedWorld(w) && ConservedWorld(w)
  }

  // ---------------------------------------------------------------- preservation

  lemma SpansGrounded(w: World, o: Object, rs: seq<Object>)
    requires GroundedWorld(w) && o in w.history && ReadsOf(w.history, o.spec, rs)
    ensures Grounded(EverEdges(w.history), o.uid, SpansOf(rs))
  {
    forall i | 0 <= i < |rs| ensures (o.uid, rs[i].uid) in EverEdges(w.history) {
      assert o in w.history && rs[i] in w.history && rs[i].key in References(o.spec);
    }
  }

  lemma CompletedReads(h: set<Object>, o: Object, b: Status, a: Status, rs: seq<Object>)
    requires Completed(h, o, b, a, rs)
    ensures ReadsOf(h, o.spec, rs)
  {}

  lemma EdgesGrow(h: set<Object>, x: Object)
    ensures EverEdges(h) <= EverEdges(h + {x})
  {}

  lemma GroundedPut(w: World, x: Object)
    requires WellFormed(w) && GroundedWorld(w) && Version(w, x)
    ensures GroundedWorld(Put(w, x))
  {
    var e, e' := EverEdges(w.history), EverEdges(Put(w, x).history);
    EdgesGrow(w.history, x);
    if o: Object :| Ran(w, o, x) {
      if rs: seq<Object>, hit: nat :| Flagged(w.history, o, o.status, x.status, rs, hit) {
        SpansGrounded(w, o, rs);
        GroundedPrune(e, x.uid, SpansOf(rs), x.uid);
      } else if rs: seq<Object> :| Completed(w.history, o, o.status, x.status, rs) {
        CompletedReads(w.history, o, o.status, x.status, rs);
        SpansGrounded(w, o, rs);
      }
    }
    assert Grounded(e, x.uid, x.status.trace);
    forall y | y in Put(w, x).history ensures Grounded(e', y.uid, y.status.trace) {
      GroundedMore(e, e', y.uid, y.status.trace);
    }
  }

  lemma SpansDistinct(w: World, rs: seq<Object>, self: Uid)
    requires DistinctWorld(w) && forall i :: 0 <= i < |rs| ==> rs[i] in w.history
    ensures Distinct({}, SpansOf(rs))
  {
    forall i | 0 <= i < |rs| ensures Distinct({} + {rs[i].uid}, rs[i].status.trace) {
      assert {} + {rs[i].uid} == {rs[i].uid};
    }
  }

  lemma DistinctPut(w: World, x: Object)
    requires WellFormed(w) && DistinctWorld(w) && Version(w, x)
    ensures DistinctWorld(Put(w, x))
  {
    if o: Object :| Ran(w, o, x) {
      if rs: seq<Object>, hit: nat :| Flagged(w.history, o, o.status, x.status, rs, hit) {
        SpansDistinct(w, rs, x.uid);
        DistinctPrune({}, SpansOf(rs), x.uid);
        assert {} + {x.uid} == {x.uid};
      } else if rs: seq<Object> :| Completed(w.history, o, o.status, x.status, rs) {
        SpansDistinct(w, rs, x.uid);
        DistinctPrune({}, SpansOf(rs), x.uid);
        PruneAbsent(SpansOf(rs), x.uid);
        assert {} + {x.uid} == {x.uid};
      }
    }
  }

  /** A flagged resource refers to itself through references that were really made. */
  lemma FlaggedCycle(w: World, o: Object, b: Status, a: Status, rs: seq<Object>, hit: nat)
    requires GroundedWorld(w) && o in w.history && Flagged(w.history, o, b, a, rs, hit)
    ensures OnCycle(EverEdges(w.history), o.uid)
  {
    SpansGrounded(w, o, rs);
    assert OccursIn(SpansOf(rs)[hit], o.uid);
    var p := GroundedWalk(EverEdges(w.history), o.uid, SpansOf(rs), o.uid);
  }

  lemma CycleMore(e: Edges, more: Edges, u: Uid)
    requires OnCycle(e, u) && e <= more
    ensures OnCycle(more, u)
  {
    var p :| WalkFrom(e, u, u, p);
    assert WalkFrom(more, u, u, p);
  }

  lemma ReportedPut(w: World, x: Object)
    requires WellFormed(w) && GroundedWorld(w) && ReportedWorld(w) && Version(w, x)
    ensures ReportedWorld(Put(w, x))
  {
    EdgesGrow(w.history, x);
    if o: Object :| Ran(w, o, x) {
      if rs: seq<Object>, hit: nat :| Flagged(w.history, o, o.status, x.status, rs, hit) {
        FlaggedCycle(w, o, o.status, x.status, rs, hit);
      }
    }
    assert CycleReported(x.status) ==> OnCycle(EverEdges(w.history), x.uid);
    forall y | y in Put(w, x).history && CycleReported(y.status) ensures OnCycle(EverEdges(Put(w, x).history), y.uid) {
      CycleMore(EverEdges(w.history), EverEdges(Put(w, x).history), y.uid);
    }
  }

  lemma ConservedPut(w: World, x: Object)
    requires WellFormed(w) && ConservedWorld(w) && Version(w, x)
    ensures ConservedWorld(Put(w, x))
  {
    if o: Object :| Ran(w, o, x) {
      assert Conserved(o);
      if x.spec.Component? {
        if rs: seq<Object> :| Completed(w.history, o, o.status, x.status, rs) {
          if rs != [] {
            var c := rs[0];
            assert Conserved(c);
            assert ComponentKind(c.key) ==> c.spec.Component?;
            assert SameDigest(x.status.image.digest, SpanOf(c));
          }
        }
      }
    } else if o: Object :| Edited(w, o, x) {
      assert Conserved(o);
    }
  }

  lemma SafePut(w: World, x: Object)
    requires Safe(w) && Version(w, x)
    ensures Safe(Put(w, x))
  {
    WellFormedPut(w, x);
    GroundedPut(w, x);
    DistinctPut(w, x);
    ReportedPut(w, x);
    ConservedPut(w, x);
  }

  lemma {:induction false} AlwaysSafe(w0: World, acts: seq<Action>)
    requires Init(w0) && Legal(w0, acts)
    ensures Safe(Exec(w0, acts))
    decreases |acts|
  {
    if acts == [] {
      WellFormedInit(w0);
      assert Safe(w0);
    } else {
      var before := Exec(w0, acts[..|acts| - 1]);
      AlwaysSafe(w0, acts[..|acts| - 1]);
      var x := NextVersion(before, acts[|acts| - 1]);
      if x.Some? {
        SafePut(before, x.value);
      }
    }
  }

  // ---------------------------------------------------------------- stale reads

  /** Versions are never forgotten. */
  lemma {:induction false} HistoryKept(w0: World, acts: seq<Action>, n: nat)
    requires Init(w0) && Legal(w0, acts) && n <= |acts| && Legal(w0, acts[..n])
    ensures Exec(w0, acts[..n]).history <= Exec(w0, acts).history
    decreases |acts|
  {
    if n == |acts| {
      assert acts[..n] == acts;
    } else {
      var prior := acts[..|acts| - 1];
      assert prior[..n] == acts[..n];
      HistoryKept(w0, prior, n);
      AlwaysSafe(w0, prior);
      var x := NextVersion(Exec(w0, prior), acts[|acts| - 1]);
    }
  }

  /** However long ago a version was published, a component's run may still read it. */
  lemma AnyVersionCanBeRead(w0: World, acts: seq<Action>, n: nat, u: Uid, c: Object, env: Env, restart: bool, written: bool)
    requires Init(w0) && Legal(w0, acts) && n <= |acts| && Legal(w0, acts[..n])
    requires c in Exec(w0, acts[..n]).history && !c.spec.Image? && u in Exec(w0, acts).objects
    requires var spec := Exec(w0, acts).objects[u].spec; spec.Component? && spec.ref == Some(c.key)
    requires env.ComponentEnv? && env.read == Got(c)
    ensures Enabled(Exec(w0, acts), Reconcile(u, env, restart, written))
  {
    HistoryKept(w0, acts, n);
  }

  // ---------------------------------------------------------------- observed generations

  /** No status claims to be of a generation that is yet to come. */
  ghost predicate ObservedWorld(w: World) {
    forall x :: x in w.history ==> x.status.observedGeneration <= x.generation
  }

  lemma {:induction false} AlwaysObserved(w0: World, acts: seq<Action>)
    requires Init(w0) && Legal(w0, acts)
    ensures ObservedWorld(Exec(w0, acts))
    decreases |acts|
  {
    if acts != [] {
      AlwaysObserved(w0, acts[..|acts| - 1]);
      AlwaysSafe(w0, acts[..|acts| - 1]);
      ObservedStep(Exec(w0, acts[..|acts| - 1]), acts[|acts| - 1]);
    }
  }

  lemma ObservedStep(w: World, a: Action)
    requires WellFormed(w) && ObservedWorld(w) && Enabled(w, a)
    ensures ObservedWorld(Apply(w, a))
  {
    if a.Edit? {
      assert w.objects[a.uid] in w.history;
    }
  }

  // ---------------------------------------------------------------- main theorems

  /**
   Going down any path of a published trace from its owner, a UID can only repeat at
   the very end of the path, in a leaf marked omitted.
   */
  lemma TracePathsDistinct(w0: World, acts: seq<Action>, u: Uid, path: seq<nat>, i: nat, j: nat)
    requires Init(w0) && Legal(w0, acts) && u in Exec(w0, acts).objects
    requires At(Exec(w0, acts).objects[u].status.trace, path).Some?
    requires var us := [u] + UidsTo(Exec(w0, acts).objects[u].status.trace, path);
             i < j < |us| && us[i] == us[j]
    ensures var trace := Exec(w0, acts).objects[u].status.trace;
            && j == |UidsTo(trace, path)|
            && At(trace, path).value.cycleOmitted && At(trace, path).value.trace == []
  {
    AlwaysSafe(w0, acts);
    var trace := Exec(w0, acts).objects[u].status.trace;
    RepeatsAtTheEnd(u, trace, path, i, j);
  }

  lemma RepeatsAtTheEnd(u: Uid, trace: seq<Span>, path: seq<nat>, i: nat, j: nat)
    requires Distinct({u}, trace) && At(trace, path).Some?
    requires var us := [u] + UidsTo(trace, path); i < j < |us| && us[i] == us[j]
    ensures j == |UidsTo(trace, path)| && At(trace, path).value.cycleOmitted && At(trace, path).value.trace == []
  {
    var us := UidsTo(trace, path);
    assert forall k :: 0 < k < |[u] + us| ==> ([u] + us)[k] == us[k - 1];
    DistinctPath({u}, trace, path, j - 1);
  }

  lemma {:induction false} GroundedWithin(h: set<Object>, u: Uid, f: seq<Span>, all: set<Uid>)
    requires Grounded(EverEdges(h), u, f) && forall x :: x in h ==> x.uid in all
    ensures Within(f, all)
    decreases f
  {
    forall i | 0 <= i < |f| ensures f[i].uid in all && Within(f[i].trace, all) {
      assert (u, f[i].uid) in EverEdges(h);
      GroundedWithin(h, f[i].uid, f[i].trace, all);
    }
  }

  /** A published trace is never deeper than there are resources, even inside reference cycles. */
  lemma TraceDepthBounded(w0: World, acts: seq<Action>, u: Uid)
    requires Init(w0) && Legal(w0, acts) && u in Exec(w0, acts).objects
    ensures Depth(Exec(w0, acts).objects[u].status.trace) <= |Exec(w0, acts).objects|
  {
    AlwaysSafe(w0, acts);
    var w := Exec(w0, acts);
    var trace := w.objects[u].status.trace;
    GroundedWithin(w.history, u, trace, w.objects.Keys);
    DistinctDepth({u}, trace, w.objects.Keys);
  }

  /** No false alarms: a reported cycle is a chain of references each of which was in some spec. */
  lemma ReportedCycleIsReal(w0: World, acts: seq<Action>, u: Uid)
    requires Init(w0) && Legal(w0, acts) && u in Exec(w0, acts).objects
    requires CycleReported(Exec(w0, acts).objects[u].status)
    ensures OnCycle(EverEdges(Exec(w0, acts).history), u)
  {
    AlwaysSafe(w0, acts);
  }

  /** A ready component that copies another has the digest of everything down the chain of copies. */
  lemma DigestConserved(w0: World, acts: seq<Action>, u: Uid)
    requires Init(w0) && Legal(w0, acts) && u in Exec(w0, acts).objects
    requires var o := Exec(w0, acts).objects[u]; o.spec.Component? && Ready(o) && o.status.trace != []
    ensures var s := Exec(w0, acts).objects[u].status;
            |s.trace| == 1 && s.image.Digested? && SameDigest(s.image.digest, s.trace[0])
  {
    AlwaysSafe(w0, acts);
    assert Conserved(Exec(w0, acts).objects[u]);
  }
}
