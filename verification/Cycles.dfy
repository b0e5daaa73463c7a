/**
 Reference cycles: with fixed specs readiness means an acyclic reference graph and an
 exact trace, and a cycle closed by an edit stops the edited resource from publishing.
 */
module Cycles {
  import opened Base
  import opened Spans
  import opened Resources
  import opened Runs
  import opened Protocol
  import opened Shapes
  import opened Graph
  import opened Safety

  /** The references in the current specs. */
  ghost function RefEdges(w: World): Edges {
    set u, v | u in w.objects && v in w.objects && w.objects[v].key in References(w.objects[u].spec) :: (u, v)
  }

  /** No resource was ever deleted and recreated under the same name. */
  ghost predicate KeysUnique(w: World) {
    forall u, v :: u in w.objects && v in w.objects && w.objects[u].key == w.objects[v].key ==> u == v
  }

  /** Only the given resources' specs are edited; resources are created and reconciled at any time. */
  ghost predicate OnlyEdits(acts: seq<Action>, edited: set<Uid>) {
    forall i :: 0 <= i < |acts| && acts[i].Edit? ==> acts[i].uid in edited
  }

  /** Every version of every other resource has the spec it has now. */
  ghost predicate SpecsKept(w: World, edited: set<Uid>) {
    WellFormed(w) && forall x :: x in w.history && x.uid !in edited ==> x.spec == w.objects[x.uid].spec
  }

  /** A resource that completed a run has no reference cycle below it, up to edited resources. */
  ghost predicate AllAcyclic(e: Edges, edited: set<Uid>, h: set<Object>) {
    forall x :: x in h && x.uid !in edited && Done(x.spec, x.status) ==> Acyclic(e, edited, x.uid)
  }

  /** A world on the way to the last one, judged by the references of the last one. */
  ghost predicate Settled(last: World, w: World, edited: set<Uid>) {
    && SpecsKept(last, edited) && KeysUnique(last)
    && WellFormed(w) && GroundedWorld(w) && w.history <= last.history
    && AllAcyclic(RefEdges(last), edited, w.history)
  }

  lemma AllAcyclicMore(e: Edges, edited: set<Uid>, h: set<Object>, x: Object)
    requires AllAcyclic(e, edited, h)
    requires x.uid !in edited && Done(x.spec, x.status) ==> Acyclic(e, edited, x.uid)
    ensures AllAcyclic(e, edited, h + {x})
  {}

  // ---------------------------------------------------------------- steps

  /** A version that may come next when only the given resources are edited. */
  ghost predicate Next(w: World, x: Object, edited: set<Uid>) {
    || Born(w, x)
    || (x.uid in w.objects && Ran(w, w.objects[x.uid], x))
    || (x.uid in w.objects && Edited(w, w.objects[x.uid], x) && x.uid in edited)
  }

  lemma NextStep(w: World, a: Action, edited: set<Uid>) returns (x: Option<Object>)
    requires WellFormed(w) && Enabled(w, a) && (a.Edit? ==> a.uid in edited)
    ensures match x
            case None => Apply(w, a) == w
            case Some(v) => Apply(w, a) == Put(w, v) && Next(w, v, edited)
  {
    x := NextVersion(w, a);
  }

  lemma SpecsKeptPut(w: World, x: Object, edited: set<Uid>)
    requires SpecsKept(w, edited) && Next(w, x, edited)
    ensures SpecsKept(Put(w, x), edited)
  {
    assert Version(w, x);
    WellFormedPut(w, x);
  }

  lemma {:induction false} AlwaysSpecsKept(w0: World, acts: seq<Action>, edited: set<Uid>)
    requires Init(w0) && Legal(w0, acts) && OnlyEdits(acts, edited)
    ensures SpecsKept(Exec(w0, acts), edited)
    decreases |acts|
  {
    if acts == [] {
      WellFormedInit(w0);
    } else {
      var before := Exec(w0, acts[..|acts| - 1]);
      AlwaysSpecsKept(w0, acts[..|acts| - 1], edited);
      var x := NextStep(before, acts[|acts| - 1], edited);
      if x.Some? {
        SpecsKeptPut(before, x.value, edited);
      }
    }
  }

  // ---------------------------------------------------------------- reads and edges

  /** What is read for a reference is the resource that has that name. */
  lemma ReadOfEdge(last: World, w: World, edited: set<Uid>, o: Object, rs: seq<Object>, v: Uid) returns (i: nat)
    requires Settled(last, w, edited) && o in w.history && o.uid !in edited
    requires |rs| == |References(o.spec)|
    requires forall k :: 0 <= k < |rs| ==> rs[k] in w.history && rs[k].key == References(o.spec)[k]
    requires (o.uid, v) in RefEdges(last)
    ensures i < |rs| && rs[i].uid == v
  {
    assert last.objects[v].key in References(o.spec);
    i :| i < |rs| && References(o.spec)[i] == last.objects[v].key;
    assert last.objects[rs[i].uid].key == last.objects[v].key;
  }

  /** References ever made by resources outside the edited set are the first references. */
  lemma EverIsRef(last: World, w: World, edited: set<Uid>, u: Uid, v: Uid)
    requires Settled(last, w, edited) && (u, v) in EverEdges(w.history) && u !in edited
    ensures (u, v) in RefEdges(last)
  {
    var a, b :| a in w.history && b in w.history && b.key in References(a.spec) && (u, v) == (a.uid, b.uid);
    assert last.objects[b.uid].key == b.key;
  }

  lemma EverWalkIsRefWalk(last: World, w: World, edited: set<Uid>, p: seq<Uid>)
    requires Settled(last, w, edited) && Walk(EverEdges(w.history), p) && Avoids(p, edited)
    ensures Walk(RefEdges(last), p)
  {
    forall i | 0 <= i < |p| - 1 ensures (p[i], p[i + 1]) in RefEdges(last) {
      EverIsRef(last, w, edited, p[i], p[i + 1]);
    }
  }

  lemma CompletedAcyclic(last: World, w: World, edited: set<Uid>, o: Object, a: Status, rs: seq<Object>)
    requires Settled(last, w, edited) && o in w.history && o.uid !in edited
    requires Completed(w.history, o, o.status, a, rs)
    ensures Acyclic(RefEdges(last), edited, o.uid)
  {
    var e := RefEdges(last);
    var us := seq(|rs|, i requires 0 <= i < |rs| => rs[i].uid);
    forall i | 0 <= i < |us| ensures Acyclic(e, edited, us[i]) {
      if us[i] in edited {
        assert Bounded(e, edited, us[i], 0);
      }
    }
    var n := CommonBound(e, edited, us);
    forall v | (o.uid, v) in e ensures Bounded(e, edited, v, n) {
      var i := ReadOfEdge(last, w, edited, o, rs, v);
      assert us[i] == v;
    }
    assert Bounded(e, edited, o.uid, n + 1);
  }

  lemma SettledVersion(last: World, w: World, edited: set<Uid>, x: Object)
    requires Settled(last, w, edited) && x.uid in w.objects && x.uid !in edited
    requires Ran(w, w.objects[x.uid], x) && Done(x.spec, x.status)
    ensures Acyclic(RefEdges(last), edited, x.uid)
  {
    var o := w.objects[x.uid];
    if rs: seq<Object> :| Completed(w.history, o, o.status, x.status, rs) {
      CompletedAcyclic(last, w, edited, o, x.status, rs);
    } else {
      assert Done(o.spec, o.status);
    }
  }

  lemma SettledPut(last: World, w: World, edited: set<Uid>, x: Object)
    requires Settled(last, w, edited) && Next(w, x, edited) && x in last.history
    ensures Settled(last, Put(w, x), edited)
  {
    assert Version(w, x);
    WellFormedPut(w, x);
    GroundedPut(w, x);
    assert x.uid !in edited && Done(x.spec, x.status) ==> Acyclic(RefEdges(last), edited, x.uid) by {
      if x.uid !in edited && Done(x.spec, x.status) {
        assert !Born(w, x);
        SettledVersion(last, w, edited, x);
      }
    }
    AllAcyclicMore(RefEdges(last), edited, w.history, x);
  }

  lemma SettledInit(last: World, w0: World, edited: set<Uid>)
    requires Init(w0) && SpecsKept(last, edited) && KeysUnique(last) && w0.history <= last.history
    ensures Settled(last, w0, edited)
  {
    AlwaysSafe(w0, []);
    assert Exec(w0, []) == w0;
  }

  // ---------------------------------------------------------------- fixed specs

  /** The trace is the tree unfolding of the references below u: same names, same order, nothing omitted. */
  ghost predicate Unfolds(w: World, u: Uid, f: seq<Span>)
    decreases f
  {
    && u in w.objects && |f| == |References(w.objects[u].spec)|
    && forall i :: 0 <= i < |f| ==>
         && f[i].key == References(w.objects[u].spec)[i] && !f[i].cycleOmitted
         && f[i].uid in w.objects && w.objects[f[i].uid].key == f[i].key
         && Unfolds(w, f[i].uid, f[i].trace)
  }

  /** Every resource in the trace, other than its owner, has no reference cycle below it. */
  ghost predicate Tame(e: Edges, x: Object) {
    forall v :: v != x.uid && Occurs(x.status.trace, v) ==> Acyclic(e, {}, v)
  }

  ghost predicate FixedVersion(last: World, x: Object) {
    && (Done(x.spec, x.status) ==> Unfolds(last, x.uid, x.status.trace))
    && Tame(RefEdges(last), x)
    && (CycleReported(x.status) ==> (x.uid, x.uid) in RefEdges(last))
  }

  ghost predicate AllFixed(last: World, h: set<Object>) {
    forall x :: x in h ==> FixedVersion(last, x)
  }

  ghost predicate Fixed(last: World, w: World) {
    Settled(last, w, {}) && AllFixed(last, w.history)
  }

  lemma AllFixedMore(last: World, h: set<Object>, x: Object)
    requires AllFixed(last, h) && FixedVersion(last, x)
    ensures AllFixed(last, h + {x})
  {}

  /** With fixed specs a cycle shown by a trace is a cycle in the specs, so its resource is not acyclic. */
  lemma NoCycleWhenAcyclic(last: World, w: World, u: Uid)
    requires Settled(last, w, {}) && Acyclic(RefEdges(last), {}, u) && OnCycle(EverEdges(w.history), u)
    ensures false
  {
    var p :| WalkFrom(EverEdges(w.history), u, u, p);
    EverWalkIsRefWalk(last, w, {}, p);
    var n: nat :| Bounded(RefEdges(last), {}, u, n);
    BoundedNoCycle(RefEdges(last), {}, u, n, p);
  }

  lemma ReadyReadsTame(last: World, w: World, rs: seq<Object>, i: nat, v: Uid)
    requires Fixed(last, w) && i < |rs| && rs[i] in w.history && (Ready(rs[i]) || rs[i].spec.Image?)
    requires OccursIn(SpanOf(rs[i]), v)
    ensures Acyclic(RefEdges(last), {}, v)
  {
    assert FixedVersion(last, rs[i]);
    if rs[i].spec.Image? {
      assert rs[i].status.trace == [];
      assert References(last.objects[v].spec) == [];
      assert Bounded(RefEdges(last), {}, v, 1);
    }
  }

  lemma CompletedTame(last: World, w: World, o: Object, x: Object, rs: seq<Object>)
    requires Fixed(last, w) && Completed(w.history, o, o.status, x.status, rs)
    ensures Tame(RefEdges(last), x)
  {
    forall v | Occurs(x.status.trace, v) ensures Acyclic(RefEdges(last), {}, v) {
      var i :| 0 <= i < |rs| && OccursIn(SpansOf(rs)[i], v);
      ReadyReadsTame(last, w, rs, i, v);
    }
  }

  lemma CompletedUnfolds(last: World, w: World, o: Object, x: Object, rs: seq<Object>)
    requires Fixed(last, w) && o in w.history && Current(w, o, x) && x.spec == o.spec
    requires Completed(w.history, o, o.status, x.status, rs)
    ensures Unfolds(last, x.uid, x.status.trace)
  {
    var f := x.status.trace;
    assert last.objects[x.uid].spec == o.spec;
    forall i | 0 <= i < |f|
      ensures f[i].key == References(o.spec)[i] && !f[i].cycleOmitted
      ensures f[i].uid in last.objects && last.objects[f[i].uid].key == f[i].key && Unfolds(last, f[i].uid, f[i].trace)
    {
      assert f[i] == SpanOf(rs[i]) && FixedVersion(last, rs[i]);
    }
  }

  lemma FixedCompleted(last: World, w: World, o: Object, x: Object, rs: seq<Object>)
    requires Fixed(last, w) && o in w.history && Current(w, o, x) && x.spec == o.spec
    requires Completed(w.history, o, o.status, x.status, rs)
    ensures FixedVersion(last, x)
  {
    CompletedTame(last, w, o, x, rs);
    CompletedUnfolds(last, w, o, x, rs);
    assert FixedVersion(last, o);
  }

  /** With fixed specs a reading in which the resource occurs is a reading of the resource itself: others would be acyclic. */
  lemma SelfOccursIsSelf(last: World, w: World, o: Object, c: Object)
    requires Fixed(last, w) && o in w.history && c in w.history && c.key in References(o.spec)
    requires OccursIn(SpanOf(c), o.uid)
    ensures c.uid == o.uid && c.key == o.key && (o.uid, o.uid) in RefEdges(last) && !Done(o.spec, o.status)
  {
    var rs := [c];
    assert SpansOf(rs)[0] == SpanOf(c) && Occurs(SpansOf(rs), o.uid);
    SpansGrounded(w, o, rs);
    var p := GroundedWalk(EverEdges(w.history), o.uid, SpansOf(rs), o.uid);
    assert FixedVersion(last, c);
    if Done(o.spec, o.status) || c.uid != o.uid {
      NoCycleWhenAcyclic(last, w, o.uid);
    }
    assert (o.uid, o.uid) in EverEdges(w.history);
    EverIsRef(last, w, {}, o.uid, o.uid);
    assert last.objects[o.uid].key == o.key && last.objects[o.uid].key == c.key;
  }

  /** A resource is only flagged on reading a resource that is itself. */
  lemma FlaggedIsSelf(last: World, w: World, o: Object, a: Status, rs: seq<Object>, hit: nat)
    requires Fixed(last, w) && o in w.history && Flagged(w.history, o, o.status, a, rs, hit)
    ensures rs[hit].uid == o.uid && (o.uid, o.uid) in RefEdges(last) && !rs[hit].spec.Image?
    ensures !Done(o.spec, o.status)
  {
    SelfOccursIsSelf(last, w, o, rs[hit]);
    assert rs[hit].key == o.key && References(o.spec) != [];
  }

  lemma {:induction false} OccursInPruned(s: Span, u: Uid, v: Uid)
    requires OccursIn(PruneSpan(s, u), v)
    ensures OccursIn(s, v) && (s.uid == u ==> v == u)
  {
    if s.uid != u && s.uid != v {
      var pruned := Prune(s.trace, u);
      assert PruneSpan(s, u).trace == pruned;
      assert Occurs(pruned, v);
      var i :| 0 <= i < |pruned| && OccursIn(pruned[i], v);
      assert pruned[i] == PruneSpan(s.trace[i], u);
      OccursInPruned(s.trace[i], u, v);
    }
  }

  /** Every read was ready, of an image, or of the resource itself. */
  ghost predicate ReadyOrSelf(w: World, rs: seq<Object>, u: Uid) {
    forall i :: 0 <= i < |rs| ==> rs[i] in w.history && (Ready(rs[i]) || rs[i].spec.Image? || rs[i].uid == u)
  }

  lemma FlaggedReads(w: World, o: Object, a: Status, rs: seq<Object>, hit: nat)
    requires Flagged(w.history, o, o.status, a, rs, hit)
    requires rs[hit].uid == o.uid && !rs[hit].spec.Image?
    ensures ReadyOrSelf(w, rs, o.uid) && a.trace == Prune(SpansOf(rs), o.uid)
  {}

  lemma PrunedReadTame(last: World, w: World, rs: seq<Object>, u: Uid, v: Uid)
    requires Fixed(last, w) && v != u && Occurs(Prune(SpansOf(rs), u), v) && ReadyOrSelf(w, rs, u)
    ensures Acyclic(RefEdges(last), {}, v)
  {
    var i :| 0 <= i < |rs| && OccursIn(Prune(SpansOf(rs), u)[i], v);
    OccursInPruned(SpanOf(rs[i]), u, v);
    ReadyReadsTame(last, w, rs, i, v);
  }

  lemma FlaggedTame(last: World, w: World, o: Object, x: Object, rs: seq<Object>, hit: nat)
    requires Fixed(last, w) && Flagged(w.history, o, o.status, x.status, rs, hit)
    requires o.uid == x.uid && rs[hit].uid == o.uid && !rs[hit].spec.Image?
    ensures Tame(RefEdges(last), x)
  {
    FlaggedReads(w, o, x.status, rs, hit);
    forall v | v != x.uid && Occurs(x.status.trace, v) ensures Acyclic(RefEdges(last), {}, v) {
      PrunedReadTame(last, w, rs, x.uid, v);
    }
  }

  lemma FixedFlagged(last: World, w: World, o: Object, x: Object, rs: seq<Object>, hit: nat)
    requires Fixed(last, w) && o in w.history && Current(w, o, x) && x.spec == o.spec
    requires Flagged(w.history, o, o.status, x.status, rs, hit)
    ensures FixedVersion(last, x)
  {
    FlaggedIsSelf(last, w, o, x.status, rs, hit);
    FlaggedTame(last, w, o, x, rs, hit);
  }

  lemma FixedRan(last: World, w: World, x: Object)
    requires Fixed(last, w) && x.uid in w.objects && Ran(w, w.objects[x.uid], x)
    ensures FixedVersion(last, x)
  {
    var o := w.objects[x.uid];
    assert FixedVersion(last, o);
    if rs: seq<Object>, hit: nat :| Flagged(w.history, o, o.status, x.status, rs, hit) {
      FixedFlagged(last, w, o, x, rs, hit);
    } else if rs: seq<Object> :| Completed(w.history, o, o.status, x.status, rs) {
      FixedCompleted(last, w, o, x, rs);
    } else {
      assert Blocked(o.spec, o.status, x.status);
    }
  }

  lemma FixedPut(last: World, w: World, x: Object)
    requires Fixed(last, w) && Next(w, x, {}) && x in last.history
    ensures Fixed(last, Put(w, x))
  {
    SettledPut(last, w, {}, x);
    if !Born(w, x) {
      FixedRan(last, w, x);
    }
    AllFixedMore(last, w.history, x);
  }

  lemma {:induction false} AlwaysFixedUpTo(last: World, w0: World, acts: seq<Action>)
    requires SpecsKept(last, {}) && KeysUnique(last)
    requires Init(w0) && Legal(w0, acts) && OnlyEdits(acts, {}) && Exec(w0, acts).history <= last.history
    ensures Fixed(last, Exec(w0, acts))
    decreases |acts|
  {
    if acts == [] {
      SettledInit(last, w0, {});
    } else {
      var before := Exec(w0, acts[..|acts| - 1]);
      AlwaysSafe(w0, acts[..|acts| - 1]);
      var x := NextStep(before, acts[|acts| - 1], {});
      AlwaysFixedUpTo(last, w0, acts[..|acts| - 1]);
      if x.Some? {
        FixedPut(last, before, x.value);
      }
    }
  }

  /** With fixed specs every world is fixed by its own references. */
  lemma AlwaysFixed(w0: World, acts: seq<Action>)
    requires Init(w0) && Legal(w0, acts) && OnlyEdits(acts, {}) && KeysUnique(Exec(w0, acts))
    ensures Fixed(Exec(w0, acts), Exec(w0, acts))
  {
    AlwaysSpecsKept(w0, acts, {});
    AlwaysFixedUpTo(Exec(w0, acts), w0, acts);
  }

  /**
   With fixed specs, a ready resource has no reference cycle anywhere below it and its
   published trace is exactly the tree unfolding of the references.
   */
  lemma ReadyIsUnfolding(w0: World, acts: seq<Action>, u: Uid)
    requires Init(w0) && Legal(w0, acts) && OnlyEdits(acts, {}) && KeysUnique(Exec(w0, acts))
    requires u in Exec(w0, acts).objects && Ready(Exec(w0, acts).objects[u])
    ensures Unfolds(Exec(w0, acts), u, Exec(w0, acts).objects[u].status.trace)
    ensures forall p :: Walk(RefEdges(Exec(w0, acts)), p) && p[0] == u ==> !OnCycle(RefEdges(Exec(w0, acts)), p[|p| - 1])
  {
    var w := Exec(w0, acts);
    AlwaysFixed(w0, acts);
    assert FixedVersion(w, w.objects[u]);
    var e := RefEdges(w);
    var n: nat :| Bounded(e, {}, u, n);
    forall p | Walk(e, p) && p[0] == u ensures !OnCycle(e, p[|p| - 1]) {
      BoundedBelow(e, u, n, p);
      var k: nat :| Bounded(e, {}, p[|p| - 1], k);
      if OnCycle(e, p[|p| - 1]) {
        var q :| WalkFrom(e, p[|p| - 1], p[|p| - 1], q);
        BoundedNoCycle(e, {}, p[|p| - 1], k, q);
      }
    }
  }

  /** With fixed specs a reported cycle is one in the present specs, and the shortest there is: a reference to itself. */
  lemma ReportedReferencesItself(w0: World, acts: seq<Action>, u: Uid)
    requires Init(w0) && Legal(w0, acts) && OnlyEdits(acts, {}) && KeysUnique(Exec(w0, acts))
    requires u in Exec(w0, acts).objects && CycleReported(Exec(w0, acts).objects[u].status)
    ensures (u, u) in RefEdges(Exec(w0, acts))
  {
    AlwaysFixed(w0, acts);
    assert FixedVersion(Exec(w0, acts), Exec(w0, acts).objects[u]);
  }

  /**
   The limit of detection: with fixed specs the members of a cycle never become ready,
   and unless they reference themselves directly they never report it.
   */
  lemma LongCyclesAreSilent(w0: World, acts: seq<Action>, u: Uid)
    requires Init(w0) && Legal(w0, acts) && OnlyEdits(acts, {}) && KeysUnique(Exec(w0, acts))
    requires u in Exec(w0, acts).objects && OnCycle(RefEdges(Exec(w0, acts)), u)
    ensures !Ready(Exec(w0, acts).objects[u])
    ensures (u, u) !in RefEdges(Exec(w0, acts)) ==> !CycleReported(Exec(w0, acts).objects[u].status)
  {
    var w := Exec(w0, acts);
    assert Walk(RefEdges(w), [u]) && [u][|[u]| - 1] == u;
    if Ready(w.objects[u]) {
      ReadyIsUnfolding(w0, acts, u);
    }
    if CycleReported(w.objects[u].status) {
      ReportedReferencesItself(w0, acts, u);
    }
  }

  // ---------------------------------------------------------------- one edited resource

  /** A chain of references leads from u to r and meets r only at its end. */
  ghost predicate Leads(e: Edges, u: Uid, r: Uid) {
    exists p :: WalkFrom(e, u, r, p) && Avoids(p, {r})
  }

  /** Whoever references r, directly or not, and completed a run, has r in its trace. */
  ghost predicate Shows(e: Edges, r: Uid, x: Object) {
    x.uid != r && Done(x.spec, x.status) && Leads(e, x.uid, r) ==> Occurs(x.status.trace, r)
  }

  ghost predicate AllShow(e: Edges, r: Uid, h: set<Object>) {
    forall x :: x in h ==> Shows(e, r, x)
  }

  ghost predicate Watched(last: World, w: World, r: Uid) {
    Settled(last, w, {r}) && AllShow(RefEdges(last), r, w.history)
  }

  lemma AllShowMore(e: Edges, r: Uid, h: set<Object>, x: Object)
    requires AllShow(e, r, h) && Shows(e, r, x)
    ensures AllShow(e, r, h + {x})
  {}

  /** Reading every reference ready means reading r on the way to r. */
  lemma GatheredMeets(last: World, w: World, r: Uid, rs: seq<Object>, i: nat)
    requires Watched(last, w, r) && i < |rs| && rs[i] in w.history && Ready(rs[i])
    requires rs[i].uid == r || Leads(RefEdges(last), rs[i].uid, r)
    ensures Occurs(SpansOf(rs), r)
  {
    assert Shows(RefEdges(last), r, rs[i]);
    assert OccursIn(SpansOf(rs)[i], r);
  }

  /** The first step of a chain to r is r or leads there. */
  lemma LeadsOn(e: Edges, u: Uid, r: Uid) returns (v: Uid)
    requires Leads(e, u, r)
    ensures (u, v) in e && (v == r || Leads(e, v, r))
  {
    var p :| WalkFrom(e, u, r, p) && Avoids(p, {r});
    v := p[1];
    assert (p[0], p[1]) in e;
    if v != r {
      assert WalkFrom(e, v, r, p[1..]) && Avoids(p[1..], {r});
    }
  }

  lemma WatchedCompleted(last: World, w: World, r: Uid, o: Object, a: Status, rs: seq<Object>)
    requires Watched(last, w, r) && o in w.history && o.uid != r
    requires Completed(w.history, o, o.status, a, rs) && Leads(RefEdges(last), o.uid, r)
    ensures Occurs(a.trace, r)
  {
    var v := LeadsOn(RefEdges(last), o.uid, r);
    var i := ReadOfEdge(last, w, {r}, o, rs, v);
    GatheredMeets(last, w, r, rs, i);
  }

  lemma WatchedFlagged(last: World, w: World, r: Uid, o: Object, a: Status, rs: seq<Object>, hit: nat)
    requires Watched(last, w, r) && o in w.history && o.uid != r && Done(o.spec, o.status)
    requires Flagged(w.history, o, o.status, a, rs, hit)
    ensures Occurs(a.trace, r)
  {
    if !Occurs(a.trace, r) {
      SpansGrounded(w, o, rs);
      assert OccursIn(SpansOf(rs)[hit], o.uid);
      var p := WalkAroundPruned(EverEdges(w.history), o.uid, SpansOf(rs), o.uid, r);
      EverWalkIsRefWalk(last, w, {r}, p);
      var n: nat :| Bounded(RefEdges(last), {r}, o.uid, n);
      BoundedNoCycle(RefEdges(last), {r}, o.uid, n, p);
    }
  }

  lemma WatchedVersion(last: World, w: World, r: Uid, x: Object)
    requires Watched(last, w, r) && x.uid in w.objects && x.uid != r
    requires Ran(w, w.objects[x.uid], x) && Done(x.spec, x.status) && Leads(RefEdges(last), x.uid, r)
    ensures Occurs(x.status.trace, r)
  {
    var o := w.objects[x.uid];
    if rs: seq<Object>, hit: nat :| Flagged(w.history, o, o.status, x.status, rs, hit) {
      WatchedFlagged(last, w, r, o, x.status, rs, hit);
    } else if rs: seq<Object> :| Completed(w.history, o, o.status, x.status, rs) {
      WatchedCompleted(last, w, r, o, x.status, rs);
    } else {
      assert Blocked(o.spec, o.status, x.status);
    }
  }

  lemma WatchedPut(last: World, w: World, r: Uid, x: Object)
    requires Watched(last, w, r) && Next(w, x, {r}) && x in last.history
    ensures Watched(last, Put(w, x), r)
  {
    SettledPut(last, w, {r}, x);
    assert Shows(RefEdges(last), r, x) by {
      if x.uid != r && Done(x.spec, x.status) && Leads(RefEdges(last), x.uid, r) {
        assert !Born(w, x);
        WatchedVersion(last, w, r, x);
      }
    }
    AllShowMore(RefEdges(last), r, w.history, x);
  }

  lemma {:induction false} AlwaysWatchedUpTo(last: World, w0: World, acts: seq<Action>, r: Uid)
    requires SpecsKept(last, {r}) && KeysUnique(last)
    requires Init(w0) && Legal(w0, acts) && OnlyEdits(acts, {r}) && Exec(w0, acts).history <= last.history
    ensures Watched(last, Exec(w0, acts), r)
    decreases |acts|
  {
    if acts == [] {
      SettledInit(last, w0, {r});
    } else {
      var before := Exec(w0, acts[..|acts| - 1]);
      AlwaysSafe(w0, acts[..|acts| - 1]);
      var x := NextStep(before, acts[|acts| - 1], {r});
      AlwaysWatchedUpTo(last, w0, acts[..|acts| - 1], r);
      if x.Some? {
        WatchedPut(last, before, r, x.value);
      }
    }
  }

  lemma AlwaysWatched(w0: World, acts: seq<Action>, r: Uid)
    requires Init(w0) && Legal(w0, acts) && OnlyEdits(acts, {r}) && KeysUnique(Exec(w0, acts))
    ensures Watched(Exec(w0, acts), Exec(w0, acts), r)
  {
    AlwaysSpecsKept(w0, acts, {r});
    AlwaysWatchedUpTo(Exec(w0, acts), w0, acts, r);
  }

  lemma {:induction false} FirstReturn(p: seq<Uid>, r: Uid, from: nat) returns (k: nat)
    requires from < |p| && p[|p| - 1] == r
    ensures from <= k < |p| && p[k] == r && forall i :: from <= i < k ==> p[i] != r
    decreases |p| - from
  {
    if p[from] == r {
      k := from;
    } else {
      k := FirstReturn(p, r, from + 1);
    }
  }

  /** A cycle through r leaves r by one reference and comes back by a chain that meets r only at its end. */
  lemma CycleLeadsBack(e: Edges, r: Uid, p: seq<Uid>) returns (d: Uid)
    requires WalkFrom(e, r, r, p)
    ensures (r, d) in e && (d == r || Leads(e, d, r))
  {
    d := p[1];
    assert (p[0], p[1]) in e;
    if d != r {
      var k := FirstReturn(p, r, 1);
      var q := p[1..k + 1];
      forall i | 0 <= i < |q| - 1 ensures (q[i], q[i + 1]) in e && q[i] != r {
        assert (p[i + 1], p[i + 2]) in e;
      }
      assert WalkFrom(e, d, r, q) && Avoids(q, {r});
    }
  }

  lemma NothingGathered(w: World, r: Uid, rs: seq<Object>)
    requires Watched(w, w, r) && r in w.objects && OnCycle(RefEdges(w), r)
    ensures !Gathered(w.history, r, References(w.objects[r].spec), rs)
  {
    if Gathered(w.history, r, References(w.objects[r].spec), rs) {
      var p :| WalkFrom(RefEdges(w), r, r, p);
      var d := CycleLeadsBack(RefEdges(w), r, p);
      var i :| 0 <= i < |rs| && References(w.objects[r].spec)[i] == w.objects[d].key;
      assert w.objects[rs[i].uid].key == w.objects[d].key;
      GatheredMeets(w, w, r, rs, i);
    }
  }

  /** A run that does not complete keeps the image and does not become done. */
  lemma UncompletedKeeps(h: set<Object>, o: Object, restart: bool, a: Status)
    requires Shaped(h, o, Start(o, restart), a) && forall rs :: !Completed(h, o, Start(o, restart), a, rs)
    ensures a.image == o.status.image && (Done(o.spec, a) ==> Done(o.spec, o.status))
  {}

  /**
   Closing a cycle is caught: when only r's spec was ever edited and r is now on a
   reference cycle, no run of r reaches the registry or publishes, whatever versions of
   its references it reads.
   */
  lemma ClosedCycleBlocksRun(w0: World, acts: seq<Action>, r: Uid, env: Env, restart: bool, written: bool)
    requires Init(w0) && Legal(w0, acts) && OnlyEdits(acts, {r}) && KeysUnique(Exec(w0, acts))
    requires Enabled(Exec(w0, acts), Reconcile(r, env, restart, written)) && OnCycle(RefEdges(Exec(w0, acts)), r)
    ensures var o := Exec(w0, acts).objects[r];
            var run := Run(o, Start(o, restart), env);
            run.Ended? ==> run.calls == [] && run.status.image == o.status.image
                           && (Done(o.spec, run.status) ==> Done(o.spec, o.status))
  {
    var w := Exec(w0, acts);
    var o := w.objects[r];
    AlwaysWatched(w0, acts, r);
    var rs := RunCalls(w.history, o, Start(o, restart), env);
    NothingGathered(w, r, rs);
    RunShape(w.history, o, Start(o, restart), env);
    var run := Run(o, Start(o, restart), env);
    if run.Ended? {
      forall all: seq<Object> ensures !Completed(w.history, o, Start(o, restart), run.status, all) {
        NothingGathered(w, r, all);
      }
      UncompletedKeeps(w.history, o, restart, run.status);
    }
  }

  /** What is there stays there, with its name and, unless edited, its references. */
  lemma StepKeeps(w: World, a: Action)
    requires WellFormed(w) && Enabled(w, a)
    ensures w.objects.Keys <= Apply(w, a).objects.Keys && (KeysUnique(Apply(w, a)) ==> KeysUnique(w))
    ensures !a.Edit? ==> RefEdges(w) <= RefEdges(Apply(w, a))
    ensures forall u :: u in w.objects && (a.Create? || a.uid != u) ==> Apply(w, a).objects[u] == w.objects[u]
  {
    var x := NextVersion(w, a);
    forall u | u in w.objects ensures u in Apply(w, a).objects && Apply(w, a).objects[u].key == w.objects[u].key {}
    if KeysUnique(Apply(w, a)) {
      assert KeysUnique(w);
    }
  }

  /** A prefix of a legal run is legal, so to ask for it costs nothing. */
  lemma {:induction false} LegalPrefix(w: World, acts: seq<Action>, n: nat)
    requires Legal(w, acts) && n <= |acts|
    ensures Legal(w, acts[..n])
    decreases |acts|
  {
    if n < |acts| {
      LegalPrefix(w, acts[..|acts| - 1], n);
      assert acts[..|acts| - 1][..n] == acts[..n];
    } else {
      assert acts[..n] == acts;
    }
  }

  /** While the edit stands, the image r had stays its image through any further runs and creations. */
  lemma {:induction false} ClosedCycleKeepsImage(w0: World, acts: seq<Action>, n: nat, r: Uid)
    requires Init(w0) && Legal(w0, acts) && OnlyEdits(acts, {r}) && KeysUnique(Exec(w0, acts))
    requires n <= |acts| && forall i :: n <= i < |acts| ==> !acts[i].Edit?
    requires Legal(w0, acts[..n]) && r in Exec(w0, acts[..n]).objects && OnCycle(RefEdges(Exec(w0, acts[..n])), r)
    ensures r in Exec(w0, acts).objects && OnCycle(RefEdges(Exec(w0, acts)), r)
    ensures Exec(w0, acts).objects[r].status.image == Exec(w0, acts[..n]).objects[r].status.image
    decreases |acts|
  {
    if n == |acts| {
      assert acts[..n] == acts;
    } else {
      var prior, last := acts[..|acts| - 1], acts[|acts| - 1];
      assert prior[..n] == acts[..n];
      var w := Exec(w0, prior);
      AlwaysSafe(w0, prior);
      StepKeeps(w, last);
      ClosedCycleKeepsImage(w0, prior, n, r);
      CycleMore(RefEdges(w), RefEdges(Apply(w, last)), r);
      if last.Reconcile? && last.uid == r {
        ClosedCycleBlocksRun(w0, prior, r, last.env, last.restart, last.written);
      }
    }
  }
}
