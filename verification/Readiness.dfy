/**
 Readiness and the published trace: exactly when a run ends ready, when a ready resource's
 trace is from an earlier run, and what makes sure that it was not cut.
 */
module Readiness {
  import opened Base
  import opened Spans
  import opened Resources
  import opened Runs
  import opened Protocol
  import opened Shapes
  import opened Safety

  predicate IsTrue(s: Status, t: ConditionType) { ConditionOf(s, t) == True }

  predicate EndsReady(o: Object, r: Result) { r.Ended? && Ready(o.(status := r.status)) }

  // ---------------------------------------------------------------- compositions, run by run

  /** The dependency fails in a step that leaves the conditions alone: reading it, finding its repository, or pulling it. */
  predicate FailsQuietly(self: Uid, env: DependencyEnv, spans: seq<Span>) {
    match env.read
    case NotComponent => false
    case Missing => false
    case ReadError => true
    case Got(c) =>
      && !Occurs(spans + [SpanOf(c)], self) && c.generation == c.status.observedGeneration
      && Ready(c) && !c.status.image.NoImage?
      && (!env.repository.RepositoryResolved? || c.status.image.Malformed? || env.pulled.None?)
  }

  /** Every dependency passes. */
  predicate AllPass(self: Uid, deps: seq<Dependency>, envs: seq<DependencyEnv>, spans: seq<Span>)
    requires |deps| == |envs|
    decreases |deps|
  {
    deps == [] ||
    (deps[0].ref.Some? && Passes(self, envs[0], spans)
     && AllPass(self, deps[1..], envs[1..], spans + [SpanOf(envs[0].read.resource)]))
  }

  /**
   DependenciesResolved ends True: any dependency that passes sets it, and none after it
   takes it back as long as the first to fail does so quietly.
   */
  predicate DependenciesStayTrue(self: Uid, deps: seq<Dependency>, envs: seq<DependencyEnv>, spans: seq<Span>, before: bool)
    requires |deps| == |envs|
    decreases |deps|
  {
    if deps == [] then before
    else if Passes(self, envs[0], spans) then
      DependenciesStayTrue(self, deps[1..], envs[1..], spans + [SpanOf(envs[0].read.resource)], true)
    else before && FailsQuietly(self, envs[0], spans)
  }

  /** A repository's condition ends True: the lookup succeeds, or fails without touching it. */
  predicate RepositoryStaysTrue(lookup: RepositoryLookup, before: bool) {
    lookup.RepositoryResolved? || (before && (lookup.RepositoryError? || lookup.KeychainError? || lookup.TemplateError?))
  }

  /** The run gets as far as pushing. */
  predicate GetsToPush(o: Object, env: Env)
    requires o.spec.Composition? && Fits(o.spec, env)
  {
    && AllPass(o.uid, o.spec.dependencies, env.dependencies, [])
    && env.managed && env.repository.RepositoryResolved? && env.child && env.composed.Some?
  }

  lemma {:induction false} ResolvedStatus(self: Uid, deps: seq<Dependency>, envs: seq<DependencyEnv>, s: Status,
                                          spans: seq<Span>, resolved: seq<Resolved>, keychain: Keychain)
    requires |deps| == |envs|
    ensures var r := ResolveDependencies(self, deps, envs, s, spans, resolved, keychain);
            !r.ResolutionPanic? ==>
              && (r.AllResolved? <==> AllPass(self, deps, envs, spans))
              && (IsTrue(r.status, DependenciesResolved) <==>
                    DependenciesStayTrue(self, deps, envs, spans, IsTrue(s, DependenciesResolved)))
              && (forall t: ConditionType :: t != DependenciesResolved ==> ConditionOf(r.status, t) == ConditionOf(s, t))
              && r.status.image == s.image
              && (r.status.trace == s.trace || !IsTrue(r.status, DependenciesResolved))
    decreases |deps|
  {
    if deps != [] && deps[0].ref.Some? && Passes(self, envs[0], spans) {
      var c := envs[0].read.resource;
      ResolvedStatus(self, deps[1..], envs[1..], Mark(s, DependenciesResolved, True), spans + [SpanOf(c)],
                     resolved + [Resolved(deps[0].component, c.status.image, envs[0].pulled.value)], envs[0].repository.keychain);
    }
  }

  lemma {:induction false} AllPassStayTrue(self: Uid, deps: seq<Dependency>, envs: seq<DependencyEnv>, spans: seq<Span>, before: bool)
    requires |deps| == |envs| && AllPass(self, deps, envs, spans) && (before || deps != [])
    ensures DependenciesStayTrue(self, deps, envs, spans, before)
    decreases |deps|
  {
    if deps != [] {
      AllPassStayTrue(self, deps[1..], envs[1..], spans + [SpanOf(envs[0].read.resource)], true);
    }
  }

  lemma RepositoryMarked(s: Status, t: ConditionType, lookup: RepositoryLookup)
    ensures var m := MarkRepository(s, t, lookup);
            && (IsTrue(m, t) <==> RepositoryStaysTrue(lookup, IsTrue(s, t)))
            && (forall x: ConditionType :: x != t ==> ConditionOf(m, x) == ConditionOf(s, x))
            && m.image == s.image && m.trace == s.trace
  {}

  lemma CompositionReady(o: Object, s: Status)
    requires o.spec.Composition?
    ensures Ready(o.(status := s)) <==> IsTrue(s, RepositoryReady) && IsTrue(s, DependenciesResolved) && IsTrue(s, ComponentPushed)
  {
    assert Dependents(o.spec) == {RepositoryReady, DependenciesResolved, ComponentPushed};
  }

  /**
   A composition's run ends ready exactly when it pushes, or when it fails before the push
   in steps that leave every condition alone and had completed before. In the second case
   image and trace are the earlier ones.
   */
  lemma CompositionEndsReady(o: Object, s: Status, env: Env)
    requires o.spec.Composition? && Fits(o.spec, env) && CompositionRun(o, s, env).Ended?
    ensures var r := CompositionRun(o, s, env);
            && (EndsReady(o, r) <==>
                  if GetsToPush(o, env) then env.pushed.Some?
                  else
                    && Done(o.spec, s)
                    && DependenciesStayTrue(o.uid, o.spec.dependencies, env.dependencies, [], IsTrue(s, DependenciesResolved))
                    && RepositoryStaysTrue(env.repository, IsTrue(s, RepositoryReady)))
            && (EndsReady(o, r) && !GetsToPush(o, env) ==> r.status.trace == s.trace && r.status.image == s.image)
  {
    var whole := ResolveDependencies(o.uid, o.spec.dependencies, env.dependencies, s, [], [], []);
    ResolvedStatus(o.uid, o.spec.dependencies, env.dependencies, s, [], [], []);
    var f := whole.status.(dependencies := Statuses(whole.resolved));
    var marked := MarkRepository(f, RepositoryReady, env.repository);
    assert forall t: ConditionType :: ConditionOf(f, t) == ConditionOf(whole.status, t);
    RepositoryMarked(f, RepositoryReady, env.repository);
    var r := CompositionRun(o, s, env);
    CompositionReady(o, r.status);
    if GetsToPush(o, env) {
      AllPassStayTrue(o.uid, o.spec.dependencies, env.dependencies, [], IsTrue(s, DependenciesResolved));
      assert r.status.conditions == marked.conditions[ComponentPushed := if env.pushed.Some? then True else False];
    } else {
      assert r.status == marked;
    }
  }

  // ---------------------------------------------------------------- container images, run by run

  /** The base image's condition is left alone by a failing step. */
  predicate ImageFailsQuietly(self: Uid, read: Read, lookup: RepositoryLookup, spans: seq<Span>) {
    match read
    case NotComponent => true
    case Missing => false
    case ReadError => true
    case Got(image) =>
      && !Occurs(spans + [SpanOf(image)], self) && image.generation == image.status.observedGeneration && Ready(image)
      && (lookup.RepositoryError? || lookup.KeychainError? || (KeychainOf(lookup).Some? && !image.status.image.Digested?))
  }

  lemma ComponentPartTrue(self: Uid, env: DependencyEnv, s: Status)
    ensures var part := ResolveComponent(self, env, s);
            && (IsTrue(part.status, ComponentPulled) <==>
                  part.ok || (IsTrue(s, ComponentPulled) && FailsQuietly(self, env, [])))
            && (forall t: ConditionType :: t != ComponentPulled ==> ConditionOf(part.status, t) == ConditionOf(s, t))
            && part.status.image == s.image && (part.status.trace == s.trace || !IsTrue(part.status, ComponentPulled))
  {
    if env.read.Got? {
      assert [] + [SpanOf(env.read.resource)] == [SpanOf(env.read.resource)];
    }
  }

  lemma ImagePartTrue(self: Uid, read: Read, lookup: RepositoryLookup, s: Status, spans: seq<Span>)
    ensures var part := ResolveImage(self, read, lookup, s, spans);
            && (IsTrue(part.status, ImageReady) <==>
                  part.ok || (IsTrue(s, ImageReady) && ImageFailsQuietly(self, read, lookup, spans)))
            && (forall t: ConditionType :: t != ImageReady ==> ConditionOf(part.status, t) == ConditionOf(s, t))
            && part.status.image == s.image && (part.status.trace == s.trace || !IsTrue(part.status, ImageReady))
  {}

  lemma ContainerReady(o: Object, s: Status)
    requires o.spec.ContainerImage?
    ensures Ready(o.(status := s)) <==>
              IsTrue(s, ImageReady) && IsTrue(s, RepositoryReady) && IsTrue(s, ComponentPulled) && IsTrue(s, Pushed)
  {
    assert Dependents(o.spec) == {ImageReady, RepositoryReady, ComponentPulled, Pushed};
  }

  /**
   A container image's run ends ready exactly when it appends, or when it had completed
   before and every step that fails leaves its condition alone; a failed append always does.
   */
  lemma ContainerEndsReady(o: Object, s: Status, env: Env)
    requires o.spec.ContainerImage? && env.ContainerEnv?
    ensures var component := ResolveComponent(o.uid, env.component, s);
            var image := ResolveImage(o.uid, env.image, env.imageRepository, component.status, component.spans);
            var appends := component.ok && image.ok && env.repository.RepositoryResolved? && env.appended.Some?;
            var r := ContainerRun(o, s, env);
            && (EndsReady(o, r) <==>
                  appends
                  || (&& Done(o.spec, s)
                      && (component.ok || (IsTrue(s, ComponentPulled) && FailsQuietly(o.uid, env.component, [])))
                      && (image.ok || (IsTrue(s, ImageReady) && ImageFailsQuietly(o.uid, env.image, env.imageRepository, component.spans)))
                      && RepositoryStaysTrue(env.repository, IsTrue(s, RepositoryReady))))
            && (EndsReady(o, r) && !appends ==> r.status.trace == s.trace && r.status.image == s.image)
  {
    var component := ResolveComponent(o.uid, env.component, s);
    var image := ResolveImage(o.uid, env.image, env.imageRepository, component.status, component.spans);
    ComponentPartTrue(o.uid, env.component, s);
    ImagePartTrue(o.uid, env.image, env.imageRepository, component.status, component.spans);
    RepositoryMarked(image.status, RepositoryReady, env.repository);
    ContainerReady(o, ContainerRun(o, s, env).status);
  }

  // ---------------------------------------------------------------- components, run by run

  /** The run gets as far as copying. */
  predicate GetsToCopy(o: Object, env: Env)
    requires o.spec.Component? && env.ComponentEnv?
  {
    && env.repository.RepositoryResolved?
    && if o.spec.oci.Some? then env.account.AccountResolved? && env.resolved.Some?
       else
         && o.spec.ref.Some? && env.read.Got? && !Occurs([SpanOf(env.read.resource)], o.uid)
         && Ready(env.read.resource) && env.read.resource.status.image.Digested?
  }

  /** The run fails before the copy without touching the copy's condition. */
  predicate CopyFailsQuietly(o: Object, env: Env)
    requires o.spec.Component? && env.ComponentEnv?
  {
    if o.spec.oci.Some? then !env.account.AccountMissing?
    else env.repository.RepositoryResolved? ==> env.read.ReadError?
  }

  lemma ComponentReady(o: Object, s: Status)
    requires o.spec.Component?
    ensures Ready(o.(status := s)) <==> IsTrue(s, RepositoryReady) && IsTrue(s, ComponentCopied)
  {
    assert Dependents(o.spec) == {RepositoryReady, ComponentCopied};
  }

  /**
   A component's run ends ready exactly when it copies, or when it had copied before and
   fails before the copy in steps that leave both conditions alone.
   */
  lemma ComponentEndsReady(o: Object, s: Status, env: Env)
    requires o.spec.Component? && env.ComponentEnv? && ComponentRun(o, s, env).Ended?
    ensures var r := ComponentRun(o, s, env);
            && (EndsReady(o, r) <==>
                  if GetsToCopy(o, env) then env.copied && env.configured
                  else
                    && Done(o.spec, s) && CopyFailsQuietly(o, env)
                    && RepositoryStaysTrue(env.repository, IsTrue(s, RepositoryReady)))
            && (EndsReady(o, r) && !GetsToCopy(o, env) ==> r.status.trace == s.trace && r.status.image == s.image)
  {
    RepositoryMarked(s, RepositoryReady, env.repository);
    ComponentReady(o, ComponentRun(o, s, env).status);
  }

  // ---------------------------------------------------------------- runs that start afresh

  /** Nothing was cut from the trace, at any depth. */
  predicate Uncut(f: seq<Span>) {
    forall i :: 0 <= i < |f| ==> !f[i].cycleOmitted && Uncut(f[i].trace)
  }

  /** A run that starts without its last condition ends with it only by completing. */
  lemma DoneByCompleting(h: set<Object>, o: Object, s: Status, env: Env) returns (rs: seq<Object>)
    requires Fits(o.spec, env) && EnvFrom(h, o.spec, env) && (o.spec.Image? ==> s.trace == []) && !Done(o.spec, s)
    ensures var r := Run(o, s, env); r.Ended? && Done(o.spec, r.status) ==> Completed(h, o, s, r.status, rs)
  {
    RunShape(h, o, s, env);
    var r := Run(o, s, env);
    rs := [];
    if r.Ended? && Done(o.spec, r.status) {
      rs :| Completed(h, o, s, r.status, rs);
    }
  }

  /** Every run starts with fresh conditions. */
  ghost predicate Restarts(acts: seq<Action>) {
    forall i :: 0 <= i < |acts| && acts[i].Reconcile? ==> acts[i].restart
  }

  ghost predicate UncutWorld(w: World) {
    forall x :: x in w.history && Done(x.spec, x.status) ==> Uncut(x.status.trace)
  }

  lemma CompletedUncut(w: World, o: Object, b: Status, a: Status, rs: seq<Object>)
    requires UncutWorld(w) && Completed(w.history, o, b, a, rs)
    ensures Uncut(a.trace)
  {
    forall i | 0 <= i < |a.trace| ensures !a.trace[i].cycleOmitted && Uncut(a.trace[i].trace) {
      assert a.trace[i] == SpanOf(rs[i]) && Ready(rs[i]);
    }
  }

  lemma UncutStep(w: World, a: Action)
    requires WellFormed(w) && UncutWorld(w) && Enabled(w, a) && (a.Reconcile? ==> a.restart)
    ensures UncutWorld(Apply(w, a))
  {
    match a
    case Create(o) =>
    case Edit(u, spec) =>
      assert w.objects[u] in w.history && Final(spec) == Final(w.objects[u].spec);
    case Reconcile(u, env, _, _) =>
      var o := w.objects[u];
      var s := Start(o, true);
      assert o in w.history && !Done(o.spec, s);
      var rs := DoneByCompleting(w.history, o, s, env);
      var r := Run(o, s, env);
      if r.Ended? && Done(o.spec, r.status) {
        CompletedUncut(w, o, s, r.status, rs);
      }
  }

  lemma {:induction false} AlwaysUncut(w0: World, acts: seq<Action>)
    requires Init(w0) && Legal(w0, acts) && Restarts(acts)
    ensures UncutWorld(Exec(w0, acts))
    decreases |acts|
  {
    if acts != [] {
      AlwaysUncut(w0, acts[..|acts| - 1]);
      AlwaysSafe(w0, acts[..|acts| - 1]);
      UncutStep(Exec(w0, acts[..|acts| - 1]), acts[|acts| - 1]);
    }
  }

  /** If every run starts with fresh conditions, a ready resource's trace is never cut at any depth, under any edits and stale reads. */
  lemma RestartedReadyIsUncut(w0: World, acts: seq<Action>, u: Uid)
    requires Init(w0) && Legal(w0, acts) && Restarts(acts)
    requires u in Exec(w0, acts).objects && Ready(Exec(w0, acts).objects[u])
    ensures Uncut(Exec(w0, acts).objects[u].status.trace)
  {
    AlwaysUncut(w0, acts);
    AlwaysSafe(w0, acts);
  }
}
