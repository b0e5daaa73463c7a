/**
 Exactly when a run reports a cycle: on getting to a reading in which its resource occurs,
 which with fixed specs is a reading of the resource itself.
 */
module Detection {
  import opened Base
  import opened Spans
  import opened Resources
  import opened Runs
  import opened Protocol
  import opened Shapes
  import opened Safety
  import opened Cycles

  /** The dependency at which resolving gets to a reading that contains the resource. */
  function CyclicDependency(self: Uid, deps: seq<Dependency>, envs: seq<DependencyEnv>, spans: seq<Span>): Option<Object>
    requires |deps| == |envs|
    decreases |deps|
  {
    if deps == [] || deps[0].ref.None? || !envs[0].read.Got? then None
    else if OccursIn(SpanOf(envs[0].read.resource), self) then Some(envs[0].read.resource)
    else if !Passes(self, envs[0], spans) then None
    else CyclicDependency(self, deps[1..], envs[1..], spans + [SpanOf(envs[0].read.resource)])
  }

  /** The first reading a run gets to that contains its resource. */
  function CyclicReading(o: Object, env: Env): Option<Object>
    requires Fits(o.spec, env)
  {
    match o.spec
    case Component(oci, ref) =>
      if env.repository.RepositoryResolved? && oci.None? && ref.Some? && env.read.Got? && OccursIn(SpanOf(env.read.resource), o.uid)
      then Some(env.read.resource)
      else None
    case Composition(_, _, deps) => CyclicDependency(o.uid, deps, env.dependencies, [])
    case ContainerImage(_, _) =>
      if env.component.read.Got? && OccursIn(SpanOf(env.component.read.resource), o.uid) then Some(env.component.read.resource)
      else if env.image.Got? && OccursIn(SpanOf(env.image.resource), o.uid) then Some(env.image.resource)
      else None
    case ConfigStore => None
    case Image(_) => None
  }

  lemma CycleMarked(s: Status, t: ConditionType, spans: seq<Span>, self: Uid)
    ensures CycleReported(MarkCycle(s, t, spans, self))
  {
    assert MarkCycle(s, t, spans, self).conditions[t] == CycleDetected;
  }

  /** Overwriting a condition that does not report a cycle neither adds nor removes a report. */
  lemma MarkKeepsReports(s: Status, t: ConditionType, c: Condition)
    requires c != CycleDetected && ConditionOf(s, t) != CycleDetected
    ensures CycleReported(Mark(s, t, c)) <==> CycleReported(s)
  {
    MarkReports(s, t, c);
    if x :| x in s.conditions && s.conditions[x] == CycleDetected {
      assert Mark(s, t, c).conditions[x] == CycleDetected;
    }
  }

  lemma RepositoryKeepsReports(s: Status, t: ConditionType, lookup: RepositoryLookup)
    requires ConditionOf(s, t) != CycleDetected
    ensures CycleReported(MarkRepository(s, t, lookup)) <==> CycleReported(s)
  {
    MarkKeepsReports(s, t, True);
    MarkKeepsReports(s, t, False);
    MarkKeepsReports(s, t, Unknown);
  }

  lemma Unreported(s: Status)
    requires !CycleReported(s)
    ensures forall t: ConditionType :: ConditionOf(s, t) != CycleDetected
  {}

  // ---------------------------------------------------------------- each kind

  lemma ComponentReports(o: Object, s: Status, env: Env)
    requires o.spec.Component? && env.ComponentEnv? && !CycleReported(s)
    ensures var r := ComponentRun(o, s, env); r.Ended? ==> (CycleReported(r.status) <==> CyclicReading(o, env).Some?)
  {
    Unreported(s);
    var s1 := MarkRepository(s, RepositoryReady, env.repository);
    RepositoryKeepsReports(s, RepositoryReady, env.repository);
    MarkReports(s1, ComponentCopied, False);
    var s2 := if o.spec.oci.Some? && env.account.AccountMissing? then Mark(s1, ComponentCopied, False) else s1;
    MarkReports(s2, ComponentCopied, False);
    MarkReports(s2, ComponentCopied, Unknown);
    MarkReports(s2, ComponentCopied, True);
    if env.read.Got? {
      OccursNext([], SpanOf(env.read.resource), o.uid);
      assert [] + [SpanOf(env.read.resource)] == [SpanOf(env.read.resource)];
      CycleMarked(s2, ComponentCopied, [SpanOf(env.read.resource)], o.uid);
    }
  }

  lemma {:induction false} DependenciesReport(self: Uid, deps: seq<Dependency>, envs: seq<DependencyEnv>, s: Status,
                                              spans: seq<Span>, resolved: seq<Resolved>, keychain: Keychain)
    requires |deps| == |envs| && !CycleReported(s) && !Occurs(spans, self)
    ensures var r := ResolveDependencies(self, deps, envs, s, spans, resolved, keychain);
            !r.ResolutionPanic? ==>
              && (CycleReported(r.status) <==> CyclicDependency(self, deps, envs, spans).Some?)
              && (r.AllResolved? ==> !CycleReported(r.status))
              && ConditionOf(r.status, RepositoryReady) == ConditionOf(s, RepositoryReady)
    decreases |deps|
  {
    MarkReports(s, DependenciesResolved, False);
    MarkReports(s, DependenciesResolved, Unknown);
    MarkReports(s, DependenciesResolved, True);
    if deps != [] && deps[0].ref.Some? && envs[0].read.Got? {
      var c := envs[0].read.resource;
      OccursNext(spans, SpanOf(c), self);
      CycleMarked(s, DependenciesResolved, spans + [SpanOf(c)], self);
      if Passes(self, envs[0], spans) {
        DependenciesReport(self, deps[1..], envs[1..], Mark(s, DependenciesResolved, True), spans + [SpanOf(c)],
                           resolved + [Resolved(deps[0].component, c.status.image, envs[0].pulled.value)], envs[0].repository.keychain);
      }
    }
  }

  lemma CompositionReports(o: Object, s: Status, env: Env)
    requires o.spec.Composition? && Fits(o.spec, env) && !CycleReported(s)
    ensures var r := CompositionRun(o, s, env); r.Ended? ==> (CycleReported(r.status) <==> CyclicReading(o, env).Some?)
  {
    Unreported(s);
    DependenciesReport(o.uid, o.spec.dependencies, env.dependencies, s, [], [], []);
    var whole := ResolveDependencies(o.uid, o.spec.dependencies, env.dependencies, s, [], [], []);
    if !whole.ResolutionPanic? {
      var f := whole.status.(dependencies := Statuses(whole.resolved));
      assert CycleReported(f) <==> CycleReported(whole.status);
      RepositoryKeepsReports(f, RepositoryReady, env.repository);
      var marked := MarkRepository(f, RepositoryReady, env.repository);
      MarkReports(marked, ComponentPushed, False);
      MarkReports(marked, ComponentPushed, True);
    }
  }

  lemma ComponentPartReports(o: Object, s: Status, env: Env)
    requires o.spec.ContainerImage? && env.ContainerEnv? && !CycleReported(s)
    ensures var part := ResolveComponent(o.uid, env.component, s);
            && (CycleReported(part.status) <==> Occurs(part.spans, o.uid))
            && ConditionOf(part.status, ImageReady) != CycleDetected && ConditionOf(part.status, RepositoryReady) != CycleDetected
            && part.spans == (if env.component.read.Got? then [SpanOf(env.component.read.resource)] else [])
            && (part.ok ==> !CycleReported(part.status))
  {
    Unreported(s);
    MarkKeepsReports(s, ComponentPulled, False);
    MarkKeepsReports(s, ComponentPulled, Unknown);
    MarkKeepsReports(s, ComponentPulled, True);
    if env.component.read.Got? {
      CycleMarked(s, ComponentPulled, [SpanOf(env.component.read.resource)], o.uid);
    }
  }

  lemma ImagePartQuiet(o: Object, part: Part, env: Env)
    requires o.spec.ContainerImage? && env.ContainerEnv? && ConditionOf(part.status, ImageReady) != CycleDetected
    requires env.image.Got? ==> !Occurs(part.spans + [SpanOf(env.image.resource)], o.uid)
    ensures var whole := ResolveImage(o.uid, env.image, env.imageRepository, part.status, part.spans);
            CycleReported(whole.status) <==> CycleReported(part.status)
  {
    MarkKeepsReports(part.status, ImageReady, False);
    MarkKeepsReports(part.status, ImageReady, Unknown);
    MarkKeepsReports(part.status, ImageReady, True);
    RepositoryKeepsReports(part.status, ImageReady, env.imageRepository);
  }

  lemma ImagePartReports(o: Object, part: Part, env: Env)
    requires o.spec.ContainerImage? && env.ContainerEnv? && ConditionOf(part.status, ImageReady) != CycleDetected
    ensures var whole := ResolveImage(o.uid, env.image, env.imageRepository, part.status, part.spans);
            var cyclic := env.image.Got? && Occurs(part.spans + [SpanOf(env.image.resource)], o.uid);
            && (CycleReported(whole.status) <==> CycleReported(part.status) || cyclic)
            && ConditionOf(whole.status, RepositoryReady) == ConditionOf(part.status, RepositoryReady)
            && (whole.ok ==> !cyclic)
  {
    if env.image.Got? && Occurs(part.spans + [SpanOf(env.image.resource)], o.uid) {
      CycleMarked(part.status, ImageReady, part.spans + [SpanOf(env.image.resource)], o.uid);
    } else {
      ImagePartQuiet(o, part, env);
    }
  }

  lemma ContainerReports(o: Object, s: Status, env: Env)
    requires o.spec.ContainerImage? && env.ContainerEnv? && !CycleReported(s)
    ensures var r := ContainerRun(o, s, env); r.Ended? ==> (CycleReported(r.status) <==> CyclicReading(o, env).Some?)
  {
    var part := ResolveComponent(o.uid, env.component, s);
    var whole := ResolveImage(o.uid, env.image, env.imageRepository, part.status, part.spans);
    ComponentPartReports(o, s, env);
    ImagePartReports(o, part, env);
    RepositoryKeepsReports(whole.status, RepositoryReady, env.repository);
    MarkReports(MarkRepository(whole.status, RepositoryReady, env.repository), Pushed, True);
    if env.component.read.Got? {
      OccursNext([], SpanOf(env.component.read.resource), o.uid);
      assert [] + [SpanOf(env.component.read.resource)] == [SpanOf(env.component.read.resource)];
    }
    if env.image.Got? {
      OccursAppend(part.spans, [SpanOf(env.image.resource)], o.uid);
      assert [SpanOf(env.image.resource)][0] == SpanOf(env.image.resource);
    }
  }

  lemma OthersNeverReport(o: Object, s: Status, env: Env)
    requires Fits(o.spec, env) && (o.spec.ConfigStore? || o.spec.Image?) && !CycleReported(s)
    ensures var r := Run(o, s, env); r.Ended? ==> !CycleReported(r.status)
  {
    Unreported(s);
    if o.spec.ConfigStore? {
      MarkReports(s, ConfigResolved, False);
      MarkReports(s, ConfigResolved, True);
      var s1 := match env.collected
                case ConfigMissing => Mark(s, ConfigResolved, False)
                case ConfigError => s
                case ConfigCollected => Mark(s, ConfigResolved, True);
      RepositoryKeepsReports(s1, RepositoryReady, env.repository);
      MarkReports(MarkRepository(s1, RepositoryReady, env.repository), ComponentPushed, False);
      MarkReports(MarkRepository(s1, RepositoryReady, env.repository), ComponentPushed, True);
    } else {
      var s1 := MarkRepository(s, RepositoryReady, env.repository);
      RepositoryKeepsReports(s, RepositoryReady, env.repository);
      MarkReports(s1, ImageCopied, False);
      var s2 := if env.account.AccountMissing? then Mark(s1, ImageCopied, False) else s1;
      MarkReports(s2, ImageCopied, False);
      MarkReports(s2, ImageCopied, True);
    }
  }

  // ---------------------------------------------------------------- main theorems

  /**
   Detection is exact in every run of every kind, whatever was read: from a start without
   reports, a run reports a cycle if and only if it gets to a reading that contains its
   resource.
   */
  lemma ReportsExactly(o: Object, s: Status, env: Env)
    requires Fits(o.spec, env) && !CycleReported(s)
    ensures var r := Run(o, s, env); r.Ended? ==> (CycleReported(r.status) <==> CyclicReading(o, env).Some?)
  {
    match o.spec
    case Component(_, _) => ComponentReports(o, s, env);
    case Composition(_, _, _) => CompositionReports(o, s, env);
    case ContainerImage(_, _) => ContainerReports(o, s, env);
    case ConfigStore => OthersNeverReport(o, s, env);
    case Image(_) => OthersNeverReport(o, s, env);
  }

  lemma {:induction false} CyclicDependencyRead(h: set<Object>, self: Uid, deps: seq<Dependency>, envs: seq<DependencyEnv>, spans: seq<Span>)
    requires |deps| == |envs| && CyclicDependency(self, deps, envs, spans).Some?
    requires forall i :: 0 <= i < |deps| && deps[i].ref.Some? ==> ReadFrom(h, envs[i].read, deps[i].ref.value, false)
    ensures var c := CyclicDependency(self, deps, envs, spans).value;
            c in h && c.key in DependencyReferences(deps) && OccursIn(SpanOf(c), self)
    decreases |deps|
  {
    if !OccursIn(SpanOf(envs[0].read.resource), self) {
      CyclicDependencyRead(h, self, deps[1..], envs[1..], spans + [SpanOf(envs[0].read.resource)]);
    }
  }

  /** The reading in question is of a referenced resource. */
  lemma CyclicReadingRead(h: set<Object>, o: Object, env: Env)
    requires Fits(o.spec, env) && EnvFrom(h, o.spec, env) && CyclicReading(o, env).Some?
    ensures var c := CyclicReading(o, env).value;
            c in h && c.key in References(o.spec) && OccursIn(SpanOf(c), o.uid)
  {
    if o.spec.Composition? {
      CyclicDependencyRead(h, o.uid, o.spec.dependencies, env.dependencies, []);
    }
  }

  /** The run gets to a reading of its own resource. */
  predicate ReadsItself(o: Object, env: Env)
    requires Fits(o.spec, env)
  {
    CyclicReading(o, env).Some? && CyclicReading(o, env).value.uid == o.uid
  }

  /**
   With fixed specs a run newly reports a cycle if and only if it gets to a reading of
   the resource itself, whatever versions it reads; and then the resource references itself.
   */
  lemma FixedReportsExactly(w0: World, acts: seq<Action>, u: Uid, env: Env, restart: bool, written: bool)
    requires Init(w0) && Legal(w0, acts) && OnlyEdits(acts, {}) && KeysUnique(Exec(w0, acts))
    requires Enabled(Exec(w0, acts), Reconcile(u, env, restart, written))
    requires !CycleReported(Start(Exec(w0, acts).objects[u], restart))
    ensures var o := Exec(w0, acts).objects[u];
            var r := Run(o, Start(o, restart), env);
            && (r.Ended? ==> (CycleReported(r.status) <==> ReadsItself(o, env)))
            && (ReadsItself(o, env) ==> (u, u) in RefEdges(Exec(w0, acts)))
  {
    var w := Exec(w0, acts);
    var o := w.objects[u];
    AlwaysFixed(w0, acts);
    ReportsExactly(o, Start(o, restart), env);
    if CyclicReading(o, env).Some? {
      CyclicReadingRead(w.history, o, env);
      SelfOccursIsSelf(w, w, o, CyclicReading(o, env).value);
    }
  }
}
