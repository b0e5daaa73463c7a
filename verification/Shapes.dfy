/**
 Every run of every controller has one of the three shapes of `Protocol`. The protocol
 theorems use nothing else about the controllers.
 */
module Shapes {
  import opened Base
  import opened Spans
  import opened Resources
  import opened Runs
  import opened Protocol

  lemma MarkBlocked(spec: Spec, s: Status, t: ConditionType, c: Condition)
    requires c != CycleDetected && (t == Final(spec) ==> c != True)
    ensures Blocked(spec, s, Mark(s, t, c))
  {
    MarkReports(s, t, c);
  }

  lemma MarkReports(s: Status, t: ConditionType, c: Condition)
    requires c != CycleDetected
    ensures SameReports(s, Mark(s, t, c))
  {
    var m := Mark(s, t, c);
    if x :| x in m.conditions && m.conditions[x] == CycleDetected {
      assert x in s.conditions && s.conditions[x] == CycleDetected;
    }
  }

  lemma RepositoryBlocked(spec: Spec, s: Status, t: ConditionType, lookup: RepositoryLookup)
    requires t != Final(spec)
    ensures Blocked(spec, s, MarkRepository(s, t, lookup))
  {
    var m := MarkRepository(s, t, lookup);
    if m != s {
      MarkReports(s, t, m.conditions[t]);
    }
  }

  lemma SpansAppend(rs: seq<Object>, r: Object)
    ensures SpansOf(rs + [r]) == SpansOf(rs) + [SpanOf(r)]
  {}

  // ---------------------------------------------------------------- Component and Image

  lemma ComponentShape(h: set<Object>, o: Object, s: Status, env: Env)
    requires o.spec.Component? && env.ComponentEnv? && EnvFrom(h, o.spec, env)
    ensures var r := ComponentRun(o, s, env); r.Ended? ==> Shaped(h, o, s, r.status)
  {
    var s1 := MarkRepository(s, RepositoryReady, env.repository);
    RepositoryBlocked(o.spec, s, RepositoryReady, env.repository);
    var s2 := if o.spec.oci.Some? && env.account.AccountMissing? then Mark(s1, ComponentCopied, False) else s1;
    MarkBlocked(o.spec, s1, ComponentCopied, False);
    assert Blocked(o.spec, s, s2);
    MarkBlocked(o.spec, s2, ComponentCopied, False);
    MarkBlocked(o.spec, s2, ComponentCopied, Unknown);
    if env.repository.RepositoryResolved? {
      if o.spec.oci.Some? && env.account.AccountResolved? && env.resolved.Some? {
        CopyShape(h, o, s, s2, env, env.account.keychain + env.repository.keychain, env.resolved.value, []);
      } else if o.spec.oci.None? && o.spec.ref.Some? && env.read.Got? {
        var c := env.read.resource;
        var rs := [c];
        assert SpansOf(rs) == [SpanOf(c)];
        if Occurs(SpansOf(rs), o.uid) {
          assert Flagged(h, o, s, MarkCycle(s2, ComponentCopied, SpansOf(rs), o.uid), rs, 0);
        } else if Ready(c) && c.status.image.Digested? {
          CopyShape(h, o, s, s2, env, env.repository.keychain, c.status.image.digest, rs);
        }
      }
    }
  }

  lemma CopyShape(h: set<Object>, o: Object, s: Status, marked: Status, env: Env, keychain: Keychain, digest: string, rs: seq<Object>)
    requires o.spec.Component? && env.ComponentEnv? && env.repository.RepositoryResolved?
    requires Blocked(o.spec, s, marked)
    requires |rs| == |References(o.spec)| && !Occurs(SpansOf(rs), o.uid)
    requires forall i :: 0 <= i < |rs| ==> rs[i] in h && rs[i].key == References(o.spec)[i] && Ready(rs[i])
    requires rs != [] ==> rs[0].status.image.Digested? && rs[0].status.image.digest == digest
    ensures Shaped(h, o, s, CopyRun(marked, env, keychain, digest, SpansOf(rs)).status)
  {
    MarkBlocked(o.spec, marked, ComponentCopied, False);
    MarkReports(marked, ComponentCopied, True);
    if env.copied && env.configured {
      assert Completed(h, o, s, CopyRun(marked, env, keychain, digest, SpansOf(rs)).status, rs);
    }
  }

  lemma ImageShape(h: set<Object>, o: Object, s: Status, env: Env)
    requires o.spec.Image? && env.ImageEnv? && s.trace == []
    ensures var r := ImageRun(o, s, env); r.Ended? ==> Shaped(h, o, s, r.status)
  {
    var r := ImageRun(o, s, env);
    var s1 := MarkRepository(s, RepositoryReady, env.repository);
    RepositoryBlocked(o.spec, s, RepositoryReady, env.repository);
    var s2 := if env.account.AccountMissing? then Mark(s1, ImageCopied, False) else s1;
    MarkBlocked(o.spec, s1, ImageCopied, False);
    MarkBlocked(o.spec, s2, ImageCopied, False);
    MarkReports(s2, ImageCopied, True);
    if Done(o.spec, r.status) && !Done(o.spec, s) {
      assert Completed(h, o, s, r.status, []);
    }
    if env.repository.RepositoryResolved? && env.account.AccountResolved? && env.resolved.Some? && env.copied {
      assert Completed(h, o, s, r.status, []);
    }
  }

  // ---------------------------------------------------------------- Composition

  /** Reads that all passed the gates: ready, of the right keys, without the resource itself. */
  ghost predicate Gathered(h: set<Object>, self: Uid, refs: seq<Key>, rs: seq<Object>) {
    && |rs| == |refs| && !Occurs(SpansOf(rs), self)
    && forall i :: 0 <= i < |rs| ==> rs[i] in h && rs[i].key == refs[i] && Ready(rs[i])
  }

  /** The dependency was read, passed every gate and was pulled. */
  predicate Passes(self: Uid, env: DependencyEnv, spans: seq<Span>) {
    && env.read.Got? && !Occurs(spans + [SpanOf(env.read.resource)], self)
    && env.read.resource.generation == env.read.resource.status.observedGeneration
    && Ready(env.read.resource) && env.read.resource.status.image.Digested? && env.read.resource.status.wit
    && env.repository.RepositoryResolved? && env.pulled.Some?
  }

  /** What resolving may leave behind: nothing published, a flagged trace, or all references read. */
  ghost predicate ResolutionShape(h: set<Object>, o: Object, s: Status, r: Resolution, all: seq<Object>) {
    match r
    case ResolutionPanic => true
    case ResolutionFailed(f, _, _) => Blocked(o.spec, s, f) || (all != [] && Flagged(h, o, s, f, all, |all| - 1))
    case AllResolved(f, spans, _, _) =>
      Blocked(o.spec, s, f) && Gathered(h, o.uid, References(o.spec), all) && spans == SpansOf(all)
  }

  /** A dependency that does not pass ends the resolution there. */
  lemma ResolveStop(h: set<Object>, o: Object, deps: seq<Dependency>, envs: seq<DependencyEnv>,
                    s: Status, rs: seq<Object>, resolved: seq<Resolved>, keychain: Keychain)
      returns (all: seq<Object>)
    requires o.spec.Composition? && |deps| == |envs| && deps != []
    requires deps[0].ref.Some? ==> ReadFrom(h, envs[0].read, deps[0].ref.value, false) && deps[0].ref.value in References(o.spec)
    requires ReadsOf(h, o.spec, rs) && !Occurs(SpansOf(rs), o.uid) && forall i :: 0 <= i < |rs| ==> Ready(rs[i])
    requires deps[0].ref.None? || !Passes(o.uid, envs[0], SpansOf(rs))
    ensures ResolutionShape(h, o, s, ResolveDependencies(o.uid, deps, envs, s, SpansOf(rs), resolved, keychain), all)
  {
    all := rs;
    MarkBlocked(o.spec, s, DependenciesResolved, False);
    MarkBlocked(o.spec, s, DependenciesResolved, Unknown);
    if deps[0].ref.Some? && envs[0].read.Got? {
      var c := envs[0].read.resource;
      SpansAppend(rs, c);
      if Occurs(SpansOf(rs) + [SpanOf(c)], o.uid) {
        all := rs + [c];
        OccursAppend(SpansOf(rs), [SpanOf(c)], o.uid);
        assert OccursIn(SpanOf(c), o.uid);
        assert Flagged(h, o, s, MarkCycle(s, DependenciesResolved, SpansOf(all), o.uid), all, |all| - 1);
      }
    }
  }

  /**
   Resolving dependencies either leaves image and trace alone, or stops at the first
   reading that contains the resource, or reads every reference ready.
   */
  lemma {:induction false} ResolveShape(h: set<Object>, o: Object, deps: seq<Dependency>, envs: seq<DependencyEnv>,
                                        s: Status, refs: seq<Key>, rs: seq<Object>, resolved: seq<Resolved>, keychain: Keychain)
      returns (all: seq<Object>)
    requires o.spec.Composition? && |deps| == |envs|
    requires forall i :: 0 <= i < |deps| && deps[i].ref.Some? ==> ReadFrom(h, envs[i].read, deps[i].ref.value, false)
    requires Gathered(h, o.uid, refs, rs)
    requires References(o.spec) == refs + DependencyReferences(deps)
    ensures ResolutionShape(h, o, s, ResolveDependencies(o.uid, deps, envs, s, SpansOf(rs), resolved, keychain), all)
    decreases |deps|
  {
    if deps == [] {
      all := rs;
      assert References(o.spec) == refs;
    } else if deps[0].ref.Some? && Passes(o.uid, envs[0], SpansOf(rs)) {
      var c := envs[0].read.resource;
      var next := resolved + [Resolved(deps[0].component, c.status.image, envs[0].pulled.value)];
      var marked := Mark(s, DependenciesResolved, True);
      SpansAppend(rs, c);
      assert refs + DependencyReferences(deps) == (refs + [c.key]) + DependencyReferences(deps[1..]);
      all := ResolveShape(h, o, deps[1..], envs[1..], marked, refs + [c.key], rs + [c], next, envs[0].repository.keychain);
      MarkBlocked(o.spec, s, DependenciesResolved, True);
      var r := ResolveDependencies(o.uid, deps[1..], envs[1..], marked, SpansOf(rs + [c]), next, envs[0].repository.keychain);
      ResolutionShapeFrom(h, o, s, marked, r, all);
    } else {
      forall i | 0 <= i < |rs| ensures rs[i].key in References(o.spec) {
        assert References(o.spec)[i] == refs[i];
      }
      if deps[0].ref.Some? {
        assert References(o.spec)[|refs|] == deps[0].ref.value;
      }
      all := ResolveStop(h, o, deps, envs, s, rs, resolved, keychain);
    }
  }

  lemma ResolutionShapeFrom(h: set<Object>, o: Object, s: Status, marked: Status, r: Resolution, all: seq<Object>)
    requires Blocked(o.spec, s, marked) && ResolutionShape(h, o, marked, r, all)
    ensures ResolutionShape(h, o, s, r, all)
  {}

  lemma CompositionShape(h: set<Object>, o: Object, s: Status, env: Env)
    requires o.spec.Composition? && Fits(o.spec, env) && EnvFrom(h, o.spec, env)
    ensures var r := CompositionRun(o, s, env); r.Ended? ==> Shaped(h, o, s, r.status)
  {
    var deps := o.spec.dependencies;
    assert [] + DependencyReferences(deps) == DependencyReferences(deps);
    assert SpansOf([]) == [];
    var all := ResolveShape(h, o, deps, env.dependencies, s, [], [], [], []);
    CompositionEnds(h, o, s, env, ResolveDependencies(o.uid, deps, env.dependencies, s, [], [], []), all);
  }

  /** What follows the resolution keeps its shape. */
  lemma CompositionEnds(h: set<Object>, o: Object, s: Status, env: Env, r: Resolution, all: seq<Object>)
    requires o.spec.Composition? && Fits(o.spec, env) && ResolutionShape(h, o, s, r, all)
    requires r == ResolveDependencies(o.uid, o.spec.dependencies, env.dependencies, s, [], [], [])
    ensures var run := CompositionRun(o, s, env); run.Ended? ==> Shaped(h, o, s, run.status)
  {
    match r
    case ResolutionPanic =>
    case ResolutionFailed(f, _, resolved) => FailedEnds(h, o, s, f, resolved, env.repository, all);
    case AllResolved(f, _, resolved, _) =>
      var f' := f.(dependencies := Statuses(resolved));
      RepositoryBlocked(o.spec, f', RepositoryReady, env.repository);
      PushShape(h, o, s, MarkRepository(f', RepositoryReady, env.repository), all);
  }

  lemma FailedEnds(h: set<Object>, o: Object, s: Status, f: Status, resolved: seq<Resolved>, repository: RepositoryLookup, all: seq<Object>)
    requires o.spec.Composition?
    requires Blocked(o.spec, s, f) || (all != [] && Flagged(h, o, s, f, all, |all| - 1))
    ensures Shaped(h, o, s, MarkRepository(f.(dependencies := Statuses(resolved)), RepositoryReady, repository))
  {
    var f' := f.(dependencies := Statuses(resolved));
    var marked := MarkRepository(f', RepositoryReady, repository);
    RepositoryBlocked(o.spec, f', RepositoryReady, repository);
    if !Blocked(o.spec, s, f) {
      assert Flagged(h, o, s, marked, all, |all| - 1);
    }
  }

  /** Whatever is pushed or not pushed after all references were read, the shape fits. */
  lemma PushShape(h: set<Object>, o: Object, s: Status, marked: Status, rs: seq<Object>)
    requires o.spec.Composition? || o.spec.ConfigStore?
    requires Blocked(o.spec, s, marked) && Gathered(h, o.uid, References(o.spec), rs)
    ensures Shaped(h, o, s, Mark(marked, ComponentPushed, False))
    ensures forall image: ImageName :: image.Digested? ==>
              Shaped(h, o, s, Publish(Mark(marked, ComponentPushed, True), image, SpansOf(rs)))
  {
    MarkBlocked(o.spec, marked, ComponentPushed, False);
    MarkReports(marked, ComponentPushed, True);
    forall image: ImageName | image.Digested?
      ensures Shaped(h, o, s, Publish(Mark(marked, ComponentPushed, True), image, SpansOf(rs)))
    {
      assert Completed(h, o, s, Publish(Mark(marked, ComponentPushed, True), image, SpansOf(rs)), rs);
    }
  }

  lemma ConfigStoreShape(h: set<Object>, o: Object, s: Status, env: Env)
    requires o.spec.ConfigStore? && env.ConfigStoreEnv?
    ensures var r := ConfigStoreRun(o, s, env); r.Ended? ==> Shaped(h, o, s, r.status)
  {
    MarkBlocked(o.spec, s, ConfigResolved, False);
    MarkBlocked(o.spec, s, ConfigResolved, True);
    var s1 := match env.collected
              case ConfigMissing => Mark(s, ConfigResolved, False)
              case ConfigError => s
              case ConfigCollected => Mark(s, ConfigResolved, True);
    RepositoryBlocked(o.spec, s1, RepositoryReady, env.repository);
    assert SpansOf([]) == [];
    PushShape(h, o, s, MarkRepository(s1, RepositoryReady, env.repository), []);
  }

  // ---------------------------------------------------------------- ComponentContainerImage

  lemma ContainerShape(h: set<Object>, o: Object, s: Status, env: Env)
    requires o.spec.ContainerImage? && env.ContainerEnv? && EnvFrom(h, o.spec, env)
    ensures var r := ContainerRun(o, s, env); r.Ended? ==> Shaped(h, o, s, r.status)
  {
    var part := ResolveComponent(o.uid, env.component, s);
    var whole := ResolveImage(o.uid, env.image, env.imageRepository, part.status, part.spans);
    var marked := MarkRepository(whole.status, RepositoryReady, env.repository);
    var rs := ComponentPartShape(h, o, s, env);
    var all := ImagePartShape(h, o, s, env, rs);
    RepositoryBlocked(o.spec, whole.status, RepositoryReady, env.repository);
    if !Blocked(o.spec, s, whole.status) {
      var hit :| Flagged(h, o, s, whole.status, all, hit);
      assert Flagged(h, o, s, marked, all, hit);
    } else if part.ok && whole.ok && env.repository.RepositoryResolved? && env.appended.Some? {
      MarkReports(marked, Pushed, True);
      assert Completed(h, o, s, ContainerRun(o, s, env).status, all);
    }
  }

  lemma ComponentPartShape(h: set<Object>, o: Object, s: Status, env: Env) returns (rs: seq<Object>)
    requires o.spec.ContainerImage? && env.ContainerEnv? && EnvFrom(h, o.spec, env)
    ensures rs == if env.component.read.Got? then [env.component.read.resource] else []
    ensures var part := ResolveComponent(o.uid, env.component, s);
            && part.spans == SpansOf(rs)
            && (part.ok ==> rs != [] && Ready(rs[0]))
            && (if Occurs(part.spans, o.uid) then part.status == MarkCycle(s, ComponentPulled, part.spans, o.uid)
                else Blocked(o.spec, s, part.status))
  {
    rs := if env.component.read.Got? then [env.component.read.resource] else [];
    MarkBlocked(o.spec, s, ComponentPulled, False);
    MarkBlocked(o.spec, s, ComponentPulled, Unknown);
    MarkBlocked(o.spec, s, ComponentPulled, True);
  }

  lemma ImagePartShape(h: set<Object>, o: Object, s: Status, env: Env, rs: seq<Object>) returns (all: seq<Object>)
    requires o.spec.ContainerImage? && env.ContainerEnv? && EnvFrom(h, o.spec, env)
    requires rs == if env.component.read.Got? then [env.component.read.resource] else []
    requires var part := ResolveComponent(o.uid, env.component, s);
             && part.spans == SpansOf(rs)
             && (part.ok ==> rs != [] && Ready(rs[0]))
             && (if Occurs(part.spans, o.uid) then part.status == MarkCycle(s, ComponentPulled, part.spans, o.uid)
                 else Blocked(o.spec, s, part.status))
    ensures var part := ResolveComponent(o.uid, env.component, s);
            var whole := ResolveImage(o.uid, env.image, env.imageRepository, part.status, part.spans);
            && (Blocked(o.spec, s, whole.status) || exists hit :: Flagged(h, o, s, whole.status, all, hit))
            && (part.ok && whole.ok ==>
                  Blocked(o.spec, s, whole.status) && Gathered(h, o.uid, References(o.spec), all) && whole.spans == SpansOf(all))
  {
    var part := ResolveComponent(o.uid, env.component, s);
    var whole := ResolveImage(o.uid, env.image, env.imageRepository, part.status, part.spans);
    all := if env.image.Got? then rs + [env.image.resource] else rs;
    if env.image.Got? {
      OccursAppend(SpansOf(rs), [SpanOf(env.image.resource)], o.uid);
      SpansAppend(rs, env.image.resource);
    }
    if Occurs(SpansOf(all), o.uid) && (env.image.Got? || Occurs(SpansOf(rs), o.uid)) {
      var hit := if Occurs(SpansOf(rs), o.uid) then 0 else |rs|;
      assert OccursIn(SpanOf(all[hit]), o.uid);
      ImagePartTrace(o, env, part, all, rs);
      assert Flagged(h, o, s, whole.status, all, hit);
    } else {
      ImagePartBlocked(o, env, part);
    }
  }

  /** After a cycle in either part, the status holds the pruned spans of everything read. */
  lemma ImagePartTrace(o: Object, env: Env, part: Part, all: seq<Object>, rs: seq<Object>)
    requires o.spec.ContainerImage? && env.ContainerEnv? && part.spans == SpansOf(rs)
    requires all == if env.image.Got? then rs + [env.image.resource] else rs
    requires Occurs(SpansOf(all), o.uid)
    requires !env.image.Got? ==> part.status.trace == Prune(SpansOf(rs), o.uid)
    ensures var whole := ResolveImage(o.uid, env.image, env.imageRepository, part.status, part.spans);
            && whole.status.trace == Prune(SpansOf(all), o.uid) && !whole.ok
            && whole.status.image == part.status.image && whole.status.wit == part.status.wit
            && (Done(o.spec, whole.status) ==> Done(o.spec, part.status))
  {
    if env.image.Got? {
      SpansAppend(rs, env.image.resource);
    }
  }

  lemma ImagePartBlocked(o: Object, env: Env, part: Part)
    requires o.spec.ContainerImage? && env.ContainerEnv?
    requires env.image.Got? ==> !Occurs(part.spans + [SpanOf(env.image.resource)], o.uid)
    ensures var whole := ResolveImage(o.uid, env.image, env.imageRepository, part.status, part.spans);
            && Blocked(o.spec, part.status, whole.status)
            && (whole.ok ==> env.image.Got? && Ready(env.image.resource) && whole.spans == part.spans + [SpanOf(env.image.resource)])
  {
    MarkBlocked(o.spec, part.status, ImageReady, False);
    MarkBlocked(o.spec, part.status, ImageReady, Unknown);
    MarkBlocked(o.spec, part.status, ImageReady, True);
    RepositoryBlocked(o.spec, part.status, ImageReady, env.imageRepository);
  }

  // ---------------------------------------------------------------- any kind

  /** Every run that ends has one of the three shapes, whatever it reads. */
  lemma RunShape(h: set<Object>, o: Object, s: Status, env: Env)
    requires Fits(o.spec, env) && EnvFrom(h, o.spec, env)
    requires o.spec.Image? ==> s.trace == []
    ensures var r := Run(o, s, env); r.Ended? ==> Shaped(h, o, s, r.status)
  {
    match o.spec
    case Component(_, _) => ComponentShape(h, o, s, env);
    case Composition(_, _, _) => CompositionShape(h, o, s, env);
    case ContainerImage(_, _) => ContainerShape(h, o, s, env);
    case ConfigStore => ConfigStoreShape(h, o, s, env);
    case Image(_) => ImageShape(h, o, s, env);
  }

  /** A run that reaches the registry to publish has read every reference ready and free of itself. */
  lemma RunCalls(h: set<Object>, o: Object, s: Status, env: Env) returns (rs: seq<Object>)
    requires Fits(o.spec, env) && EnvFrom(h, o.spec, env)
    ensures var r := Run(o, s, env); r.Ended? && r.calls != [] ==> Gathered(h, o.uid, References(o.spec), rs)
  {
    rs := [];
    assert SpansOf([]) == [];
    match o.spec
    case Component(oci, ref) =>
      if oci.None? && ref.Some? && env.read.Got? {
        rs := [env.read.resource];
        assert SpansOf(rs) == [SpanOf(env.read.resource)];
      }
    case Composition(_, _, deps) =>
      assert [] + DependencyReferences(deps) == DependencyReferences(deps);
      rs := ResolveShape(h, o, deps, env.dependencies, s, [], [], [], []);
    case ContainerImage(_, _) =>
      rs := ComponentPartShape(h, o, s, env);
      rs := ImagePartShape(h, o, s, env, rs);
    case ConfigStore =>
    case Image(_) =>
  }
}
