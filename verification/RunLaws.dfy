/**
 Laws of single runs that rest on the order of the sub-reconcilers: whose tag and whose
 keychain reach the registry, in which order inputs are composed, and when a run panics.
 */
module RunLaws {
  import opened Base
  import opened Spans
  import opened Resources
  import opened Runs
  import opened Protocol
  import opened Shapes
  import opened Safety

  // ---------------------------------------------------------------- tags and keychains

  predicate UsesTag(call: Call, tag: Tag) {
    call.Compose? || call.tag == tag
  }

  /** Every call goes to the tag of the resource's own repository, and so does the published image. */
  predicate OwnTagged(s: Status, r: Result, own: RepositoryLookup) {
    r.Ended? ==>
      if r.calls == [] then r.status.image == s.image
      else
        && own.RepositoryResolved?
        && (forall i :: 0 <= i < |r.calls| ==> UsesTag(r.calls[i], own.tag))
        && (r.status.image == s.image || (r.status.image.Digested? && r.status.image.repository == own.tag.repository))
  }

  /**
   Whatever the dependencies' repositories are, the tag that is copied, pushed or appended
   to is the resource's own, never one stashed while a dependency was resolved.
   */
  lemma OwnTagOnly(o: Object, s: Status, env: Env)
    requires Fits(o.spec, env)
    ensures OwnTagged(s, Run(o, s, env), env.repository)
  {
    match o.spec
    case Component(_, _) => ComponentTag(o, s, env);
    case Composition(_, _, _) => CompositionTag(o, s, env);
    case ContainerImage(_, _) => ContainerTag(o, s, env);
    case ConfigStore =>
    case Image(_) =>
  }

  lemma ComponentTag(o: Object, s: Status, env: Env)
    requires o.spec.Component? && env.ComponentEnv?
    ensures OwnTagged(s, ComponentRun(o, s, env), env.repository)
  {}

  lemma CompositionTag(o: Object, s: Status, env: Env)
    requires o.spec.Composition? && Fits(o.spec, env)
    ensures OwnTagged(s, CompositionRun(o, s, env), env.repository)
  {
    ResolveKeepsImage(o.uid, o.spec.dependencies, env.dependencies, s, [], [], []);
  }

  lemma ContainerTag(o: Object, s: Status, env: Env)
    requires o.spec.ContainerImage? && env.ContainerEnv?
    ensures OwnTagged(s, ContainerRun(o, s, env), env.repository)
  {
    var component := ResolveComponent(o.uid, env.component, s);
    assert component.status.image == s.image;
    var image := ResolveImage(o.uid, env.image, env.imageRepository, component.status, component.spans);
    assert image.status.image == s.image;
  }

  lemma {:induction false} ResolveKeepsImage(self: Uid, deps: seq<Dependency>, envs: seq<DependencyEnv>, s: Status,
                                             spans: seq<Span>, resolved: seq<Resolved>, keychain: Keychain)
    requires |deps| == |envs|
    ensures var r := ResolveDependencies(self, deps, envs, s, spans, resolved, keychain);
            && (r.ResolutionFailed? || r.AllResolved? ==> r.status.image == s.image)
            && (r.AllResolved? ==> forall i :: 0 <= i < |envs| ==> envs[i].repository.RepositoryResolved?)
            && (r.AllResolved? ==> r.keychain == if deps == [] then keychain else envs[|envs| - 1].repository.keychain)
    decreases |deps|
  {
    if deps != [] && deps[0].ref.Some? && Passes(self, envs[0], spans) {
      ResolveKeepsImage(self, deps[1..], envs[1..], Mark(s, DependenciesResolved, True), spans + [SpanOf(envs[0].read.resource)],
                        resolved + [Resolved(deps[0].component, envs[0].read.resource.status.image, envs[0].pulled.value)],
                        envs[0].repository.keychain);
      var r := ResolveDependencies(self, deps, envs, s, spans, resolved, keychain);
      if r.AllResolved? {
        assert envs[1..] != [] ==> envs[1..][|envs[1..]| - 1] == envs[|envs| - 1];
        forall i | 0 <= i < |envs| ensures envs[i].repository.RepositoryResolved? {
          if i > 0 {
            assert envs[i] == envs[1..][i - 1];
          }
        }
      }
    }
  }

  /** Every append uses the resource's own keychain, then the base image's, and nothing of the component's repository. */
  predicate OwnThenBase(r: Result, env: Env)
    requires env.ContainerEnv?
  {
    r.Ended? ==> forall call :: call in r.calls ==>
      && call.Append? && env.repository.RepositoryResolved? && KeychainOf(env.imageRepository).Some?
      && call.keychain == env.repository.keychain + env.imageRepository.keychain
  }

  lemma AppendKeychain(o: Object, s: Status, env: Env)
    requires o.spec.ContainerImage? && env.ContainerEnv?
    ensures OwnThenBase(ContainerRun(o, s, env), env)
  {}

  /**
   The referenced component's repository leaves nothing behind: whichever repository it
   resolves to, the run makes the same calls and publishes the same status.
   */
  lemma AppendIsolated(o: Object, s: Status, env: Env, other: RepositoryLookup)
    requires o.spec.ContainerImage? && env.ContainerEnv?
    requires env.component.repository.RepositoryResolved? && other.RepositoryResolved?
    ensures ContainerRun(o, s, env) == ContainerRun(o, s, env.(component := env.component.(repository := other)))
  {}

  /** Every push uses the resource's own keychain, then the one of the last dependency's repository. */
  predicate OwnThenLast(r: Result, env: Env)
    requires env.CompositionEnv?
  {
    r.Ended? ==> forall call :: call in r.calls && call.Push? ==>
      && env.dependencies != [] && env.dependencies[|env.dependencies| - 1].repository.RepositoryResolved?
      && env.repository.RepositoryResolved?
      && call.keychain == env.repository.keychain + env.dependencies[|env.dependencies| - 1].repository.keychain
  }

  /** A composition is not isolated in the way a container image is. */
  lemma PushKeychain(o: Object, s: Status, env: Env)
    requires o.spec.Composition? && Fits(o.spec, env)
    ensures OwnThenLast(CompositionRun(o, s, env), env)
  {
    ResolveKeepsImage(o.uid, o.spec.dependencies, env.dependencies, s, [], [], []);
    ResolvedInOrder(o.uid, o.spec.dependencies, env.dependencies, s, [], [], []);
    var whole := ResolveDependencies(o.uid, o.spec.dependencies, env.dependencies, s, [], [], []);
    var r := CompositionRun(o, s, env);
    if r.Ended? && r.calls != [] {
      assert whole.AllResolved? && whole.resolved != [];
    }
  }

  // ---------------------------------------------------------------- order of composition

  lemma {:induction false} ResolvedInOrder(self: Uid, deps: seq<Dependency>, envs: seq<DependencyEnv>, s: Status,
                                           spans: seq<Span>, resolved: seq<Resolved>, keychain: Keychain)
    requires |deps| == |envs|
    ensures var r := ResolveDependencies(self, deps, envs, s, spans, resolved, keychain);
            r.AllResolved? ==>
              && |r.resolved| == |resolved| + |deps| && r.resolved[..|resolved|] == resolved
              && forall i :: 0 <= i < |deps| ==>
                   && envs[i].read.Got? && envs[i].pulled.Some?
                   && r.resolved[|resolved| + i] == Resolved(deps[i].component, envs[i].read.resource.status.image, envs[i].pulled.value)
    decreases |deps|
  {
    if deps != [] && deps[0].ref.Some? && Passes(self, envs[0], spans) {
      var entry := Resolved(deps[0].component, envs[0].read.resource.status.image, envs[0].pulled.value);
      ResolvedInOrder(self, deps[1..], envs[1..], Mark(s, DependenciesResolved, True), spans + [SpanOf(envs[0].read.resource)],
                      resolved + [entry], envs[0].repository.keychain);
      var r := ResolveDependencies(self, deps, envs, s, spans, resolved, keychain);
      if r.AllResolved? {
        assert r.resolved[..|resolved| + 1][..|resolved|] == r.resolved[..|resolved|];
        assert (resolved + [entry])[..|resolved|] == resolved;
        assert r.resolved[|resolved|] == r.resolved[..|resolved| + 1][|resolved|];
        forall i | 0 < i < |deps|
          ensures envs[i].read.Got? && envs[i].pulled.Some?
          ensures r.resolved[|resolved| + i] == Resolved(deps[i].component, envs[i].read.resource.status.image, envs[i].pulled.value)
        {
          assert deps[i] == deps[1..][i - 1] && envs[i] == envs[1..][i - 1];
        }
      }
    }
  }

  /** What is composed is every dependency's pulled component under its name, in spec order. */
  lemma ComposedInOrder(o: Object, s: Status, env: Env, inputs: seq<(string, Bytes)>)
    requires o.spec.Composition? && Fits(o.spec, env)
    requires var r := CompositionRun(o, s, env); r.Ended? && Compose(inputs) in r.calls
    ensures |inputs| == |o.spec.dependencies|
    ensures forall i :: 0 <= i < |inputs| ==>
              env.dependencies[i].pulled.Some? && inputs[i] == (o.spec.dependencies[i].component, env.dependencies[i].pulled.value)
  {
    ResolvedInOrder(o.uid, o.spec.dependencies, env.dependencies, s, [], [], []);
    assert inputs == Inputs(ResolveDependencies(o.uid, o.spec.dependencies, env.dependencies, s, [], [], []).resolved);
  }

  // ---------------------------------------------------------------- panics

  /** A published image always comes with its interfaces. */
  ghost predicate ImageSound(x: Object) {
    x.status.image.NoImage? || (x.status.image.Digested? && (x.spec.Image? || x.status.wit))
  }

  ghost predicate SoundWorld(w: World) {
    forall x :: x in w.history ==> ImageSound(x)
  }

  lemma SoundPut(w: World, x: Object)
    requires WellFormed(w) && SoundWorld(w) && Version(w, x)
    ensures SoundWorld(Put(w, x))
  {
    if o: Object :| Ran(w, o, x) {
      assert ImageSound(o);
    } else if o: Object :| Edited(w, o, x) {
      assert ImageSound(o) && o.spec.Image? == x.spec.Image?;
    }
  }

  lemma {:induction false} AlwaysSound(w0: World, acts: seq<Action>)
    requires Init(w0) && Legal(w0, acts)
    ensures SoundWorld(Exec(w0, acts))
    decreases |acts|
  {
    if acts != [] {
      var before := Exec(w0, acts[..|acts| - 1]);
      AlwaysSound(w0, acts[..|acts| - 1]);
      AlwaysSafe(w0, acts[..|acts| - 1]);
      var x := NextVersion(before, acts[|acts| - 1]);
      if x.Some? {
        SoundPut(before, x.value);
      }
    }
  }

  /** Resolution gets to a dependency that has no reference, because its child could not be created. */
  predicate MeetsNoReference(self: Uid, deps: seq<Dependency>, envs: seq<DependencyEnv>, spans: seq<Span>)
    requires |deps| == |envs|
    decreases |deps|
  {
    deps != [] &&
    (deps[0].ref.None? ||
     (Passes(self, envs[0], spans) && MeetsNoReference(self, deps[1..], envs[1..], spans + [SpanOf(envs[0].read.resource)])))
  }

  lemma {:induction false} ResolvePanics(h: set<Object>, self: Uid, deps: seq<Dependency>, envs: seq<DependencyEnv>, s: Status,
                                         spans: seq<Span>, resolved: seq<Resolved>, keychain: Keychain)
    requires |deps| == |envs|
    requires forall i :: 0 <= i < |deps| && deps[i].ref.Some? ==> ReadFrom(h, envs[i].read, deps[i].ref.value, false)
    requires forall x :: x in h ==> ImageSound(x)
    ensures ResolveDependencies(self, deps, envs, s, spans, resolved, keychain).ResolutionPanic? <==>
              MeetsNoReference(self, deps, envs, spans)
    decreases |deps|
  {
    if deps != [] && deps[0].ref.Some? {
      if envs[0].read.Got? {
        assert ImageSound(envs[0].read.resource);
      }
      if Passes(self, envs[0], spans) {
        ResolvePanics(h, self, deps[1..], envs[1..], Mark(s, DependenciesResolved, True), spans + [SpanOf(envs[0].read.resource)],
                      resolved + [Resolved(deps[0].component, envs[0].read.resource.status.image, envs[0].pulled.value)],
                      envs[0].repository.keychain);
      }
    }
  }

  /** What admission and defaulting guarantee about a spec. */
  predicate Admitted(spec: Spec) {
    match spec
    case Component(oci, ref) => oci.Some? != ref.Some?
    case Composition(plug, wac, deps) => plug == (wac == "") && |deps| >= 2
    case ContainerImage(_, _) => true
    case ConfigStore => true
    case Image(_) => true
  }

  lemma CompositionPanics(h: set<Object>, o: Object, s: Status, env: Env)
    requires o.spec.Composition? && Fits(o.spec, env) && EnvFrom(h, o.spec, env) && Admitted(o.spec)
    requires forall x :: x in h ==> ImageSound(x)
    ensures CompositionRun(o, s, env).Panicked? <==> MeetsNoReference(o.uid, o.spec.dependencies, env.dependencies, [])
  {
    ResolvePanics(h, o.uid, o.spec.dependencies, env.dependencies, s, [], [], []);
    ResolvedInOrder(o.uid, o.spec.dependencies, env.dependencies, s, [], [], []);
  }

  lemma OthersNeverPanic(o: Object, s: Status, env: Env)
    requires Fits(o.spec, env) && Admitted(o.spec) && !o.spec.Composition?
    ensures !Run(o, s, env).Panicked?
  {}

  /**
   In every reachable world and for every pattern of outcomes, an admitted resource's run
   finds every stash slot it insists on filled. It panics exactly when it is a composition
   that gets to a dependency whose child, and with it the reference, is missing.
   */
  lemma PanicsExactly(w0: World, acts: seq<Action>, u: Uid, env: Env, restart: bool, written: bool)
    requires Init(w0) && Legal(w0, acts) && Enabled(Exec(w0, acts), Reconcile(u, env, restart, written))
    requires Admitted(Exec(w0, acts).objects[u].spec)
    ensures var o := Exec(w0, acts).objects[u];
            Run(o, Start(o, restart), env).Panicked? <==>
              o.spec.Composition? && MeetsNoReference(o.uid, o.spec.dependencies, env.dependencies, [])
  {
    var w := Exec(w0, acts);
    var o := w.objects[u];
    AlwaysSound(w0, acts);
    if o.spec.Composition? {
      CompositionPanics(w.history, o, Start(o, restart), env);
    } else {
      OthersNeverPanic(o, Start(o, restart), env);
    }
  }

  /** With all references present no admitted resource ever panics. */
  lemma NeverPanics(w0: World, acts: seq<Action>, u: Uid, env: Env, restart: bool, written: bool)
    requires Init(w0) && Legal(w0, acts) && Enabled(Exec(w0, acts), Reconcile(u, env, restart, written))
    requires var spec := Exec(w0, acts).objects[u].spec;
             Admitted(spec) && (spec.Composition? ==> forall i :: 0 <= i < |spec.dependencies| ==> spec.dependencies[i].ref.Some?)
    ensures var o := Exec(w0, acts).objects[u]; !Run(o, Start(o, restart), env).Panicked?
  {
    var o := Exec(w0, acts).objects[u];
    PanicsExactly(w0, acts, u, env, restart, written);
    if o.spec.Composition? {
      AllReferencesMet(o.uid, o.spec.dependencies, env.dependencies, []);
    }
  }

  lemma {:induction false} AllReferencesMet(self: Uid, deps: seq<Dependency>, envs: seq<DependencyEnv>, spans: seq<Span>)
    requires |deps| == |envs| && forall i :: 0 <= i < |deps| ==> deps[i].ref.Some?
    ensures !MeetsNoReference(self, deps, envs, spans)
    decreases |deps|
  {
    if deps != [] && Passes(self, envs[0], spans) {
      AllReferencesMet(self, deps[1..], envs[1..], spans + [SpanOf(envs[0].read.resource)]);
    }
  }
}
