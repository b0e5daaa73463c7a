/**
 What a composition's run leaves in each field of the status, which calls it makes and
 whether its status is written: said field by field, from what was read for each
 dependency, and not from how the run proceeds.
 */
module Outcomes {
  import opened Base
  import opened Spans
  import opened Resources
  import opened Runs

  // ---------------------------------------------------------------- what a reading is worth

  /** The reading is free of the resource, current and ready. */
  predicate Usable(self: Uid, c: Object) {
    !OccursIn(SpanOf(c), self) && c.generation == c.status.observedGeneration && ReadyOf(c) == True
  }

  /** The referenced component was read, is usable and was pulled from its repository. */
  predicate Pulls(self: Uid, e: DependencyEnv) {
    && e.read.Got? && Usable(self, e.read.resource) && e.read.resource.status.image.Digested?
    && e.repository.RepositoryResolved? && e.pulled.Some?
  }

  /**
   The condition shown for a component that is not pulled: False when it is no component,
   is not found, is not ready for good or has no image; Unknown when its status is of an
   older generation or its readiness is open; the cycle when it contains the resource. A
   read, a repository or a pull that fails says nothing, so what was shown stays.
   */
  predicate FailureShows(self: Uid, e: DependencyEnv, before: Condition, after: Condition) {
    match e.read
    case NotComponent => after == False
    case Missing => after == False
    case ReadError => after == before
    case Got(c) =>
      if OccursIn(SpanOf(c), self) then after == CycleDetected
      else if c.generation != c.status.observedGeneration || ReadyOf(c) == Unknown then after == Unknown
      else if ReadyOf(c) == False || c.status.image.NoImage? then after == False
      else after == before
  }

  /** Something has yet to be reconciled, so the status is not to be written. */
  predicate Postpones(self: Uid, e: DependencyEnv) {
    && e.read.Got? && !OccursIn(SpanOf(e.read.resource), self)
    && (e.read.resource.generation != e.read.resource.status.observedGeneration
        || (ReadyOf(e.read.resource) == True && !e.read.resource.status.image.NoImage? && e.repository.RepositoryStale?))
  }

  /** The condition shown for the repository a resource publishes to. */
  predicate RepositoryShows(lookup: RepositoryLookup, before: Condition, after: Condition) {
    && (lookup.RepositoryResolved? ==> after == True)
    && (lookup.RepositoryMissing? ==> after == False)
    && (lookup.RepositoryStale? ==> after == Unknown)
    && (lookup.RepositoryUnready? ==> after == if lookup.failed then False else Unknown)
    && (lookup.RepositoryError? || lookup.KeychainError? || lookup.TemplateError? ==> after == before)
  }

  /** No other condition is touched. */
  ghost predicate OnlyConditions(s: Status, a: Status, touched: set<ConditionType>) {
    forall t: ConditionType :: t !in touched ==> ConditionOf(a, t) == ConditionOf(s, t)
  }

  /** A span carries the identity, the trace and, if the image is pinned, the digest of what was read. */
  lemma SpanSays(o: Object, digest: string)
    ensures SpanOf(o).uid == o.uid && SpanOf(o).key == o.key && SpanOf(o).trace == o.status.trace && !SpanOf(o).cycleOmitted
    ensures SpanOf(o).digest == digest <==>
              match o.status.image
              case Digested(_, d) => digest == d
              case NoImage => digest == ""
              case Malformed(_) => digest == ""
  {}

  // ---------------------------------------------------------------- how far a composition gets

  /** All dependencies before number k have a reference, are pulled and come with interfaces. */
  predicate Reaches(o: Object, env: Env, k: nat)
    requires o.spec.Composition? && Fits(o.spec, env)
  {
    && k <= |env.dependencies|
    && forall i :: 0 <= i < k ==>
         && o.spec.dependencies[i].ref.Some? && Pulls(o.uid, env.dependencies[i])
         && env.dependencies[i].read.resource.status.wit
  }

  predicate StopsAt(o: Object, env: Env, k: nat)
    requires o.spec.Composition? && Fits(o.spec, env)
  {
    Reaches(o, env, k) && k < |env.dependencies| && o.spec.dependencies[k].ref.Some? && !Pulls(o.uid, env.dependencies[k])
  }

  predicate PanicsAt(o: Object, env: Env, k: nat)
    requires o.spec.Composition? && Fits(o.spec, env)
  {
    && Reaches(o, env, k) && k < |env.dependencies|
    && (o.spec.dependencies[k].ref.None? ||
        (Pulls(o.uid, env.dependencies[k]) && !env.dependencies[k].read.resource.status.wit))
  }

  /** Nothing kept the resolved dependencies from being composed. */
  predicate Composes(o: Object, env: Env)
    requires o.spec.Composition? && Fits(o.spec, env)
  {
    Reaches(o, env, |env.dependencies|) && env.managed && env.repository.RepositoryResolved? && env.child
  }

  predicate Panics(o: Object, env: Env)
    requires o.spec.Composition? && Fits(o.spec, env)
  {
    || (exists k :: 0 <= k < |env.dependencies| && PanicsAt(o, env, k))
    || (Composes(o, env) && (env.dependencies == [] || (!o.spec.plug && o.spec.wac == "")))
  }

  /** A run panics, stops at one dependency or reaches the end. */
  lemma {:induction false} GetsSomewhere(o: Object, env: Env, i: nat)
    requires o.spec.Composition? && Fits(o.spec, env) && Reaches(o, env, i)
    ensures Panics(o, env) || Reaches(o, env, |env.dependencies|) || exists k :: i <= k && StopsAt(o, env, k)
    decreases |env.dependencies| - i
  {
    if i < |env.dependencies| {
      if Reaches(o, env, i + 1) {
        GetsSomewhere(o, env, i + 1);
      } else {
        assert StopsAt(o, env, i) || PanicsAt(o, env, i);
      }
    }
  }

  function SpansRead(o: Object, env: Env, k: nat): seq<Span>
    requires o.spec.Composition? && Fits(o.spec, env) && k <= |env.dependencies|
    requires forall i :: 0 <= i < k ==> env.dependencies[i].read.Got?
  {
    seq(k, i requires 0 <= i < k => SpanOf(env.dependencies[i].read.resource))
  }

  /** The dependencies are listed under their names, with the images that were read. */
  predicate Listed(o: Object, env: Env, k: nat, list: seq<DependencyStatus>)
    requires o.spec.Composition? && Fits(o.spec, env) && Reaches(o, env, k)
  {
    && |list| == k
    && forall i :: 0 <= i < k ==>
         list[i].component == o.spec.dependencies[i].component && list[i].image == env.dependencies[i].read.resource.status.image
  }

  /** The inputs are the pulled components under the dependencies' names. */
  predicate Ordered(o: Object, env: Env, inputs: seq<(string, Bytes)>)
    requires o.spec.Composition? && Fits(o.spec, env) && Reaches(o, env, |env.dependencies|)
  {
    && |inputs| == |env.dependencies|
    && forall i :: 0 <= i < |inputs| ==> inputs[i].0 == o.spec.dependencies[i].component && inputs[i].1 == env.dependencies[i].pulled.value
  }

  // ---------------------------------------------------------------- what a composition's run leaves

  const COMPOSITION_CONDITIONS := {RepositoryReady, DependenciesResolved, ComponentPushed}

  /** The run stops at dependency k. */
  ghost predicate Stopped(o: Object, s: Status, env: Env, k: nat, r: Result)
    requires o.spec.Composition? && Fits(o.spec, env) && StopsAt(o, env, k)
  {
    var e := env.dependencies[k];
    var cyclic := e.read.Got? && OccursIn(SpanOf(e.read.resource), o.uid);
    && r.Ended? && r.calls == [] && r.skip == (env.repository.RepositoryStale? || Postpones(o.uid, e))
    && FailureShows(o.uid, e, if k > 0 then True else ConditionOf(s, DependenciesResolved), ConditionOf(r.status, DependenciesResolved))
    && RepositoryShows(env.repository, ConditionOf(s, RepositoryReady), ConditionOf(r.status, RepositoryReady))
    && OnlyConditions(s, r.status, {RepositoryReady, DependenciesResolved})
    && r.status.image == s.image && r.status.wit == s.wit && r.status.observedGeneration == s.observedGeneration
    && r.status.trace == (if cyclic then Prune(SpansRead(o, env, k + 1), o.uid) else s.trace)
    && Listed(o, env, k, r.status.dependencies)
  }

  /** The run resolves every dependency. */
  ghost predicate Finished(o: Object, s: Status, env: Env, r: Result)
    requires o.spec.Composition? && Fits(o.spec, env) && Reaches(o, env, |env.dependencies|)
  {
    var n := |env.dependencies|;
    var pushes := Composes(o, env) && env.composed.Some?;
    var published := pushes && env.pushed.Some?;
    && r.Ended? && r.skip == env.repository.RepositoryStale?
    && ConditionOf(r.status, DependenciesResolved) == (if n > 0 then True else ConditionOf(s, DependenciesResolved))
    && RepositoryShows(env.repository, ConditionOf(s, RepositoryReady), ConditionOf(r.status, RepositoryReady))
    && ConditionOf(r.status, ComponentPushed) ==
         (if published then True else if pushes then False else ConditionOf(s, ComponentPushed))
    && OnlyConditions(s, r.status, COMPOSITION_CONDITIONS)
    && r.status.image == (if published then Digested(env.repository.tag.repository, env.pushed.value) else s.image)
    && r.status.trace == (if published then SpansRead(o, env, n) else s.trace)
    && r.status.wit == (published || s.wit) && r.status.observedGeneration == s.observedGeneration
    && Listed(o, env, n, r.status.dependencies)
    && |r.calls| == (if pushes then 2 else if Composes(o, env) then 1 else 0)
    && (Composes(o, env) ==> r.calls[0].Compose? && Ordered(o, env, r.calls[0].inputs))
    && (pushes ==> n > 0 && Pushes(r.calls[1], env))
  }

  /** The push goes to the resource's own tag, with its own keychain followed by the last dependency's. */
  predicate Pushes(call: Call, env: Env)
    requires env.CompositionEnv? && env.repository.RepositoryResolved? && env.composed.Some?
    requires env.dependencies != [] && env.dependencies[|env.dependencies| - 1].repository.RepositoryResolved?
  {
    && call.Push? && call.tag == env.repository.tag && call.component == env.composed.value
    && call.keychain == env.repository.keychain + env.dependencies[|env.dependencies| - 1].repository.keychain
  }

  ghost predicate CompositionOutcome(o: Object, s: Status, env: Env, r: Result)
    requires o.spec.Composition? && Fits(o.spec, env)
  {
    && (r.Panicked? <==> Panics(o, env))
    && (forall k :: 0 <= k < |env.dependencies| && StopsAt(o, env, k) ==> Stopped(o, s, env, k, r))
    && (Reaches(o, env, |env.dependencies|) && !Panics(o, env) ==> Finished(o, s, env, r))
  }

  // ---------------------------------------------------------------- proof

  function EntriesTo(o: Object, env: Env, k: nat): (r: seq<Resolved>)
    requires o.spec.Composition? && Fits(o.spec, env) && Reaches(o, env, k)
    ensures |r| == k
  {
    seq(k, i requires 0 <= i < k =>
      Resolved(o.spec.dependencies[i].component, env.dependencies[i].read.resource.status.image, env.dependencies[i].pulled.value))
  }

  function MarkedTo(s: Status, k: nat): Status { if k == 0 then s else Mark(s, DependenciesResolved, True) }

  function KeychainTo(o: Object, env: Env, k: nat): Keychain
    requires o.spec.Composition? && Fits(o.spec, env) && Reaches(o, env, k)
  {
    if k == 0 then [] else env.dependencies[k - 1].repository.keychain
  }

  /** The status a resolution that stops at dependency k leaves. */
  ghost predicate StoppedStatus(o: Object, s: Status, env: Env, k: nat, f: Status)
    requires o.spec.Composition? && Fits(o.spec, env) && StopsAt(o, env, k)
  {
    var e := env.dependencies[k];
    var cyclic := e.read.Got? && OccursIn(SpanOf(e.read.resource), o.uid);
    && FailureShows(o.uid, e, if k > 0 then True else ConditionOf(s, DependenciesResolved), ConditionOf(f, DependenciesResolved))
    && OnlyConditions(s, f, {DependenciesResolved})
    && f == s.(conditions := f.conditions, trace := if cyclic then Prune(SpansRead(o, env, k + 1), o.uid) else s.trace)
  }

  lemma SpansReadFree(o: Object, env: Env, k: nat)
    requires o.spec.Composition? && Fits(o.spec, env) && Reaches(o, env, k)
    ensures !Occurs(SpansRead(o, env, k), o.uid)
  {}

  /** One step of resolving that does not get past its dependency. */
  lemma StepStops(o: Object, s: Status, env: Env, k: nat)
    requires o.spec.Composition? && Fits(o.spec, env) && StopsAt(o, env, k)
    ensures var r := ResolveDependencies(o.uid, o.spec.dependencies[k..], env.dependencies[k..], MarkedTo(s, k),
                                         SpansRead(o, env, k), EntriesTo(o, env, k), KeychainTo(o, env, k));
            && r.ResolutionFailed? && r.resolved == EntriesTo(o, env, k) && r.skip == Postpones(o.uid, env.dependencies[k])
            && StoppedStatus(o, s, env, k, r.status)
  {
    var e := env.dependencies[k];
    SpansReadFree(o, env, k);
    if e.read.Got? {
      OccursNext(SpansRead(o, env, k), SpanOf(e.read.resource), o.uid);
      assert SpansRead(o, env, k) + [SpanOf(e.read.resource)] == SpansRead(o, env, k + 1);
    }
  }

  lemma StepPanics(o: Object, s: Status, env: Env, k: nat)
    requires o.spec.Composition? && Fits(o.spec, env) && PanicsAt(o, env, k)
    ensures ResolveDependencies(o.uid, o.spec.dependencies[k..], env.dependencies[k..], MarkedTo(s, k),
                                SpansRead(o, env, k), EntriesTo(o, env, k), KeychainTo(o, env, k)).ResolutionPanic?
  {
    SpansReadFree(o, env, k);
    if o.spec.dependencies[k].ref.Some? {
      OccursNext(SpansRead(o, env, k), SpanOf(env.dependencies[k].read.resource), o.uid);
    }
  }

  lemma StepPasses(o: Object, s: Status, env: Env, k: nat)
    requires o.spec.Composition? && Fits(o.spec, env) && k < |env.dependencies| && Reaches(o, env, k + 1)
    ensures Reaches(o, env, k)
    ensures ResolveDependencies(o.uid, o.spec.dependencies[k..], env.dependencies[k..], MarkedTo(s, k),
                                SpansRead(o, env, k), EntriesTo(o, env, k), KeychainTo(o, env, k))
         == ResolveDependencies(o.uid, o.spec.dependencies[k + 1..], env.dependencies[k + 1..], MarkedTo(s, k + 1),
                                SpansRead(o, env, k + 1), EntriesTo(o, env, k + 1), KeychainTo(o, env, k + 1))
  {
    var c := env.dependencies[k].read.resource;
    assert Pulls(o.uid, env.dependencies[k]);
    SpansReadFree(o, env, k);
    OccursNext(SpansRead(o, env, k), SpanOf(c), o.uid);
    assert SpansRead(o, env, k) + [SpanOf(c)] == SpansRead(o, env, k + 1);
    assert EntriesTo(o, env, k) + [Resolved(o.spec.dependencies[k].component, c.status.image, env.dependencies[k].pulled.value)]
        == EntriesTo(o, env, k + 1);
    assert Mark(MarkedTo(s, k), DependenciesResolved, True) == MarkedTo(s, k + 1);
    assert o.spec.dependencies[k..][1..] == o.spec.dependencies[k + 1..];
    assert env.dependencies[k..][1..] == env.dependencies[k + 1..];
  }

  lemma ArrivesFirst(o: Object, s: Status, env: Env)
    requires o.spec.Composition? && Fits(o.spec, env)
    ensures Reaches(o, env, 0)
    ensures ResolveDependencies(o.uid, o.spec.dependencies, env.dependencies, s, [], [], [])
         == ResolveDependencies(o.uid, o.spec.dependencies[0..], env.dependencies[0..], MarkedTo(s, 0),
                                SpansRead(o, env, 0), EntriesTo(o, env, 0), KeychainTo(o, env, 0))
  {
    assert o.spec.dependencies[0..] == o.spec.dependencies && env.dependencies[0..] == env.dependencies;
    assert SpansRead(o, env, 0) == [] && EntriesTo(o, env, 0) == [];
  }

  /** Reaching dependency k means arriving there with everything before it collected. */
  lemma {:induction false} Arrives(o: Object, s: Status, env: Env, k: nat)
    requires o.spec.Composition? && Fits(o.spec, env) && Reaches(o, env, k)
    ensures ResolveDependencies(o.uid, o.spec.dependencies, env.dependencies, s, [], [], [])
         == ResolveDependencies(o.uid, o.spec.dependencies[k..], env.dependencies[k..], MarkedTo(s, k),
                                SpansRead(o, env, k), EntriesTo(o, env, k), KeychainTo(o, env, k))
    decreases k
  {
    if k == 0 {
      ArrivesFirst(o, s, env);
    } else {
      assert Reaches(o, env, k - 1);
      Arrives(o, s, env, k - 1);
      StepPasses(o, s, env, k - 1);
    }
  }

  lemma RepositoryField(s: Status, t: ConditionType, lookup: RepositoryLookup)
    ensures var m := MarkRepository(s, t, lookup);
            && RepositoryShows(lookup, ConditionOf(s, t), ConditionOf(m, t))
            && OnlyConditions(s, m, {t}) && m == s.(conditions := m.conditions)
  {}

  lemma RunStops(o: Object, s: Status, env: Env, k: nat)
    requires o.spec.Composition? && Fits(o.spec, env) && StopsAt(o, env, k)
    ensures Stopped(o, s, env, k, CompositionRun(o, s, env))
  {
    Arrives(o, s, env, k);
    StepStops(o, s, env, k);
    var whole := ResolveDependencies(o.uid, o.spec.dependencies, env.dependencies, s, [], [], []);
    var f := whole.status.(dependencies := Statuses(whole.resolved));
    assert OnlyConditions(whole.status, f, {});
    RepositoryField(f, RepositoryReady, env.repository);
  }

  lemma RunPanics(o: Object, s: Status, env: Env)
    requires o.spec.Composition? && Fits(o.spec, env) && Panics(o, env)
    ensures CompositionRun(o, s, env).Panicked?
  {
    if k: nat :| k < |env.dependencies| && PanicsAt(o, env, k) {
      Arrives(o, s, env, k);
      StepPanics(o, s, env, k);
    } else {
      var f, spans, entries, keychain := ResolvedAll(o, s, env);
    }
  }

  lemma ResolvedAll(o: Object, s: Status, env: Env) returns (f: Status, spans: seq<Span>, entries: seq<Resolved>, keychain: Keychain)
    requires o.spec.Composition? && Fits(o.spec, env) && Reaches(o, env, |env.dependencies|)
    ensures f == MarkedTo(s, |env.dependencies|) && spans == SpansRead(o, env, |env.dependencies|)
    ensures entries == EntriesTo(o, env, |env.dependencies|) && keychain == KeychainTo(o, env, |env.dependencies|)
    ensures ResolveDependencies(o.uid, o.spec.dependencies, env.dependencies, s, [], [], []) == AllResolved(f, spans, entries, keychain)
  {
    var n := |env.dependencies|;
    f, spans, entries, keychain := MarkedTo(s, n), SpansRead(o, env, n), EntriesTo(o, env, n), KeychainTo(o, env, n);
    Arrives(o, s, env, n);
  }

  lemma ComposeFinishes(o: Object, s: Status, env: Env, marked: Status, entries: seq<Resolved>, keychain: Keychain)
    requires o.spec.Composition? && Fits(o.spec, env) && Reaches(o, env, |env.dependencies|) && !Panics(o, env)
    requires entries == EntriesTo(o, env, |env.dependencies|) && keychain == KeychainTo(o, env, |env.dependencies|)
    requires marked == s.(conditions := marked.conditions, dependencies := Statuses(entries))
    requires ConditionOf(marked, DependenciesResolved) == if env.dependencies != [] then True else ConditionOf(s, DependenciesResolved)
    requires RepositoryShows(env.repository, ConditionOf(s, RepositoryReady), ConditionOf(marked, RepositoryReady))
    requires OnlyConditions(s, marked, {RepositoryReady, DependenciesResolved})
    ensures Finished(o, s, env, ComposeRun(o, marked, env, SpansRead(o, env, |env.dependencies|), entries, keychain))
  {
    assert Listed(o, env, |env.dependencies|, Statuses(entries));
    assert Ordered(o, env, Inputs(entries));
  }

  lemma RunFinishes(o: Object, s: Status, env: Env)
    requires o.spec.Composition? && Fits(o.spec, env) && Reaches(o, env, |env.dependencies|) && !Panics(o, env)
    ensures Finished(o, s, env, CompositionRun(o, s, env))
  {
    var f, spans, entries, keychain := ResolvedAll(o, s, env);
    var listed := f.(dependencies := Statuses(entries));
    var marked := MarkRepository(listed, RepositoryReady, env.repository);
    RepositoryField(listed, RepositoryReady, env.repository);
    assert ConditionOf(listed, RepositoryReady) == ConditionOf(s, RepositoryReady);
    ComposeFinishes(o, s, env, marked, entries, keychain);
  }

  /** A composition's run leaves exactly this, whatever is read. */
  lemma CompositionLeaves(o: Object, s: Status, env: Env)
    requires o.spec.Composition? && Fits(o.spec, env)
    ensures CompositionOutcome(o, s, env, CompositionRun(o, s, env))
  {
    forall k | 0 <= k < |env.dependencies| && StopsAt(o, env, k) ensures Stopped(o, s, env, k, CompositionRun(o, s, env)) {
      RunStops(o, s, env, k);
    }
    GetsSomewhere(o, env, 0);
    if Panics(o, env) {
      RunPanics(o, s, env);
    } else if Reaches(o, env, |env.dependencies|) {
      RunFinishes(o, s, env);
    }
  }

  // ---------------------------------------------------------------- readiness

  /** Ready is True when all the conditions of the kind are, False when one of them is, and Unknown otherwise. */
  predicate SumsUp(s: Status, conditions: seq<ConditionType>, ready: Condition) {
    && (ready == True <==> forall i :: 0 <= i < |conditions| ==> ConditionOf(s, conditions[i]) == True)
    && (ready == False <==> exists i :: 0 <= i < |conditions| && ConditionOf(s, conditions[i]) in {False, CycleDetected})
    && ready in {True, False, Unknown}
  }

  /** Which conditions each kind's readiness sums up. */
  lemma ReadySumsUp(o: Object)
    ensures match o.spec
            case Component(_, _) => SumsUp(o.status, [RepositoryReady, ComponentCopied], ReadyOf(o))
            case Composition(_, _, _) => SumsUp(o.status, [RepositoryReady, DependenciesResolved, ComponentPushed], ReadyOf(o))
            case ContainerImage(_, _) => SumsUp(o.status, [ImageReady, RepositoryReady, ComponentPulled, Pushed], ReadyOf(o))
            case ConfigStore => SumsUp(o.status, [RepositoryReady, ConfigResolved, ComponentPushed], ReadyOf(o))
            case Image(_) => SumsUp(o.status, [RepositoryReady, ImageCopied], ReadyOf(o))
  {
    var conditions :=
      match o.spec
      case Component(_, _) => [RepositoryReady, ComponentCopied]
      case Composition(_, _, _) => [RepositoryReady, DependenciesResolved, ComponentPushed]
      case ContainerImage(_, _) => [ImageReady, RepositoryReady, ComponentPulled, Pushed]
      case ConfigStore => [RepositoryReady, ConfigResolved, ComponentPushed]
      case Image(_) => [RepositoryReady, ImageCopied];
    SummedUp(o, conditions);
  }

  lemma SummedUp(o: Object, conditions: seq<ConditionType>)
    requires forall t :: t in Dependents(o.spec) <==> t in conditions
    ensures SumsUp(o.status, conditions, ReadyOf(o))
  {
    assert forall i :: 0 <= i < |conditions| ==> conditions[i] in Dependents(o.spec);
    if t :| t in Dependents(o.spec) && ConditionOf(o.status, t) in {False, CycleDetected} {
      var i :| 0 <= i < |conditions| && conditions[i] == t;
    }
  }

  /** The dependency cannot be had as things stand. */
  predicate FailsForNow(self: Uid, e: DependencyEnv) {
    match e.read
    case NotComponent => true
    case Missing => true
    case ReadError => false
    case Got(c) =>
      || OccursIn(SpanOf(c), self)
      || (c.generation == c.status.observedGeneration
          && (ReadyOf(c) == False || (ReadyOf(c) == True && c.status.image.NoImage?)))
  }

  /** The dependency has yet to be reconciled or to become ready. */
  predicate Waits(self: Uid, e: DependencyEnv) {
    && e.read.Got? && !OccursIn(SpanOf(e.read.resource), self)
    && (e.read.resource.generation != e.read.resource.status.observedGeneration || ReadyOf(e.read.resource) == Unknown)
  }

  /**
   The composition's own readiness after stopping: False when the first dependency that
   does not pass cannot be had; when it only waits, Unknown, unless its repository or an
   earlier push has failed.
   */
  lemma StoppedReadiness(o: Object, s: Status, env: Env, k: nat)
    requires o.spec.Composition? && Fits(o.spec, env) && StopsAt(o, env, k) && CompositionRun(o, s, env).Ended?
    ensures var ready := ReadyOf(o.(status := CompositionRun(o, s, env).status));
            var e := env.dependencies[k];
            && (FailsForNow(o.uid, e) ==> ready == False)
            && (Waits(o.uid, e) ==>
                  ready == if RepositoryFails(env.repository, ConditionOf(s, RepositoryReady)) || IsFalse(ConditionOf(s, ComponentPushed))
                           then False else Unknown)
  {
    RunStops(o, s, env, k);
    var after := CompositionRun(o, s, env).status;
    var conditions := [RepositoryReady, DependenciesResolved, ComponentPushed];
    ReadySumsUp(o.(status := after));
    assert conditions[1] == DependenciesResolved && conditions[0] == RepositoryReady && conditions[2] == ComponentPushed;
    assert ConditionOf(after, ComponentPushed) == ConditionOf(s, ComponentPushed);
  }

  /** The repository's condition ends False. */
  predicate RepositoryFails(lookup: RepositoryLookup, before: Condition) {
    || lookup.RepositoryMissing?
    || (lookup.RepositoryUnready? && lookup.failed)
    || ((lookup.RepositoryError? || lookup.KeychainError? || lookup.TemplateError?) && IsFalse(before))
  }
}
