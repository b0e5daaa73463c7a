/**
 A run of the protocol that ends with a ready composition whose trace was cut: completed,
 edited to reference itself, flagged, edited back, and then stopped by a read error.
 */
module StaleTraces {
  import opened Base
  import opened Spans
  import opened Resources
  import opened Runs
  import opened Protocol
  import opened Shapes
  import opened Readiness

  const PART_KEY := Key("wa8s.reconciler.io", "Component", "default", "part")
  const WHOLE_KEY := Key("wa8s.reconciler.io", "Composition", "default", "whole")

  const PART := Object("1", PART_KEY, 1, Component(Some("registry/part"), None), INITIAL_STATUS)
  const TWO_PARTS := Composition(true, "", [Dependency("first", Some(PART_KEY)), Dependency("second", Some(PART_KEY))])
  const ITSELF := Composition(true, "", [Dependency("first", Some(WHOLE_KEY)), Dependency("second", Some(PART_KEY))])
  const WHOLE := Object("2", WHOLE_KEY, 1, TWO_PARTS, INITIAL_STATUS)

  const FOUND := RepositoryResolved([], Tag("registry", "latest"))

  const COPYING := ComponentEnv(FOUND, AccountResolved([]), Some("sha256:part"), Missing, true, true)
  const COPIED_STATUS :=
    Status(1, map[RepositoryReady := True, ComponentCopied := True], Digested("registry", "sha256:part"), true, [], [])
  const COPIED := PART.(status := COPIED_STATUS)

  function Reading(r: Object): DependencyEnv { DependencyEnv(Got(r), FOUND, Some([])) }

  function Resolving(first: DependencyEnv, second: DependencyEnv): Env {
    CompositionEnv(true, [first, second], FOUND, true, Some([]), Some("sha256:whole"))
  }

  const LISTED := [DependencyStatus("first", COPIED_STATUS.image), DependencyStatus("second", COPIED_STATUS.image)]
  const ALL_TRUE := map[DependenciesResolved := True, RepositoryReady := True, ComponentPushed := True]
  const COMPLETE := WHOLE.(status := Status(1, ALL_TRUE, Digested("registry", "sha256:whole"), true, [SpanOf(COPIED), SpanOf(COPIED)], LISTED))
  const SELFISH := COMPLETE.(spec := ITSELF, generation := 2)
  const CUT := [SpanOf(SELFISH).(trace := [], cycleOmitted := true)]
  const FLAGGED := SELFISH.(status := SELFISH.status.(observedGeneration := 2, trace := CUT, dependencies := [],
                                                     conditions := ALL_TRUE[DependenciesResolved := CycleDetected]))
  const REPAIRED := FLAGGED.(spec := TWO_PARTS, generation := 3)
  const STALE := REPAIRED.(status := REPAIRED.status.(observedGeneration := 3, conditions := ALL_TRUE,
                                                     dependencies := [DependencyStatus("first", COPIED_STATUS.image)]))

  const START := World(map["1" := PART, "2" := WHOLE], {PART, WHOLE})

  const STEPS: seq<Action> := [
    Reconcile("1", COPYING, true, true),
    Reconcile("2", Resolving(Reading(COPIED), Reading(COPIED)), true, true),
    Edit("2", ITSELF),
    Reconcile("2", Resolving(Reading(SELFISH), Reading(COPIED)), false, true),
    Edit("2", TWO_PARTS),
    Reconcile("2", Resolving(Reading(COPIED), DependencyEnv(ReadError, FOUND, None)), false, true)
  ]

  /** One more step of a run. */
  lemma Extend(w: World, acts: seq<Action>, a: Action)
    requires Legal(w, acts) && Enabled(Exec(w, acts), a)
    ensures Legal(w, acts + [a]) && Exec(w, acts + [a]) == Apply(Exec(w, acts), a)
  {
    assert (acts + [a])[..|acts|] == acts;
  }

  /** The actions lead to a world of the two resources, with the component copied and the composition as given. */
  ghost predicate LeadsTo(acts: seq<Action>, whole: Object) {
    && Legal(START, acts)
    && var w := Exec(START, acts);
       w.objects.Keys == {"1", "2"} && w.objects["2"] == whole && {COPIED, whole} <= w.history
  }

  /** The composition runs once more and its status is written. */
  lemma RunsTo(acts: seq<Action>, o: Object, env: Env, restart: bool, next: Object) returns (more: seq<Action>)
    requires LeadsTo(acts, o) && o.uid == "2" && Fits(o.spec, env) && EnvFrom({COPIED, o}, o.spec, env)
    requires var r := Run(o, Start(o, restart), env);
             r.Ended? && !r.skip && next == o.(status := r.status.(observedGeneration := o.generation))
    ensures more == acts + [Reconcile("2", env, restart, true)] && LeadsTo(more, next)
  {
    var a := Reconcile("2", env, restart, true);
    more := acts + [a];
    EnvFromMore({COPIED, o}, Exec(START, acts).history, o.spec, env);
    Extend(START, acts, a);
    assert Exec(START, more) == Put(Exec(START, acts), next);
  }

  lemma EnvFromMore(h: set<Object>, more: set<Object>, spec: Spec, env: Env)
    requires Fits(spec, env) && EnvFrom(h, spec, env) && h <= more
    ensures EnvFrom(more, spec, env)
  {}

  /** The composition is edited. */
  lemma EditsTo(acts: seq<Action>, o: Object, spec: Spec) returns (more: seq<Action>)
    requires LeadsTo(acts, o) && o.uid == "2" && KindFits(o.key, spec)
    ensures more == acts + [Edit("2", spec)] && LeadsTo(more, o.(spec := spec, generation := o.generation + 1))
  {
    more := acts + [Edit("2", spec)];
    Extend(START, acts, Edit("2", spec));
  }

  lemma CopyStep()
    ensures ComponentRun(PART, INITIAL_STATUS, COPYING) == Ended(COPIED_STATUS.(observedGeneration := 0), false, [Copy(FOUND.tag, [], "sha256:part")])
  {
    var empty: Keychain := [];
    assert empty + empty == empty;
  }

  lemma PassesPart(spans: seq<Span>)
    requires !Occurs(spans, "2")
    ensures Passes("2", Reading(COPIED), spans)
  {
    assert !Occurs(COPIED.status.trace, "2");
    OccursAppend(spans, [SpanOf(COPIED)], "2");
    assert !Occurs([SpanOf(COPIED)], "2");
  }

  lemma ResolvePart(deps: seq<Dependency>, envs: seq<DependencyEnv>, s: Status, spans: seq<Span>, resolved: seq<Resolved>)
    requires |deps| == |envs| && deps != [] && deps[0].ref.Some? && Passes("2", envs[0], spans)
    ensures ResolveDependencies("2", deps, envs, s, spans, resolved, [])
         == ResolveDependencies("2", deps[1..], envs[1..], Mark(s, DependenciesResolved, True), spans + [SpanOf(envs[0].read.resource)],
                                resolved + [Resolved(deps[0].component, envs[0].read.resource.status.image, envs[0].pulled.value)],
                                envs[0].repository.keychain)
  {}

  lemma CompleteStep()
    ensures var r := CompositionRun(WHOLE, INITIAL_STATUS, Resolving(Reading(COPIED), Reading(COPIED)));
            r.Ended? && !r.skip && r.status == COMPLETE.status.(observedGeneration := 0)
  {
    var deps, envs := TWO_PARTS.dependencies, [Reading(COPIED), Reading(COPIED)];
    var one := [Resolved("first", COPIED_STATUS.image, [])];
    var two := [Resolved("first", COPIED_STATUS.image, []), Resolved("second", COPIED_STATUS.image, [])];
    var marked := Mark(INITIAL_STATUS, DependenciesResolved, True);
    PassesPart([]);
    ResolvePart(deps, envs, INITIAL_STATUS, [], []);
    assert [] + [SpanOf(COPIED)] == [SpanOf(COPIED)] && [] + one == one && one + two[1..] == two;
    PassesPart([SpanOf(COPIED)]);
    ResolvePart(deps[1..], envs[1..], marked, [SpanOf(COPIED)], one);
    assert deps[1..][1..] == [] && envs[1..][1..] == [];
    assert ResolveDependencies("2", deps, envs, INITIAL_STATUS, [], [], [])
        == AllResolved(Mark(marked, DependenciesResolved, True), [SpanOf(COPIED), SpanOf(COPIED)], two, []);
    assert Statuses(two) == LISTED;
  }

  lemma FlaggedStep()
    ensures var r := CompositionRun(SELFISH, SELFISH.status, Resolving(Reading(SELFISH), Reading(COPIED)));
            r.Ended? && !r.skip && r.status == FLAGGED.status.(observedGeneration := 1)
  {
    var spans := [] + [SpanOf(SELFISH)];
    assert spans[0].uid == "2" && OccursIn(spans[0], "2");
    assert Prune(spans, "2") == CUT;
  }

  lemma StaleStep()
    ensures var r := CompositionRun(REPAIRED, REPAIRED.status, Resolving(Reading(COPIED), DependencyEnv(ReadError, FOUND, None)));
            r.Ended? && !r.skip && r.status == STALE.status.(observedGeneration := 2)
  {
    var deps, envs := TWO_PARTS.dependencies, [Reading(COPIED), DependencyEnv(ReadError, FOUND, None)];
    var one := [Resolved("first", COPIED_STATUS.image, [])];
    var marked := Mark(REPAIRED.status, DependenciesResolved, True);
    PassesPart([]);
    ResolvePart(deps, envs, REPAIRED.status, [], []);
    assert [] + [SpanOf(COPIED)] == [SpanOf(COPIED)] && [] + one == one;
    assert ResolveDependencies("2", deps, envs, REPAIRED.status, [], [], []) == ResolutionFailed(marked, false, one);
    assert Statuses(one) == STALE.status.dependencies;
  }

  /** The component is copied first. */
  lemma CopiesFirst()
    ensures LeadsTo([STEPS[0]], WHOLE)
  {
    CopyStep();
    assert Exec(START, []) == START;
    Extend(START, [], STEPS[0]);
    assert [] + [STEPS[0]] == [STEPS[0]];
    assert Exec(START, [STEPS[0]]) == Put(START, COPIED);
  }

  /** Then the composition completes. */
  lemma Completes() returns (acts: seq<Action>)
    ensures acts == [STEPS[0], STEPS[1]] && LeadsTo(acts, COMPLETE)
  {
    CopiesFirst();
    CompleteStep();
    acts := RunsTo([STEPS[0]], WHOLE, Resolving(Reading(COPIED), Reading(COPIED)), true, COMPLETE);
  }

  /** It is edited to reference itself, and its next run reports that. */
  lemma ReportsCycle() returns (acts: seq<Action>)
    ensures acts == [STEPS[0], STEPS[1], STEPS[2], STEPS[3]] && LeadsTo(acts, FLAGGED)
  {
    acts := Completes();
    acts := EditsTo(acts, COMPLETE, ITSELF);
    FlaggedStep();
    acts := RunsTo(acts, SELFISH, Resolving(Reading(SELFISH), Reading(COPIED)), false, FLAGGED);
  }

  /** It is edited back, and its next run fails to read the second dependency. */
  lemma FailsQuietlyAfter() returns (acts: seq<Action>)
    ensures acts == STEPS && LeadsTo(acts, STALE)
  {
    acts := ReportsCycle();
    acts := EditsTo(acts, FLAGGED, TWO_PARTS);
    StaleStep();
    acts := RunsTo(acts, REPAIRED, Resolving(Reading(COPIED), DependencyEnv(ReadError, FOUND, None)), false, STALE);
  }

  /**
   A composition can be ready with a cut trace: its cycle was reported while its push was
   still on record, and the first dependency alone made the condition True again.
   */
  lemma ReadyWithCutTrace()
    ensures Init(START) && Legal(START, STEPS) && Exec(START, STEPS).objects.Keys == {"1", "2"}
    ensures var o := Exec(START, STEPS).objects["2"];
            Ready(o) && o.spec == TWO_PARTS && |o.status.trace| == 1 && o.status.trace[0].uid == o.uid && o.status.trace[0].cycleOmitted
  {
    var acts := FailsQuietlyAfter();
    assert Ready(STALE);
    assert START.objects["1"] == PART && START.objects["2"] == WHOLE;
    assert START.history == set u | u in START.objects :: START.objects[u];
  }
}
