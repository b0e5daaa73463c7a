/**
 Inline dependencies of a composition: each becomes a child resource, and a reference to
 the child is written back into the composition's own spec in memory.
 */
module Expansion {
  import opened Base
  import opened Admission

  /** The three kinds of inline dependency, in the order they are managed. */
  datatype Kind = ConfigStoreKind | ComponentKind | CompositionKind

  function KindName(kind: Kind): string {
    match kind
    case ConfigStoreKind => "ConfigStore"
    case ComponentKind => "Component"
    case CompositionKind => "Composition"
  }

  datatype ChildSpec =
    | ConfigStoreChild(config: ConfigSpec)
    | ComponentChild(oci: OCIReference)
    | CompositionChild(composition: CompositionSpec)

  /** A desired child; `dependency` is the annotation it is identified by, and it has no repository of its own yet. */
  datatype Child = Child(namespace: string, generateName: string, dependency: string, repository: RepositoryReference, spec: ChildSpec)

  function Inline(d: CompositionDependency, kind: Kind): Option<ChildSpec> {
    match kind
    case ConfigStoreKind => if d.config.Some? then Some(ConfigStoreChild(d.config.value)) else None
    case ComponentKind => if d.oci.Some? then Some(ComponentChild(d.oci.value)) else None
    case CompositionKind => if d.composition.Some? then Some(CompositionChild(d.composition.value)) else None
  }

  function ChildOf(c: Scope, d: CompositionDependency, kind: Kind): Child
    requires Inline(d, kind).Some?
  {
    Child(c.namespace, c.name + "-", d.component, RepositoryReference("", ""), Inline(d, kind).value)
  }

  function Children(c: Scope, deps: seq<CompositionDependency>, kind: Kind): seq<Child> {
    if deps == [] then []
    else Children(c, deps[..|deps| - 1], kind) + (if Inline(deps[|deps| - 1], kind).Some? then [ChildOf(c, deps[|deps| - 1], kind)] else [])
  }

  /** The loop of the three `DesiredChildren` functions. */
  method DesiredChildren(c: Scope, deps: seq<CompositionDependency>, kind: Kind) returns (children: seq<Child>)
    ensures children == Children(c, deps, kind)
    ensures exists at :: DesiredFor(c, deps, kind, children, at)
  {
    children := [];
    for i := 0 to |deps|
      invariant children == Children(c, deps[..i], kind)
    {
      assert deps[..i + 1][..i] == deps[..i];
      if Inline(deps[i], kind).None? {
        continue;
      }
      children := children + [ChildOf(c, deps[i], kind)];
    }
    assert deps[..|deps|] == deps;
    ghost var at := ChildrenDesired(c, deps, kind);
  }

  /** The dependency asks for a child of the kind. */
  predicate AsksFor(d: CompositionDependency, kind: Kind) {
    match kind
    case ConfigStoreKind => d.config.Some?
    case ComponentKind => d.oci.Some?
    case CompositionKind => d.composition.Some?
  }

  /** The child a dependency asks for: its inline spec, in the parent's namespace and named after the parent. */
  predicate ChildFor(c: Scope, d: CompositionDependency, kind: Kind, child: Child) {
    && child.namespace == c.namespace && child.generateName == c.name + "-"
    && child.dependency == d.component && child.repository == RepositoryReference("", "")
    && match kind
       case ConfigStoreKind => d.config.Some? && child.spec == ConfigStoreChild(d.config.value)
       case ComponentKind => d.oci.Some? && child.spec == ComponentChild(d.oci.value)
       case CompositionKind => d.composition.Some? && child.spec == CompositionChild(d.composition.value)
  }

  predicate Rising(at: seq<nat>, n: nat) {
    (forall j :: 0 <= j < |at| ==> at[j] < n) && forall j, k :: 0 <= j < k < |at| ==> at[j] < at[k]
  }

  /** Child number j is for dependency number at[j], in order, and none that asks for one goes without. */
  ghost predicate DesiredFor(c: Scope, deps: seq<CompositionDependency>, kind: Kind, children: seq<Child>, at: seq<nat>) {
    && |at| == |children| && Rising(at, |deps|)
    && (forall j :: 0 <= j < |at| ==> ChildFor(c, deps[at[j]], kind, children[j]))
    && (forall i :: 0 <= i < |deps| && AsksFor(deps[i], kind) ==> i in at)
  }

  lemma {:induction false} ChildrenDesired(c: Scope, deps: seq<CompositionDependency>, kind: Kind) returns (at: seq<nat>)
    ensures DesiredFor(c, deps, kind, Children(c, deps, kind), at)
    decreases |deps|
  {
    at := [];
    if deps != [] {
      var init, last := deps[..|deps| - 1], deps[|deps| - 1];
      at := ChildrenDesired(c, init, kind);
      assert init + [last] == deps;
      var children := Children(c, init, kind);
      if Inline(last, kind).Some? {
        assert ChildFor(c, last, kind, ChildOf(c, last, kind));
        DesiredMore(c, init, last, kind, children, at, ChildOf(c, last, kind));
        at := at + [|init|];
      } else {
        DesiredSame(c, init, last, kind, children, at);
      }
    }
  }

  lemma DesiredMore(c: Scope, init: seq<CompositionDependency>, last: CompositionDependency, kind: Kind, children: seq<Child>, at: seq<nat>, child: Child)
    requires DesiredFor(c, init, kind, children, at) && ChildFor(c, last, kind, child)
    ensures DesiredFor(c, init + [last], kind, children + [child], at + [|init|])
  {
    var deps, more := init + [last], at + [|init|];
    assert deps[|init|] == last && forall i :: 0 <= i < |init| ==> deps[i] == init[i];
    assert more[|at|] == |init| && forall j :: 0 <= j < |at| ==> more[j] == at[j];
    forall i | 0 <= i < |deps| && AsksFor(deps[i], kind) ensures i in more {
      if i == |init| {
        assert more[|at|] == i;
      } else {
        assert i in at;
      }
    }
  }

  lemma DesiredSame(c: Scope, init: seq<CompositionDependency>, last: CompositionDependency, kind: Kind, children: seq<Child>, at: seq<nat>)
    requires DesiredFor(c, init, kind, children, at) && !AsksFor(last, kind)
    ensures DesiredFor(c, init + [last], kind, children, at)
  {
    var deps := init + [last];
    assert deps[|init|] == last && forall i :: 0 <= i < |init| ==> deps[i] == init[i];
  }

  // ---------------------------------------------------------------- children are admitted

  function DefaultChild(c: Scope, child: Child): Child {
    child.(repository := DefaultRepository(child.repository),
           spec := match child.spec
                   case ConfigStoreChild(config) => ConfigStoreChild(DefaultConfig(c, config))
                   case ComponentChild(oci) => ComponentChild(DefaultOCI(c, oci))
                   case CompositionChild(composition) => CompositionChild(DefaultComposition(c, composition)))
  }

  function ChildFaults(c: Scope, child: Child): seq<Fault> {
    RepositoryFaults(child.repository) + SpecFaults(c, child.spec)
  }

  lemma {:induction false} ChildFrom(c: Scope, deps: seq<CompositionDependency>, kind: Kind, child: Child) returns (i: nat)
    requires child in Children(c, deps, kind)
    ensures i < |deps| && Inline(deps[i], kind).Some? && child == ChildOf(c, deps[i], kind)
    decreases |deps|
  {
    var last := deps[|deps| - 1];
    if Inline(last, kind).Some? && child == ChildOf(c, last, kind) {
      i := |deps| - 1;
    } else {
      i := ChildFrom(c, deps[..|deps| - 1], kind, child);
    }
  }

  /** Whatever is inline is defaulted and faultless for a resource of the scope. */
  ghost predicate InlineClean(own: Scope, d: CompositionDependency) {
    && (d.config.Some? ==> DefaultConfig(own, d.config.value) == d.config.value && ConfigFaults(d.config.value) == [])
    && (d.oci.Some? ==> DefaultOCI(own, d.oci.value) == d.oci.value && OCIFaults(own, d.oci.value) == [])
    && (d.composition.Some? ==>
          DefaultComposition(own, d.composition.value) == d.composition.value && CompositionFaults(own, d.composition.value) == [])
  }

  /** The inline spec of a faultless dependency is defaulted and faultless under any name. */
  lemma InlineAdmitted(c: Scope, d: CompositionDependency, name: string)
    requires DependencyFaults(c, d) == []
    ensures InlineClean(c.(name := name), d)
  {
    SourceIsValid(c, d);
    if d.config.Some? {
      ValidConfigIsDefaulted(c.(name := name), d.config.value);
    }
    if d.composition.Some? {
      ValidIsDefaulted(c, c.(name := name), d.composition.value);
      FaultsIgnoreName(c, name, d.composition.value);
    }
  }

  /** The faults of a child's own spec. */
  function SpecFaults(c: Scope, spec: ChildSpec): seq<Fault> {
    match spec
    case ConfigStoreChild(config) => ConfigFaults(config)
    case ComponentChild(oci) => OCIFaults(c, oci)
    case CompositionChild(composition) => CompositionFaults(c, composition)
  }

  lemma ChildOfAdmitted(c: Scope, d: CompositionDependency, kind: Kind, name: string)
    requires InlineClean(c.(name := name), d) && Inline(d, kind).Some?
    ensures var child := ChildOf(c, d, kind);
            && DefaultChild(c.(name := name), child) == child.(repository := RepositoryReference("ClusterRepository", "default"))
            && SpecFaults(c.(name := name), child.spec) == []
  {
    assert DefaultRepository(RepositoryReference("", "")) == RepositoryReference("ClusterRepository", "default");
  }

  /** A child of an admitted composition is admitted under whatever name it is given, and keeps its spec. */
  lemma ChildAdmitted(c: Scope, s: CompositionSpec, kind: Kind, child: Child, name: string)
    requires CompositionFaults(c, s) == [] && child in Children(c, s.dependencies, kind)
    ensures var own := c.(name := name);
            && DefaultChild(own, child).spec == child.spec
            && SpecFaults(own, child.spec) == []
            && ChildFaults(own, DefaultChild(own, child)) == []
  {
    var i := ChildFrom(c, s.dependencies, kind, child);
    assert InlineClean(c.(name := name), s.dependencies[i]) by {
      CompositionIsValid(c, s);
      InlineAdmitted(c, s.dependencies[i], name);
    }
    ChildOfAdmitted(c, s.dependencies[i], kind, name);
    assert RepositoryFaults(RepositoryReference("ClusterRepository", "default")) == [];
  }

  /** All children down to n levels are admitted after their own defaulting, whatever names they get. */
  ghost predicate ExpandsAdmitted(c: Scope, s: CompositionSpec, n: nat)
    decreases n, 1
  {
    n == 0 ||
    forall kind, child, name: string :: child in Children(c, s.dependencies, kind) ==>
      AdmittedBelow(c.(name := name), child, n)
  }

  ghost predicate AdmittedBelow(own: Scope, child: Child, n: nat)
    requires n > 0
    decreases n, 0
  {
    var defaulted := DefaultChild(own, child);
    && ChildFaults(own, defaulted) == []
    && (defaulted.spec.CompositionChild? ==> ExpandsAdmitted(own, defaulted.spec.composition, n - 1))
  }

  /** Expansion is closed under admission at every nesting depth. */
  lemma {:induction false} AdmittedExpands(c: Scope, s: CompositionSpec, n: nat)
    requires CompositionFaults(c, s) == []
    ensures ExpandsAdmitted(c, s, n)
    decreases n, 1
  {
    if n > 0 {
      forall kind, child, name: string | child in Children(c, s.dependencies, kind)
        ensures AdmittedBelow(c.(name := name), child, n)
      {
        ChildAdmitted(c, s, kind, child, name);
        ChildExpands(c.(name := name), child, n);
      }
    }
  }

  lemma {:induction false} ChildExpands(own: Scope, child: Child, n: nat)
    requires n > 0 && DefaultChild(own, child).spec == child.spec
    requires SpecFaults(own, child.spec) == []
    ensures child.spec.CompositionChild? ==> ExpandsAdmitted(own, child.spec.composition, n - 1)
    decreases n, 0
  {
    match child.spec
    case CompositionChild(composition) =>
      AdmittedExpands(own, composition, n - 1);
    case ConfigStoreChild(_) =>
    case ComponentChild(_) =>
  }

  // ---------------------------------------------------------------- how many children

  /** Inline nodes of the spec tree. */
  function InlineNodes(deps: seq<CompositionDependency>): nat
    decreases deps
  {
    if deps == [] then 0
    else
      var d := deps[|deps| - 1];
      InlineNodes(deps[..|deps| - 1])
      + (if d.config.Some? then 1 else 0) + (if d.oci.Some? then 1 else 0)
      + (if d.composition.Some? then 1 + InlineNodes(d.composition.value.dependencies) else 0)
  }

  /** Levels of compositions below this one. */
  function Levels(deps: seq<CompositionDependency>): nat
    decreases deps
  {
    if deps == [] then 0
    else
      var d := deps[|deps| - 1];
      var before := Levels(deps[..|deps| - 1]);
      var here := if d.composition.Some? then 1 + Levels(d.composition.value.dependencies) else 0;
      if before < here then here else before
  }

  /** How many resources exist once every composition has been expanded n levels down. */
  function Created(c: Scope, deps: seq<CompositionDependency>, n: nat): nat
    decreases n, 1, 0
  {
    |Children(c, deps, ConfigStoreKind)| + |Children(c, deps, ComponentKind)|
    + |Children(c, deps, CompositionKind)| + CreatedBelow(c, Children(c, deps, CompositionKind), n)
  }

  function CreatedBelow(c: Scope, children: seq<Child>, n: nat): nat
    decreases n, 0, |children|
  {
    if children == [] then 0
    else
      CreatedBelow(c, children[..|children| - 1], n)
      + (var last := children[|children| - 1];
         if last.spec.CompositionChild? && n > 0
         then Created(c, DefaultChild(c.(name := last.generateName), last).spec.composition.dependencies, n - 1)
         else 0)
  }

  function CountIf(b: bool): nat { if b then 1 else 0 }

  lemma ChildrenLast(c: Scope, deps: seq<CompositionDependency>, kind: Kind)
    requires deps != []
    ensures Children(c, deps, kind) == Children(c, deps[..|deps| - 1], kind)
              + if Inline(deps[|deps| - 1], kind).Some? then [ChildOf(c, deps[|deps| - 1], kind)] else []
  {}

  lemma CreatedBelowLast(c: Scope, init: seq<Child>, child: Child, n: nat)
    requires child.spec.CompositionChild?
    ensures CreatedBelow(c, init + [child], n) == CreatedBelow(c, init, n)
              + if n > 0 then Created(c, DefaultComposition(c.(name := child.generateName), child.spec.composition).dependencies, n - 1) else 0
  {
    assert (init + [child])[..|init|] == init;
  }

  /** What the last dependency adds. */
  lemma CreatedLast(c: Scope, deps: seq<CompositionDependency>, n: nat)
    requires deps != []
    ensures var init, d := deps[..|deps| - 1], deps[|deps| - 1];
            Created(c, deps, n) == Created(c, init, n) + CountIf(d.config.Some?) + CountIf(d.oci.Some?) + CountIf(d.composition.Some?)
              + (if d.composition.Some? && n > 0
                 then Created(c, DefaultComposition(c.(name := c.name + "-"), d.composition.value).dependencies, n - 1) else 0)
  {
    var init, d := deps[..|deps| - 1], deps[|deps| - 1];
    ChildrenLast(c, deps, ConfigStoreKind);
    ChildrenLast(c, deps, ComponentKind);
    ChildrenLast(c, deps, CompositionKind);
    if d.composition.Some? {
      CreatedBelowLast(c, Children(c, init, CompositionKind), ChildOf(c, d, CompositionKind), n);
    } else {
      assert Children(c, init, CompositionKind) + [] == Children(c, init, CompositionKind);
    }
  }

  /** Defaulting the nested compositions for their generated children changes nothing, at any depth. */
  ghost predicate NestedStable(c: Scope, deps: seq<CompositionDependency>)
    decreases deps
  {
    forall i :: 0 <= i < |deps| && deps[i].composition.Some? ==>
      && DefaultComposition(c.(name := c.name + "-"), deps[i].composition.value) == deps[i].composition.value
      && NestedStable(c, deps[i].composition.value.dependencies)
  }

  lemma {:induction false} ValidIsStable(c: Scope, deps: seq<CompositionDependency>)
    requires forall i :: 0 <= i < |deps| ==> DependencyFaults(c, deps[i]) == []
    ensures NestedStable(c, deps)
    decreases deps
  {
    forall i | 0 <= i < |deps| && deps[i].composition.Some?
      ensures DefaultComposition(c.(name := c.name + "-"), deps[i].composition.value) == deps[i].composition.value
      ensures NestedStable(c, deps[i].composition.value.dependencies)
    {
      NestedIsValid(c, deps[i]);
      ValidIsStable(c, deps[i].composition.value.dependencies);
    }
  }

  lemma NestedIsValid(c: Scope, d: CompositionDependency)
    requires DependencyFaults(c, d) == [] && d.composition.Some?
    ensures DefaultComposition(c.(name := c.name + "-"), d.composition.value) == d.composition.value
    ensures forall i :: 0 <= i < |d.composition.value.dependencies| ==> DependencyFaults(c, d.composition.value.dependencies[i]) == []
  {
    SourceIsValid(c, d);
    ValidIsDefaulted(c, c.(name := c.name + "-"), d.composition.value);
    CompositionIsValid(c, d.composition.value);
  }

  lemma NestedStableInit(c: Scope, deps: seq<CompositionDependency>)
    requires deps != [] && NestedStable(c, deps)
    ensures NestedStable(c, deps[..|deps| - 1])
  {
    forall i | 0 <= i < |deps[..|deps| - 1]| ensures deps[..|deps| - 1][i] == deps[i] {}
  }

  /** What a nested composition adds by itself. */
  lemma {:induction false} NestedCount(c: Scope, d: CompositionDependency, n: nat)
    requires d.composition.Some? && n > 0 && Levels(d.composition.value.dependencies) <= n - 1
    requires DefaultComposition(c.(name := c.name + "-"), d.composition.value) == d.composition.value
    requires NestedStable(c, d.composition.value.dependencies)
    ensures Created(c, DefaultComposition(c.(name := c.name + "-"), d.composition.value).dependencies, n - 1)
         == InlineNodes(d.composition.value.dependencies)
    decreases n, 0, 0
  {
    CreatedCount(c, d.composition.value.dependencies, n - 1);
  }

  lemma InlineNodesLast(deps: seq<CompositionDependency>)
    requires deps != []
    ensures var d := deps[|deps| - 1];
            InlineNodes(deps) == InlineNodes(deps[..|deps| - 1]) + CountIf(d.config.Some?) + CountIf(d.oci.Some?)
              + (if d.composition.Some? then 1 + InlineNodes(d.composition.value.dependencies) else 0)
  {}

  lemma {:induction false} CreatedCount(c: Scope, deps: seq<CompositionDependency>, n: nat)
    requires NestedStable(c, deps) && Levels(deps) <= n
    ensures Created(c, deps, n) == InlineNodes(deps)
    decreases n, 1, |deps|
  {
    if deps != [] {
      var init, d := deps[..|deps| - 1], deps[|deps| - 1];
      NestedStableInit(c, deps);
      CreatedCount(c, init, n);
      CreatedLast(c, deps, n);
      InlineNodesLast(deps);
      if d.composition.Some? {
        NestedCount(c, d, n);
      }
    }
  }

  /**
   Expanding an admitted composition ends after as many levels as its spec nests, with
   exactly one resource for each inline node.
   */
  lemma OneChildPerNode(c: Scope, s: CompositionSpec, n: nat)
    requires CompositionFaults(c, s) == [] && Levels(s.dependencies) <= n
    ensures Created(c, s.dependencies, n) == InlineNodes(s.dependencies)
  {
    assert NestedStable(c, s.dependencies) by {
      CompositionIsValid(c, s);
      ValidIsStable(c, s.dependencies);
    }
    CreatedCount(c, s.dependencies, n);
  }

  // ---------------------------------------------------------------- writing references back

  /** The result of managing one child; None when it could not be created. */
  datatype ChildResult = ChildResult(kind: Kind, id: string, child: Option<(string, string)>)

  function ReferenceTo(r: ChildResult): ComponentReference
    requires r.child.Some?
  {
    ComponentReference("wa8s.reconciler.io/v1alpha1", KindName(r.kind), r.child.value.0, r.child.value.1)
  }

  function WriteOne(d: CompositionDependency, r: ChildResult): CompositionDependency {
    if r.id == d.component && r.child.Some? then d.(ref := Some(ReferenceTo(r))) else d
  }

  function WriteAll(d: CompositionDependency, results: seq<ChildResult>): CompositionDependency {
    if results == [] then d else WriteOne(WriteAll(d, results[..|results| - 1]), results[|results| - 1])
  }

  /** The composition in memory while its children are managed. */
  class Parent {
    var dependencies: seq<CompositionDependency>

    constructor (deps: seq<CompositionDependency>)
      ensures dependencies == deps
    {
      dependencies := deps;
    }

    /** One `ReflectChildrenStatusOnParent`: every result against every dependency, writing in place. */
    method Reflect(results: seq<ChildResult>)
      modifies this
      ensures |dependencies| == |old(dependencies)|
      ensures forall i :: 0 <= i < |dependencies| ==> dependencies[i] == WriteAll(old(dependencies)[i], results)
    {
      var n := |dependencies|;
      for j := 0 to |results|
        invariant |dependencies| == n
        invariant forall i :: 0 <= i < n ==> dependencies[i] == WriteAll(old(dependencies)[i], results[..j])
      {
        var r := results[j];
        assert results[..j + 1][..j] == results[..j];
        for i := 0 to n
          invariant |dependencies| == n
          invariant forall k :: 0 <= k < n ==>
                      dependencies[k] == WriteAll(old(dependencies)[k], if k < i then results[..j + 1] else results[..j])
        {
          if r.id != dependencies[i].component {
            continue;
          }
          if r.child.None? {
            continue;
          }
          dependencies := dependencies[i := dependencies[i].(ref := Some(ReferenceTo(r)))];
        }
      }
      assert results[..|results|] == results;
    }

    /** The three passes, one per kind of child. */
    method ManageDependencies(configs: seq<ChildResult>, components: seq<ChildResult>, compositions: seq<ChildResult>)
      modifies this
      ensures |dependencies| == |old(dependencies)|
      ensures forall i :: 0 <= i < |dependencies| ==>
                dependencies[i] == WriteAll(old(dependencies)[i], configs + components + compositions)
      ensures InlineNamesUnshared(old(dependencies)) ==>
                forall children :: Answers(old(dependencies), configs + components + compositions, children) ==>
                  RefersToOwnChildren(old(dependencies), dependencies, children)
    {
      Reflect(configs);
      Reflect(components);
      Reflect(compositions);
      forall i | 0 <= i < |dependencies|
        ensures dependencies[i] == WriteAll(old(dependencies)[i], configs + components + compositions)
      {
        WriteInTurn(old(dependencies)[i], configs, components);
        WriteInTurn(old(dependencies)[i], configs + components, compositions);
      }
      if InlineNamesUnshared(old(dependencies)) {
        forall children | Answers(old(dependencies), configs + components + compositions, children)
          ensures RefersToOwnChildren(old(dependencies), dependencies, children)
        {
          OwnReferencesWhenUnshared(old(dependencies), configs + components + compositions, children);
          OwnReferencesSpelled(old(dependencies), dependencies, configs + components + compositions, children);
        }
      }
    }
  }

  /** Every inline dependency refers to its own child, under the kind it asked for; nothing else changed. */
  ghost predicate RefersToOwnChildren(before: seq<CompositionDependency>, after: seq<CompositionDependency>, children: seq<(string, string)>) {
    && |after| == |before| == |children|
    && forall i :: 0 <= i < |before| ==>
         && after[i].(ref := before[i].ref) == before[i]
         && after[i].ref ==
              if before[i].config.Some? then OwnChild("ConfigStore", children[i])
              else if before[i].oci.Some? then OwnChild("Component", children[i])
              else if before[i].composition.Some? then OwnChild("Composition", children[i])
              else before[i].ref
  }

  function OwnChild(kind: string, child: (string, string)): Option<ComponentReference> {
    Some(ComponentReference("wa8s.reconciler.io/v1alpha1", kind, child.0, child.1))
  }

  lemma {:induction false} WriteInTurn(d: CompositionDependency, a: seq<ChildResult>, b: seq<ChildResult>)
    ensures WriteAll(WriteAll(d, a), b) == WriteAll(d, a + b)
    decreases |b|
  {
    if b == [] {
      assert a + b == a;
    } else {
      assert (a + b)[..|a + b| - 1] == a + b[..|b| - 1];
      WriteInTurn(d, a, b[..|b| - 1]);
    }
  }

  predicate Hits(d: CompositionDependency, r: ChildResult) {
    r.id == d.component && r.child.Some?
  }

  /** The result hits the dependency and no later one does. */
  predicate LastHit(d: CompositionDependency, results: seq<ChildResult>, i: nat)
    requires i < |results|
  {
    Hits(d, results[i]) && forall j :: i < j < |results| ==> !Hits(d, results[j])
  }

  lemma {:induction false} SomeLastHit(d: CompositionDependency, results: seq<ChildResult>, r: ChildResult) returns (i: nat)
    requires r in results && Hits(d, r)
    ensures i < |results| && LastHit(d, results, i)
    decreases |results|
  {
    i := |results| - 1;
    if !Hits(d, results[i]) {
      var init := results[..i];
      assert results == init + [results[i]];
      i := SomeLastHit(d, init, r);
    }
  }

  lemma {:induction false} LastHitWrites(d: CompositionDependency, results: seq<ChildResult>, i: nat)
    requires i < |results| && LastHit(d, results, i)
    ensures WriteAll(d, results).ref == Some(ReferenceTo(results[i]))
    decreases |results|
  {
    var init := results[..|results| - 1];
    OnlyReferences(d, init);
    if i < |init| {
      LastHitWrites(d, init, i);
    }
  }

  lemma {:induction false} OnlyReferences(d: CompositionDependency, results: seq<ChildResult>)
    ensures WriteAll(d, results).(ref := d.ref) == d
    ensures (forall r :: r in results ==> !Hits(d, r)) ==> WriteAll(d, results) == d
    decreases |results|
  {
    if results != [] {
      var init := results[..|results| - 1];
      OnlyReferences(d, init);
      if forall r :: r in results ==> !Hits(d, r) {
        assert results[|results| - 1] in results;
        forall r | r in init ensures !Hits(d, r) {
          assert r in results;
        }
      }
    }
  }

  /** Only the reference changes, and it is the one of the last result that names the dependency. */
  lemma WrittenReference(d: CompositionDependency, results: seq<ChildResult>)
    ensures WriteAll(d, results).(ref := d.ref) == d
    ensures (forall r :: r in results ==> !Hits(d, r)) ==> WriteAll(d, results) == d
    ensures (exists r :: r in results && Hits(d, r)) ==>
              exists i :: 0 <= i < |results| && LastHit(d, results, i) && WriteAll(d, results).ref == Some(ReferenceTo(results[i]))
  {
    OnlyReferences(d, results);
    if r :| r in results && Hits(d, r) {
      var i := SomeLastHit(d, results, r);
      LastHitWrites(d, results, i);
    }
  }

  /** A dependency is inline if it asks for a child of some kind. */
  function InlineKind(d: CompositionDependency): Option<Kind> {
    if d.config.Some? then Some(ConfigStoreKind)
    else if d.oci.Some? then Some(ComponentKind)
    else if d.composition.Some? then Some(CompositionKind)
    else None
  }

  /** Every inline dependency has exactly one result, of its kind and with a child; there are no others. */
  ghost predicate Answers(deps: seq<CompositionDependency>, results: seq<ChildResult>, children: seq<(string, string)>) {
    && |children| == |deps|
    && (forall r :: r in results ==> exists i :: 0 <= i < |deps| && r == AnswerTo(deps[i], children[i]) && InlineKind(deps[i]).Some?)
    && (forall i :: 0 <= i < |deps| && InlineKind(deps[i]).Some? ==> AnswerTo(deps[i], children[i]) in results)
  }

  function AnswerTo(d: CompositionDependency, child: (string, string)): ChildResult {
    ChildResult(if InlineKind(d).Some? then InlineKind(d).value else ConfigStoreKind, d.component, Some(child))
  }

  /** Each inline dependency refers to its own child and plain references stay what they were. */
  ghost predicate OwnReferences(deps: seq<CompositionDependency>, results: seq<ChildResult>, children: seq<(string, string)>)
    requires |children| == |deps|
  {
    forall i :: 0 <= i < |deps| ==>
      WriteAll(deps[i], results) ==
        if InlineKind(deps[i]).Some? then deps[i].(ref := Some(ReferenceTo(AnswerTo(deps[i], children[i])))) else deps[i]
  }

  /** No inline dependency shares its name with another dependency. Validation does not check this. */
  predicate InlineNamesUnshared(deps: seq<CompositionDependency>) {
    forall i, j :: 0 <= i < |deps| && 0 <= j < |deps| && i != j && InlineKind(deps[i]).Some? ==> deps[i].component != deps[j].component
  }

  /** With unshared names every order of passes and results gives each dependency its own reference. */
  lemma OwnReferencesWhenUnshared(deps: seq<CompositionDependency>, results: seq<ChildResult>, children: seq<(string, string)>)
    requires InlineNamesUnshared(deps) && Answers(deps, results, children)
    ensures OwnReferences(deps, results, children)
  {
    forall i | 0 <= i < |deps|
      ensures WriteAll(deps[i], results) ==
                if InlineKind(deps[i]).Some? then deps[i].(ref := Some(ReferenceTo(AnswerTo(deps[i], children[i])))) else deps[i]
    {
      var d := deps[i];
      WrittenReference(d, results);
      forall r | r in results && Hits(d, r) ensures InlineKind(d).Some? && r == AnswerTo(d, children[i]) {
        var j :| 0 <= j < |deps| && r == AnswerTo(deps[j], children[j]) && InlineKind(deps[j]).Some?;
        assert j == i;
      }
      if InlineKind(d).Some? {
        assert Hits(d, AnswerTo(d, children[i]));
      }
    }
  }

  lemma OwnReferencesSpelled(before: seq<CompositionDependency>, after: seq<CompositionDependency>, results: seq<ChildResult>,
                             children: seq<(string, string)>)
    requires |children| == |before| == |after| && OwnReferences(before, results, children)
    requires forall i :: 0 <= i < |after| ==> after[i] == WriteAll(before[i], results)
    ensures RefersToOwnChildren(before, after, children)
  {}

  /** Any two orders of the same results write the same references. */
  lemma WriteBackOrderIrrelevant(deps: seq<CompositionDependency>, a: seq<ChildResult>, b: seq<ChildResult>, children: seq<(string, string)>)
    requires InlineNamesUnshared(deps) && Answers(deps, a, children)
    requires multiset(a) == multiset(b)
    ensures forall i :: 0 <= i < |deps| ==> WriteAll(deps[i], a) == WriteAll(deps[i], b)
  {
    forall r ensures r in a <==> r in b {
      assert r in multiset(a) <==> r in multiset(b);
    }
    assert Answers(deps, b, children);
    OwnReferencesWhenUnshared(deps, a, children);
    OwnReferencesWhenUnshared(deps, b, children);
  }

  /** Children have names of their own, which no plain reference uses. */
  ghost predicate FreshChildren(deps: seq<CompositionDependency>, children: seq<(string, string)>) {
    && |children| == |deps|
    && (forall i, j :: 0 <= i < |deps| && 0 <= j < |deps| && i != j ==> children[i] != children[j])
    && (forall i, j :: 0 <= i < |deps| && 0 <= j < |deps| && deps[j].ref.Some? ==>
          (deps[j].ref.value.namespace, deps[j].ref.value.name) != children[i])
  }

  /**
   The names being unshared is exactly what the write-back needs: for new children of all
   inline dependencies, every dependency ends with its own reference if and only if no
   inline dependency shares its name.
   */
  lemma OwnReferencesExactly(deps: seq<CompositionDependency>, results: seq<ChildResult>, children: seq<(string, string)>)
    requires Answers(deps, results, children) && FreshChildren(deps, children)
    ensures OwnReferences(deps, results, children) <==> InlineNamesUnshared(deps)
  {
    if InlineNamesUnshared(deps) {
      OwnReferencesWhenUnshared(deps, results, children);
    } else if OwnReferences(deps, results, children) {
      var i, j :| 0 <= i < |deps| && 0 <= j < |deps| && i != j && InlineKind(deps[i]).Some? && deps[i].component == deps[j].component;
      SharedNameClashes(deps, results, children, i, j);
    }
  }

  lemma SharedNameClashes(deps: seq<CompositionDependency>, results: seq<ChildResult>, children: seq<(string, string)>, i: nat, j: nat)
    requires Answers(deps, results, children) && FreshChildren(deps, children)
    requires i < |deps| && j < |deps| && i != j && InlineKind(deps[i]).Some? && deps[i].component == deps[j].component
    ensures !OwnReferences(deps, results, children)
  {
    assert Hits(deps[i], AnswerTo(deps[i], children[i]));
    SameNameSameReference(deps[i], deps[j], results);
  }

  /** Two dependencies of one name that any result hits end with the same reference. */
  lemma SameNameSameReference(d: CompositionDependency, e: CompositionDependency, results: seq<ChildResult>)
    requires d.component == e.component && exists r :: r in results && Hits(d, r)
    ensures WriteAll(d, results).ref == WriteAll(e, results).ref
  {
    var r :| r in results && Hits(d, r);
    var i := SomeLastHit(d, results, r);
    LastHitWrites(d, results, i);
    LastHitWrites(e, results, i);
  }
}
