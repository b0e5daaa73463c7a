/** Defaulting and validating specs, as the admission webhooks do. */
module Admission {
  import opened Base

  /** The resource a spec belongs to, as defaulting and validation see it. */
  datatype Scope = Scope(namespace: string, name: string, system: string)

  datatype ComponentReference = ComponentReference(apiVersion: string, kind: string, namespace: string, name: string)

  datatype ServiceAccountReference = ServiceAccountReference(namespace: string, name: string)

  datatype OCIReference = OCIReference(image: string, serviceAccountRef: ServiceAccountReference)

  datatype RepositoryReference = RepositoryReference(kind: string, name: string)

  datatype ValueFrom = ValueFrom(name: string, key: string)

  datatype Value = Value(name: string, value: string, valueFrom: Option<ValueFrom>)

  datatype ValuesFrom = ValuesFrom(name: string, prefix: string)

  datatype ConfigSpec = ConfigSpec(values: seq<Value>, valuesFrom: seq<ValuesFrom>)

  /** `plug` says whether the (empty) plug struct is present. */
  datatype CompositionSpec = CompositionSpec(wac: string, plug: bool, dependencies: seq<CompositionDependency>)

  datatype CompositionDependency = CompositionDependency(
    component: string,
    ref: Option<ComponentReference>,
    config: Option<ConfigSpec>,
    oci: Option<OCIReference>,
    composition: Option<CompositionSpec>)

  datatype Fault =
    | Required(field: string)
    | NothingPicked(fields: set<string>)
    | TooManyPicked(fields: set<string>)
    | CrossNamespace
    | TooFewDependencies
    | ValueAndValueFrom
    | KindNotAllowed

  predicate IsClusterKind(kind: string) { |kind| >= 7 && kind[..7] == "Cluster" }

  function APIVersionForKind(kind: string): string {
    if kind in {"Component", "ClusterComponent", "Composition", "ConfigStore"} then "wa8s.reconciler.io/v1alpha1"
    else if kind in {"ComponentContainerImage", "CronTrigger", "HttpTrigger", "WrpcTrigger"} then "containers.wa8s.reconciler.io/v1alpha1"
    else if kind == "ServiceTrigger" then "knative.wa8s.reconciler.io/v1alpha1"
    else if kind in {"Image", "ClusterImage", "Repository", "ClusterRepository"} then "registries.wa8s.reconciler.io/v1alpha1"
    else if kind in {"ServiceClient", "ServiceInstance", "ServiceLifecycle", "ClusterServiceLifecycle"} then "services.wa8s.reconciler.io/v1alpha1"
    else ""
  }

  // ---------------------------------------------------------------- defaulting

  function DefaultReference(c: Scope, r: ComponentReference): ComponentReference {
    var kind := if r.kind == "" then "Component" else r.kind;
    ComponentReference(
      if r.apiVersion == "" then APIVersionForKind(kind) else r.apiVersion,
      kind,
      if r.namespace == "" && !IsClusterKind(kind) then c.namespace else r.namespace,
      if r.name == "" then c.name else r.name)
  }

  function DefaultOCI(c: Scope, r: OCIReference): OCIReference {
    var account := r.serviceAccountRef;
    r.(serviceAccountRef := ServiceAccountReference(
      if account.namespace == "" then c.namespace else account.namespace,
      if account.name == "" then "default" else account.name))
  }

  function DefaultRepository(r: RepositoryReference): RepositoryReference {
    var r := if r == RepositoryReference("", "") then RepositoryReference("ClusterRepository", "default") else r;
    RepositoryReference(
      if r.kind != "ClusterRepository" then "Repository" else r.kind,
      if r.name == "" then "default" else r.name)
  }

  function DefaultValue(c: Scope, v: Value): Value {
    if v.valueFrom.Some? && v.valueFrom.value.name == "" then v.(valueFrom := Some(v.valueFrom.value.(name := c.name))) else v
  }

  function DefaultValuesFrom(c: Scope, v: ValuesFrom): ValuesFrom {
    if v.name == "" then v.(name := c.name) else v
  }

  function DefaultConfig(c: Scope, s: ConfigSpec): ConfigSpec {
    ConfigSpec(
      seq(|s.values|, i requires 0 <= i < |s.values| => DefaultValue(c, s.values[i])),
      seq(|s.valuesFrom|, i requires 0 <= i < |s.valuesFrom| => DefaultValuesFrom(c, s.valuesFrom[i])))
  }

  function DefaultDependency(c: Scope, d: CompositionDependency): CompositionDependency {
    d.(ref := if d.ref.Some? then Some(DefaultReference(c, d.ref.value)) else None,
       config := if d.config.Some? then Some(DefaultConfig(c, d.config.value)) else None,
       oci := if d.oci.Some? then Some(DefaultOCI(c, d.oci.value)) else None,
       composition := if d.composition.Some? then Some(DefaultComposition(c, d.composition.value)) else None)
  }

  function DefaultComposition(c: Scope, s: CompositionSpec): CompositionSpec {
    CompositionSpec(s.wac, s.plug || s.wac == "",
      seq(|s.dependencies|, i requires 0 <= i < |s.dependencies| => DefaultDependency(c, s.dependencies[i])))
  }

  // ---------------------------------------------------------------- validation

  function When(bad: bool, f: Fault): seq<Fault> { if bad then [f] else [] }

  predicate Crosses(c: Scope, namespace: string) {
    c.namespace != "" && c.namespace != namespace && c.namespace != c.system
  }

  function ReferenceFaults(c: Scope, r: ComponentReference): seq<Fault> {
    When(r.apiVersion == "", Required("apiVersion")) + When(r.kind == "", Required("kind"))
    + (if IsClusterKind(r.kind) then []
       else if r.namespace == "" then [Required("namespace")]
       else When(Crosses(c, r.namespace), CrossNamespace))
    + When(r.name == "", Required("name"))
  }

  function OCIFaults(c: Scope, r: OCIReference): seq<Fault> {
    var account := r.serviceAccountRef;
    When(r.image == "", Required("image"))
    + (if account.namespace == "" then [Required("namespace")] else When(Crosses(c, account.namespace), CrossNamespace))
    + When(account.name == "", Required("name"))
  }

  function RepositoryFaults(r: RepositoryReference): seq<Fault> {
    When(r.kind == "", Required("kind"))
    + When(r.kind != "Repository" && r.kind != "ClusterRepository", KindNotAllowed)
    + When(r.name == "", Required("name"))
  }

  function ValueFaults(v: Value): seq<Fault> {
    When(v.name == "", Required("name"))
    + When(v.value != "" && v.valueFrom.Some?, ValueAndValueFrom)
    + (if v.valueFrom.Some? then
         When(v.valueFrom.value.name == "", Required("name")) + When(v.valueFrom.value.key == "", Required("key"))
       else [])
  }

  function ValuesFaults(vs: seq<Value>): seq<Fault> {
    if vs == [] then [] else ValuesFaults(vs[..|vs| - 1]) + ValueFaults(vs[|vs| - 1])
  }

  function ValuesFromFaults(vs: seq<ValuesFrom>): seq<Fault> {
    if vs == [] then [] else ValuesFromFaults(vs[..|vs| - 1]) + When(vs[|vs| - 1].name == "", Required("name"))
  }

  function ConfigFaults(s: ConfigSpec): seq<Fault> {
    ValuesFaults(s.values) + ValuesFromFaults(s.valuesFrom)
  }

  /** Exactly one of the fields has to be picked. */
  function PickFaults(picked: set<string>, notPicked: set<string>): seq<Fault> {
    When(picked == {}, NothingPicked(notPicked)) + When(|picked| > 1, TooManyPicked(picked))
  }

  function PickedIf(b: bool, field: string): set<string> { if b then {field} else {} }

  function DependencyFaults(c: Scope, d: CompositionDependency): seq<Fault>
    decreases d, 1
  {
    When(d.component == "", Required("component")) + SourceFaults(c, d)
    + PickFaults(PickedSources(d), OtherSources(d))
  }

  function PickedSources(d: CompositionDependency): set<string> {
    PickedIf(d.ref.Some?, "ref") + PickedIf(d.config.Some?, "config") + PickedIf(d.oci.Some?, "oci") + PickedIf(d.composition.Some?, "composition")
  }

  function OtherSources(d: CompositionDependency): set<string> {
    PickedIf(d.ref.None?, "ref") + PickedIf(d.config.None?, "config") + PickedIf(d.oci.None?, "oci") + PickedIf(d.composition.None?, "composition")
  }

  /** The faults of whatever the dependency picked. */
  function SourceFaults(c: Scope, d: CompositionDependency): seq<Fault>
    decreases d, 0
  {
    (if d.ref.Some? then ReferenceFaults(c, d.ref.value) else [])
    + (if d.config.Some? then ConfigFaults(d.config.value) else [])
    + (if d.oci.Some? then OCIFaults(c, d.oci.value) else [])
    + (if d.composition.Some? then CompositionFaults(c, d.composition.value) else [])
  }

  function CompositionFaults(c: Scope, s: CompositionSpec): seq<Fault>
    decreases s
  {
    PickFaults(PickedIf(s.plug, "plug") + PickedIf(s.wac != "", "wac"), PickedIf(!s.plug, "plug") + PickedIf(s.wac == "", "wac"))
    + When(|s.dependencies| < 2, TooFewDependencies)
    + DependenciesFaults(c, s.dependencies)
  }

  function DependenciesFaults(c: Scope, deps: seq<CompositionDependency>): seq<Fault>
    decreases deps
  {
    if deps == [] then [] else DependenciesFaults(c, deps[..|deps| - 1]) + DependencyFaults(c, deps[|deps| - 1])
  }

  // ---------------------------------------------------------------- what is admissible

  predicate ClusterScoped(kind: string) { "Cluster" <= kind }

  /** Resources of a namespace may refer into their own namespace only, unless theirs is the system's. */
  predicate MayReferTo(c: Scope, namespace: string) {
    c.namespace == "" || c.namespace == c.system || namespace == c.namespace
  }

  predicate AdmissibleReference(c: Scope, r: ComponentReference) {
    && r.apiVersion != "" && r.kind != "" && r.name != ""
    && (!ClusterScoped(r.kind) ==> r.namespace != "" && MayReferTo(c, r.namespace))
  }

  predicate AdmissibleOCI(c: Scope, r: OCIReference) {
    && r.image != "" && r.serviceAccountRef.name != "" && r.serviceAccountRef.namespace != ""
    && MayReferTo(c, r.serviceAccountRef.namespace)
  }

  predicate AdmissibleValue(v: Value) {
    v.name != "" && (v.valueFrom.Some? ==> v.value == "" && v.valueFrom.value.name != "" && v.valueFrom.value.key != "")
  }

  predicate AdmissibleConfig(s: ConfigSpec) {
    && (forall i :: 0 <= i < |s.values| ==> AdmissibleValue(s.values[i]))
    && (forall i :: 0 <= i < |s.valuesFrom| ==> s.valuesFrom[i].name != "")
  }

  /** Exactly one source, which is admissible itself. */
  predicate AdmissibleDependency(c: Scope, d: CompositionDependency)
    decreases d, 0
  {
    && d.component != ""
    && match (d.ref, d.config, d.oci, d.composition)
       case (Some(r), None, None, None) => AdmissibleReference(c, r)
       case (None, Some(s), None, None) => AdmissibleConfig(s)
       case (None, None, Some(r), None) => AdmissibleOCI(c, r)
       case (None, None, None, Some(s)) => Admissible(c, s)
       case _ => false
  }

  /** Plugged or scripted, and of at least two admissible dependencies, at every depth. */
  predicate Admissible(c: Scope, s: CompositionSpec)
    decreases s, 1
  {
    && (s.plug <==> s.wac == "") && |s.dependencies| >= 2
    && forall i :: 0 <= i < |s.dependencies| ==> AdmissibleDependency(c, s.dependencies[i])
  }

  // ---------------------------------------------------------------- what defaulting fills in

  /** A field that was set is kept, an empty one is filled. */
  predicate Filled(before: string, after: string, filler: string) {
    after == if before == "" then filler else before
  }

  /** The API version under which a kind is served, none for an unknown kind. */
  predicate ServedUnder(kind: string, apiVersion: string) {
    if kind in ["Component", "ClusterComponent", "Composition", "ConfigStore"] then apiVersion == "wa8s.reconciler.io/v1alpha1"
    else if kind in ["ComponentContainerImage", "CronTrigger", "HttpTrigger", "WrpcTrigger"] then
      apiVersion == "containers.wa8s.reconciler.io/v1alpha1"
    else if kind == "ServiceTrigger" then apiVersion == "knative.wa8s.reconciler.io/v1alpha1"
    else if kind in ["Image", "ClusterImage", "Repository", "ClusterRepository"] then apiVersion == "registries.wa8s.reconciler.io/v1alpha1"
    else if kind in ["ServiceClient", "ServiceInstance", "ServiceLifecycle", "ClusterServiceLifecycle"] then
      apiVersion == "services.wa8s.reconciler.io/v1alpha1"
    else apiVersion == ""
  }

  predicate FilledReference(c: Scope, r: ComponentReference, a: ComponentReference) {
    && Filled(r.kind, a.kind, "Component") && Filled(r.name, a.name, c.name)
    && Filled(r.namespace, a.namespace, if ClusterScoped(a.kind) then "" else c.namespace)
    && (if r.apiVersion != "" then a.apiVersion == r.apiVersion else ServedUnder(a.kind, a.apiVersion))
  }

  predicate FilledOCI(c: Scope, r: OCIReference, a: OCIReference) {
    && a.image == r.image && Filled(r.serviceAccountRef.namespace, a.serviceAccountRef.namespace, c.namespace)
    && Filled(r.serviceAccountRef.name, a.serviceAccountRef.name, "default")
  }

  predicate FilledConfig(c: Scope, s: ConfigSpec, a: ConfigSpec) {
    && |a.values| == |s.values| && |a.valuesFrom| == |s.valuesFrom|
    && (forall i :: 0 <= i < |s.values| ==>
          var v, w := s.values[i], a.values[i];
          && w.name == v.name && w.value == v.value && w.valueFrom.Some? == v.valueFrom.Some?
          && (v.valueFrom.Some? ==>
                w.valueFrom.value.key == v.valueFrom.value.key && Filled(v.valueFrom.value.name, w.valueFrom.value.name, c.name)))
    && (forall i :: 0 <= i < |s.valuesFrom| ==>
          a.valuesFrom[i].prefix == s.valuesFrom[i].prefix && Filled(s.valuesFrom[i].name, a.valuesFrom[i].name, c.name))
  }

  predicate FilledDependency(c: Scope, d: CompositionDependency, a: CompositionDependency)
    decreases d, 0
  {
    && a.component == d.component
    && (if d.ref.Some? then a.ref.Some? && FilledReference(c, d.ref.value, a.ref.value) else a.ref.None?)
    && (if d.config.Some? then a.config.Some? && FilledConfig(c, d.config.value, a.config.value) else a.config.None?)
    && (if d.oci.Some? then a.oci.Some? && FilledOCI(c, d.oci.value, a.oci.value) else a.oci.None?)
    && (if d.composition.Some? then a.composition.Some? && FilledComposition(c, d.composition.value, a.composition.value) else a.composition.None?)
  }

  /** Plugging is chosen when nothing is; otherwise only empty fields are filled, at every depth. */
  predicate FilledComposition(c: Scope, s: CompositionSpec, a: CompositionSpec)
    decreases s, 1
  {
    && a.wac == s.wac && a.plug == (s.plug || s.wac == "") && |a.dependencies| == |s.dependencies|
    && forall i :: 0 <= i < |s.dependencies| ==> FilledDependency(c, s.dependencies[i], a.dependencies[i])
  }

  lemma VersionServed(kind: string)
    ensures ServedUnder(kind, APIVersionForKind(kind))
  {}

  lemma ReferenceFilled(c: Scope, r: ComponentReference)
    ensures FilledReference(c, r, DefaultReference(c, r))
  {
    var kind := if r.kind == "" then "Component" else r.kind;
    VersionServed(kind);
    assert IsClusterKind(kind) <==> ClusterScoped(kind);
  }

  lemma ConfigFilled(c: Scope, s: ConfigSpec)
    ensures FilledConfig(c, s, DefaultConfig(c, s))
  {}

  lemma {:induction false} DependencyFilled(c: Scope, d: CompositionDependency)
    ensures FilledDependency(c, d, DefaultDependency(c, d))
    decreases d, 0
  {
    if d.ref.Some? {
      ReferenceFilled(c, d.ref.value);
    }
    if d.config.Some? {
      ConfigFilled(c, d.config.value);
    }
    if d.composition.Some? {
      CompositionFilled(c, d.composition.value);
    }
  }

  /** Defaulting only fills empty fields, with these fillers. */
  lemma {:induction false} CompositionFilled(c: Scope, s: CompositionSpec)
    ensures FilledComposition(c, s, DefaultComposition(c, s))
    decreases s, 1
  {
    forall i | 0 <= i < |s.dependencies| ensures FilledDependency(c, s.dependencies[i], DefaultComposition(c, s).dependencies[i]) {
      DependencyFilled(c, s.dependencies[i]);
    }
  }

  /** A repository left out entirely is the cluster's default; one named without a cluster kind is the namespace's. */
  lemma RepositoryFilled(r: RepositoryReference)
    ensures var a := DefaultRepository(r);
            && a.kind == (if r.kind == "ClusterRepository" || (r.kind == "" && r.name == "") then "ClusterRepository" else "Repository")
            && Filled(r.name, a.name, "default")
  {}

  // ---------------------------------------------------------------- what is wrong with a spec

  predicate ReferenceDefect(c: Scope, r: ComponentReference, f: Fault) {
    match f
    case Required(field) =>
      || (field == "apiVersion" && r.apiVersion == "") || (field == "kind" && r.kind == "") || (field == "name" && r.name == "")
      || (field == "namespace" && r.namespace == "" && !ClusterScoped(r.kind))
    case CrossNamespace => !ClusterScoped(r.kind) && r.namespace != "" && !MayReferTo(c, r.namespace)
    case _ => false
  }

  predicate OCIDefect(c: Scope, r: OCIReference, f: Fault) {
    match f
    case Required(field) =>
      || (field == "image" && r.image == "") || (field == "name" && r.serviceAccountRef.name == "")
      || (field == "namespace" && r.serviceAccountRef.namespace == "")
    case CrossNamespace => r.serviceAccountRef.namespace != "" && !MayReferTo(c, r.serviceAccountRef.namespace)
    case _ => false
  }

  predicate ValueDefect(v: Value, f: Fault) {
    match f
    case Required(field) =>
      || (field == "name" && (v.name == "" || (v.valueFrom.Some? && v.valueFrom.value.name == "")))
      || (field == "key" && v.valueFrom.Some? && v.valueFrom.value.key == "")
    case ValueAndValueFrom => v.value != "" && v.valueFrom.Some?
    case _ => false
  }

  predicate ConfigDefect(s: ConfigSpec, f: Fault) {
    || (exists i :: 0 <= i < |s.values| && ValueDefect(s.values[i], f))
    || (f == Required("name") && exists i :: 0 <= i < |s.valuesFrom| && s.valuesFrom[i].name == "")
  }

  /** The sources a dependency names. */
  function Sources(d: CompositionDependency): set<string> {
    (if d.ref.Some? then {"ref"} else {}) + (if d.config.Some? then {"config"} else {})
    + (if d.oci.Some? then {"oci"} else {}) + (if d.composition.Some? then {"composition"} else {})
  }

  predicate DependencyDefect(c: Scope, d: CompositionDependency, f: Fault)
    decreases d, 0
  {
    || (f == Required("component") && d.component == "")
    || (f == NothingPicked({"ref", "config", "oci", "composition"}) && Sources(d) == {})
    || (f == TooManyPicked(Sources(d)) && |Sources(d)| > 1)
    || (d.ref.Some? && ReferenceDefect(c, d.ref.value, f))
    || (d.config.Some? && ConfigDefect(d.config.value, f))
    || (d.oci.Some? && OCIDefect(c, d.oci.value, f))
    || (d.composition.Some? && Defect(c, d.composition.value, f))
  }

  /** The spec has this fault, somewhere. */
  predicate Defect(c: Scope, s: CompositionSpec, f: Fault)
    decreases s, 1
  {
    || (f == NothingPicked({"plug", "wac"}) && !s.plug && s.wac == "")
    || (f == TooManyPicked({"plug", "wac"}) && s.plug && s.wac != "")
    || (f == TooFewDependencies && |s.dependencies| < 2)
    || (exists i :: 0 <= i < |s.dependencies| && DependencyDefect(c, s.dependencies[i], f))
  }

  // ---------------------------------------------------------------- the webhooks' own loops

  method DefaultConfigInPlace(c: Scope, s: ConfigSpec) returns (r: ConfigSpec)
    ensures r == DefaultConfig(c, s)
    ensures FilledConfig(c, s, r)
  {
    r := s;
    ConfigFilled(c, s);
    for i := 0 to |s.valuesFrom|
      invariant r.values == s.values && |r.valuesFrom| == |s.valuesFrom|
      invariant forall k :: 0 <= k < |s.valuesFrom| ==>
                  r.valuesFrom[k] == if k < i then DefaultValuesFrom(c, s.valuesFrom[k]) else s.valuesFrom[k]
    {
      if r.valuesFrom[i].name == "" {
        r := r.(valuesFrom := r.valuesFrom[i := r.valuesFrom[i].(name := c.name)]);
      }
    }
    for i := 0 to |s.values|
      invariant r.valuesFrom == DefaultConfig(c, s).valuesFrom && |r.values| == |s.values|
      invariant forall k :: 0 <= k < |s.values| ==> r.values[k] == if k < i then DefaultValue(c, s.values[k]) else s.values[k]
    {
      var from := r.values[i].valueFrom;
      if from.Some? {
        if from.value.name == "" {
          from := Some(from.value.(name := c.name));
        }
        r := r.(values := r.values[i := r.values[i].(valueFrom := from)]);
      }
    }
  }

  method DefaultCompositionInPlace(c: Scope, s: CompositionSpec) returns (r: CompositionSpec)
    ensures r == DefaultComposition(c, s)
    ensures FilledComposition(c, s, r)
    decreases s
  {
    r := s;
    for i := 0 to |s.dependencies|
      invariant r.wac == s.wac && r.plug == s.plug && |r.dependencies| == |s.dependencies|
      invariant forall k :: 0 <= k < |s.dependencies| ==>
                  r.dependencies[k] == if k < i then DefaultDependency(c, s.dependencies[k]) else s.dependencies[k]
    {
      var d := r.dependencies[i];
      if d.ref.Some? {
        d := d.(ref := Some(DefaultReference(c, d.ref.value)));
      }
      if d.config.Some? {
        var config := DefaultConfigInPlace(c, d.config.value);
        d := d.(config := Some(config));
      }
      if d.oci.Some? {
        d := d.(oci := Some(DefaultOCI(c, d.oci.value)));
      }
      if d.composition.Some? {
        assert s.dependencies[i].composition.value < s.dependencies[i];
        var nested := DefaultCompositionInPlace(c, s.dependencies[i].composition.value);
        d := d.(composition := Some(nested));
      }
      r := r.(dependencies := r.dependencies[i := d]);
    }
    if !r.plug && r.wac == "" {
      r := r.(plug := true);
    }
    CompositionFilled(c, s);
  }

  method ValidateConfig(s: ConfigSpec) returns (errs: seq<Fault>)
    ensures errs == ConfigFaults(s)
    ensures errs == [] <==> AdmissibleConfig(s)
  {
    errs := ValidateValues(s.values);
    var more := ValidateValuesFrom(s.valuesFrom);
    errs := errs + more;
    ConfigFaultsExact(s);
  }

  method ValidateValues(vs: seq<Value>) returns (errs: seq<Fault>)
    ensures errs == ValuesFaults(vs)
  {
    errs := [];
    for i := 0 to |vs|
      invariant errs == ValuesFaults(vs[..i])
    {
      assert vs[..i + 1][..i] == vs[..i];
      errs := errs + ValueFaults(vs[i]);
    }
    assert vs[..|vs|] == vs;
  }

  method ValidateValuesFrom(vs: seq<ValuesFrom>) returns (errs: seq<Fault>)
    ensures errs == ValuesFromFaults(vs)
  {
    errs := [];
    for i := 0 to |vs|
      invariant errs == ValuesFromFaults(vs[..i])
    {
      assert vs[..i + 1][..i] == vs[..i];
      errs := errs + When(vs[i].name == "", Required("name"));
    }
    assert vs[..|vs|] == vs;
  }

  method PickOne(picked: set<string>, notPicked: set<string>) returns (errs: seq<Fault>)
    ensures errs == PickFaults(picked, notPicked)
  {
    errs := [];
    if picked == {} {
      errs := errs + [NothingPicked(notPicked)];
    }
    if |picked| > 1 {
      errs := errs + [TooManyPicked(picked)];
    }
  }

  method PickMode(s: CompositionSpec) returns (picked: set<string>, notPicked: set<string>)
    ensures picked == PickedIf(s.plug, "plug") + PickedIf(s.wac != "", "wac")
    ensures notPicked == PickedIf(!s.plug, "plug") + PickedIf(s.wac == "", "wac")
  {
    picked, notPicked := {}, {};
    if s.plug {
      picked := picked + {"plug"};
    } else {
      notPicked := notPicked + {"plug"};
    }
    if s.wac != "" {
      picked := picked + {"wac"};
    } else {
      notPicked := notPicked + {"wac"};
    }
  }

  method ValidateComposition(c: Scope, s: CompositionSpec) returns (errs: seq<Fault>)
    ensures errs == CompositionFaults(c, s)
    ensures errs == [] <==> Admissible(c, s)
    ensures forall f :: f in errs <==> Defect(c, s, f)
    decreases s, 1
  {
    var picked, notPicked := PickMode(s);
    errs := PickOne(picked, notPicked);
    errs := errs + if |s.dependencies| < 2 then [TooFewDependencies] else [];
    var more := ValidateDependencies(c, s.dependencies);
    errs := errs + more;
    FaultsExact(c, s);
    forall f ensures f in errs <==> Defect(c, s, f) {
      FaultsNamed(c, s, f);
    }
  }

  method ValidateDependencies(c: Scope, deps: seq<CompositionDependency>) returns (errs: seq<Fault>)
    ensures errs == DependenciesFaults(c, deps)
    decreases deps, 2
  {
    errs := [];
    for i := 0 to |deps|
      invariant errs == DependenciesFaults(c, deps[..i])
    {
      assert deps[..i + 1][..i] == deps[..i];
      var one := ValidateDependency(c, deps[i]);
      errs := errs + one;
    }
    assert deps[..|deps|] == deps;
  }

  method ValidateDependency(c: Scope, d: CompositionDependency) returns (errs: seq<Fault>)
    ensures errs == DependencyFaults(c, d)
    decreases d, 1
  {
    var name := if d.component == "" then [Required("component")] else [];
    var sources := ValidateSource(c, d);
    var pick := PickOne(PickedSources(d), OtherSources(d));
    errs := name + sources + pick;
  }

  method ValidateSource(c: Scope, d: CompositionDependency) returns (errs: seq<Fault>)
    ensures errs == SourceFaults(c, d)
    decreases d, 0
  {
    errs := [];
    if d.ref.Some? {
      errs := ReferenceFaults(c, d.ref.value);
    }
    var config := [];
    if d.config.Some? {
      config := ValidateConfig(d.config.value);
    }
    var oci := if d.oci.Some? then OCIFaults(c, d.oci.value) else [];
    var composition := [];
    if d.composition.Some? {
      composition := ValidateComposition(c, d.composition.value);
    }
    errs := errs + config + oci + composition;
  }

  // ---------------------------------------------------------------- stability

  lemma ConfigDefaultIsStable(c: Scope, other: Scope, s: ConfigSpec)
    requires c.name != ""
    ensures DefaultConfig(other, DefaultConfig(c, s)) == DefaultConfig(c, s)
  {
    assert DefaultConfig(other, DefaultConfig(c, s)).values == DefaultConfig(c, s).values;
    assert DefaultConfig(other, DefaultConfig(c, s)).valuesFrom == DefaultConfig(c, s).valuesFrom;
  }

  lemma ReferenceDefaultIsStable(c: Scope, other: Scope, r: ComponentReference)
    requires c.namespace != "" && c.name != ""
    ensures DefaultReference(other, DefaultReference(c, r)) == DefaultReference(c, r)
  {}

  /**
   Once defaulted for a resource with a name and a namespace, a spec stays as it is when
   it is defaulted again for any other resource, at every depth.
   */
  lemma {:induction false} DefaultIsStable(c: Scope, other: Scope, s: CompositionSpec)
    requires c.namespace != "" && c.name != ""
    ensures DefaultComposition(other, DefaultComposition(c, s)) == DefaultComposition(c, s)
    decreases s
  {
    var once := DefaultComposition(c, s);
    forall i | 0 <= i < |s.dependencies|
      ensures DefaultDependency(other, once.dependencies[i]) == once.dependencies[i]
    {
      var d := s.dependencies[i];
      var e := DefaultDependency(c, d);
      if d.ref.Some? {
        ReferenceDefaultIsStable(c, other, d.ref.value);
      }
      if d.config.Some? {
        ConfigDefaultIsStable(c, other, d.config.value);
      }
      if d.composition.Some? {
        assert d.composition.value < d;
        DefaultIsStable(c, other, d.composition.value);
      }
      assert DefaultDependency(other, e) == e;
    }
    assert DefaultComposition(other, once).dependencies == once.dependencies;
  }

  lemma NoFaults(a: seq<Fault>, b: seq<Fault>)
    requires a + b == []
    ensures a == [] && b == []
  {
    assert |a + b| == |a| + |b|;
  }

  lemma {:induction false} DependencyIsValid(c: Scope, deps: seq<CompositionDependency>, i: nat)
    requires i < |deps| && DependenciesFaults(c, deps) == []
    ensures DependencyFaults(c, deps[i]) == []
    decreases |deps|
  {
    NoFaults(DependenciesFaults(c, deps[..|deps| - 1]), DependencyFaults(c, deps[|deps| - 1]));
    if i < |deps| - 1 {
      DependencyIsValid(c, deps[..|deps| - 1], i);
    }
  }

  /** A spec without faults is either a plug or a script, of at least two faultless dependencies. */
  lemma CompositionIsValid(c: Scope, s: CompositionSpec)
    requires CompositionFaults(c, s) == []
    ensures s.plug == (s.wac == "") && |s.dependencies| >= 2
    ensures forall i :: 0 <= i < |s.dependencies| ==> DependencyFaults(c, s.dependencies[i]) == []
  {
    var picked := PickedIf(s.plug, "plug") + PickedIf(s.wac != "", "wac");
    var pick := PickFaults(picked, PickedIf(!s.plug, "plug") + PickedIf(s.wac == "", "wac"));
    NoFaults(pick + When(|s.dependencies| < 2, TooFewDependencies), DependenciesFaults(c, s.dependencies));
    NoFaults(pick, When(|s.dependencies| < 2, TooFewDependencies));
    assert "plug" !in picked || "wac" !in picked by { TwoPicked(picked, "plug", "wac"); }
    forall i | 0 <= i < |s.dependencies| ensures DependencyFaults(c, s.dependencies[i]) == [] {
      DependencyIsValid(c, s.dependencies, i);
    }
  }

  /** A spec without faults is already defaulted, for every resource it may come to belong to. */
  lemma {:induction false} ValidIsDefaulted(c: Scope, other: Scope, s: CompositionSpec)
    requires CompositionFaults(c, s) == []
    ensures DefaultComposition(other, s) == s
    decreases s, 1
  {
    CompositionIsValid(c, s);
    forall i | 0 <= i < |s.dependencies| ensures DefaultDependency(other, s.dependencies[i]) == s.dependencies[i] {
      ValidDependencyIsDefaulted(c, other, s.dependencies[i]);
    }
    assert DefaultComposition(other, s).dependencies == s.dependencies;
  }

  lemma {:induction false} ValidDependencyIsDefaulted(c: Scope, other: Scope, d: CompositionDependency)
    requires DependencyFaults(c, d) == []
    ensures DefaultDependency(other, d) == d
    decreases d, 0
  {
    SourceIsValid(c, d);
    if d.config.Some? {
      ValidConfigIsDefaulted(other, d.config.value);
    }
    if d.composition.Some? {
      ValidIsDefaulted(c, other, d.composition.value);
    }
  }

  /** A dependency without faults picks exactly one source, and that source has no faults. */
  lemma SourceIsValid(c: Scope, d: CompositionDependency)
    requires DependencyFaults(c, d) == []
    ensures d.component != ""
    ensures d.ref.Some? ==> ReferenceFaults(c, d.ref.value) == [] && d.config.None? && d.oci.None? && d.composition.None?
    ensures d.config.Some? ==> ConfigFaults(d.config.value) == [] && d.oci.None? && d.composition.None?
    ensures d.oci.Some? ==> OCIFaults(c, d.oci.value) == [] && d.composition.None?
    ensures d.composition.Some? ==> CompositionFaults(c, d.composition.value) == []
    ensures d.ref.Some? || d.config.Some? || d.oci.Some? || d.composition.Some?
  {
    var picked := PickedSources(d);
    assert SourceFaults(c, d) == [] && picked != {} && |picked| <= 1;
    assert "ref" !in picked || "config" !in picked by { TwoPicked(picked, "ref", "config"); }
    assert "ref" !in picked || "oci" !in picked by { TwoPicked(picked, "ref", "oci"); }
    assert "ref" !in picked || "composition" !in picked by { TwoPicked(picked, "ref", "composition"); }
    assert "config" !in picked || "oci" !in picked by { TwoPicked(picked, "config", "oci"); }
    assert "config" !in picked || "composition" !in picked by { TwoPicked(picked, "config", "composition"); }
    assert "oci" !in picked || "composition" !in picked by { TwoPicked(picked, "oci", "composition"); }
  }

  lemma TwoPicked(picked: set<string>, a: string, b: string)
    requires |picked| <= 1 && a != b
    ensures a !in picked || b !in picked
  {
    if a in picked {
      assert |picked - {a}| == |picked| - 1;
      assert picked - {a} == {};
    }
  }

  lemma ValidConfigIsDefaulted(other: Scope, s: ConfigSpec)
    requires ConfigFaults(s) == []
    ensures DefaultConfig(other, s) == s
  {
    forall i | 0 <= i < |s.values| ensures DefaultValue(other, s.values[i]) == s.values[i] {
      ValueIsValid(s.values, i);
    }
    forall i | 0 <= i < |s.valuesFrom| ensures DefaultValuesFrom(other, s.valuesFrom[i]) == s.valuesFrom[i] {
      ValuesFromIsValid(s.valuesFrom, i);
    }
    assert DefaultConfig(other, s).values == s.values && DefaultConfig(other, s).valuesFrom == s.valuesFrom;
  }

  lemma {:induction false} ValueIsValid(vs: seq<Value>, i: nat)
    requires i < |vs| && ValuesFaults(vs) == []
    ensures ValueFaults(vs[i]) == []
    decreases |vs|
  {
    if i < |vs| - 1 {
      ValueIsValid(vs[..|vs| - 1], i);
    }
  }

  lemma {:induction false} ValuesFromIsValid(vs: seq<ValuesFrom>, i: nat)
    requires i < |vs| && ValuesFromFaults(vs) == []
    ensures vs[i].name != ""
    decreases |vs|
  {
    if i < |vs| - 1 {
      ValuesFromIsValid(vs[..|vs| - 1], i);
    }
  }

  /** Validation only looks at the namespace a resource is in, not at its name. */
  lemma {:induction false} FaultsIgnoreName(c: Scope, name: string, s: CompositionSpec)
    ensures CompositionFaults(c.(name := name), s) == CompositionFaults(c, s)
    decreases s, 1
  {
    DependenciesIgnoreName(c, name, s.dependencies);
  }

  lemma {:induction false} DependenciesIgnoreName(c: Scope, name: string, deps: seq<CompositionDependency>)
    ensures DependenciesFaults(c.(name := name), deps) == DependenciesFaults(c, deps)
    decreases deps, 0
  {
    if deps != [] {
      var d := deps[|deps| - 1];
      DependenciesIgnoreName(c, name, deps[..|deps| - 1]);
      DependencyIgnoresName(c, name, d);
    }
  }

  lemma {:induction false} DependencyIgnoresName(c: Scope, name: string, d: CompositionDependency)
    ensures DependencyFaults(c.(name := name), d) == DependencyFaults(c, d)
    decreases d, 1
  {
    SourceIgnoresName(c, name, d);
  }

  lemma {:induction false} SourceIgnoresName(c: Scope, name: string, d: CompositionDependency)
    ensures SourceFaults(c.(name := name), d) == SourceFaults(c, d)
    decreases d, 0
  {
    if d.composition.Some? {
      FaultsIgnoreName(c, name, d.composition.value);
    }
    assert d.ref.Some? ==> ReferenceFaults(c.(name := name), d.ref.value) == ReferenceFaults(c, d.ref.value);
    assert d.oci.Some? ==> OCIFaults(c.(name := name), d.oci.value) == OCIFaults(c, d.oci.value);
  }

  // ---------------------------------------------------------------- validation is exact

  lemma ReferenceFaultsExact(c: Scope, r: ComponentReference)
    ensures ReferenceFaults(c, r) == [] <==> AdmissibleReference(c, r)
  {}

  lemma OCIFaultsExact(c: Scope, r: OCIReference)
    ensures OCIFaults(c, r) == [] <==> AdmissibleOCI(c, r)
  {}

  lemma ValueFaultsExact(v: Value)
    ensures ValueFaults(v) == [] <==> AdmissibleValue(v)
  {}

  ghost predicate AllValuesAdmissible(vs: seq<Value>) {
    forall i :: 0 <= i < |vs| ==> AdmissibleValue(vs[i])
  }

  lemma AllValuesAdmissibleLast(init: seq<Value>, last: Value)
    ensures AllValuesAdmissible(init + [last]) <==> AllValuesAdmissible(init) && AdmissibleValue(last)
  {
    var vs := init + [last];
    assert vs[|init|] == last && forall i :: 0 <= i < |init| ==> vs[i] == init[i];
  }

  lemma ValuesFaultsLast(init: seq<Value>, last: Value)
    ensures ValuesFaults(init + [last]) == ValuesFaults(init) + ValueFaults(last)
  {
    assert (init + [last])[..|init|] == init;
  }

  lemma {:induction false} ValuesFaultsExact(vs: seq<Value>)
    ensures ValuesFaults(vs) == [] <==> AllValuesAdmissible(vs)
    decreases |vs|
  {
    if vs != [] {
      var init, last := vs[..|vs| - 1], vs[|vs| - 1];
      assert init + [last] == vs;
      ValuesFaultsExact(init);
      ValueFaultsExact(last);
      ValuesFaultsLast(init, last);
      AllValuesAdmissibleLast(init, last);
      NoFaultsExactly(ValuesFaults(init), ValueFaults(last));
    }
  }

  lemma {:induction false} ValuesFromFaultsExact(vs: seq<ValuesFrom>)
    ensures ValuesFromFaults(vs) == [] <==> forall i :: 0 <= i < |vs| ==> vs[i].name != ""
    decreases |vs|
  {
    if vs != [] {
      var init := vs[..|vs| - 1];
      ValuesFromFaultsExact(init);
      assert vs == init + [vs[|vs| - 1]];
    }
  }

  lemma ConfigFaultsExact(s: ConfigSpec)
    ensures ConfigFaults(s) == [] <==> AdmissibleConfig(s)
  {
    ValuesFaultsExact(s.values);
    ValuesFromFaultsExact(s.valuesFrom);
  }

  lemma {:induction false} DependencyFaultsExact(c: Scope, d: CompositionDependency)
    ensures DependencyFaults(c, d) == [] <==> AdmissibleDependency(c, d)
    decreases d, 0
  {
    if d.ref.Some? {
      ReferenceFaultsExact(c, d.ref.value);
    }
    if d.config.Some? {
      ConfigFaultsExact(d.config.value);
    }
    if d.oci.Some? {
      OCIFaultsExact(c, d.oci.value);
    }
    if d.composition.Some? {
      FaultsExact(c, d.composition.value);
    }
    if DependencyFaults(c, d) == [] {
      SourceIsValid(c, d);
    }
  }

  ghost predicate AllAdmissible(c: Scope, deps: seq<CompositionDependency>) {
    forall i :: 0 <= i < |deps| ==> AdmissibleDependency(c, deps[i])
  }

  lemma AllAdmissibleLast(c: Scope, init: seq<CompositionDependency>, last: CompositionDependency)
    ensures AllAdmissible(c, init + [last]) <==> AllAdmissible(c, init) && AdmissibleDependency(c, last)
  {
    var deps := init + [last];
    assert deps[|init|] == last && forall i :: 0 <= i < |init| ==> deps[i] == init[i];
  }

  lemma DependenciesFaultsLast(c: Scope, init: seq<CompositionDependency>, last: CompositionDependency)
    ensures DependenciesFaults(c, init + [last]) == DependenciesFaults(c, init) + DependencyFaults(c, last)
  {
    var deps := init + [last];
    assert deps[..|deps| - 1] == init;
  }

  lemma NoFaultsExactly(a: seq<Fault>, b: seq<Fault>)
    ensures a + b == [] <==> a == [] && b == []
  {
    assert |a + b| == |a| + |b|;
  }

  lemma {:induction false} DependenciesFaultsExact(c: Scope, deps: seq<CompositionDependency>)
    ensures DependenciesFaults(c, deps) == [] <==> AllAdmissible(c, deps)
    decreases deps, 2
  {
    if deps == [] {
      assert DependenciesFaults(c, deps) == [];
    } else {
      var init, last := deps[..|deps| - 1], deps[|deps| - 1];
      assert init + [last] == deps;
      DependenciesFaultsExact(c, init);
      DependencyFaultsExact(c, last);
      AllAdmissibleLast(c, init, last);
      DependenciesFaultsLast(c, init, last);
      NoFaultsExactly(DependenciesFaults(c, init), DependencyFaults(c, last));
    }
  }

  /** Validation passes exactly the admissible specs. */
  lemma {:induction false} FaultsExact(c: Scope, s: CompositionSpec)
    ensures CompositionFaults(c, s) == [] <==> Admissible(c, s)
    decreases s, 3
  {
    DependenciesFaultsExact(c, s.dependencies);
    if CompositionFaults(c, s) == [] {
      CompositionIsValid(c, s);
    }
  }

  // ---------------------------------------------------------------- every fault is named

  ghost predicate SomeValueDefect(vs: seq<Value>, f: Fault) {
    exists i :: 0 <= i < |vs| && ValueDefect(vs[i], f)
  }

  lemma SomeValueDefectLast(init: seq<Value>, last: Value, f: Fault)
    ensures SomeValueDefect(init + [last], f) <==> SomeValueDefect(init, f) || ValueDefect(last, f)
  {
    var vs := init + [last];
    assert vs[|init|] == last && forall i :: 0 <= i < |init| ==> vs[i] == init[i];
  }

  lemma ValueFaultsNamed(v: Value, f: Fault)
    ensures f in ValueFaults(v) <==> ValueDefect(v, f)
  {}

  lemma {:induction false} ValuesFaultsNamed(vs: seq<Value>, f: Fault)
    ensures f in ValuesFaults(vs) <==> SomeValueDefect(vs, f)
    decreases |vs|
  {
    if vs != [] {
      var init, last := vs[..|vs| - 1], vs[|vs| - 1];
      assert init + [last] == vs;
      ValuesFaultsNamed(init, f);
      ValueFaultsNamed(last, f);
      SomeValueDefectLast(init, last, f);
    }
  }

  lemma {:induction false} ValuesFromFaultsNamed(vs: seq<ValuesFrom>, f: Fault)
    ensures f in ValuesFromFaults(vs) <==> f == Required("name") && exists i :: 0 <= i < |vs| && vs[i].name == ""
    decreases |vs|
  {
    if vs != [] {
      var init, last := vs[..|vs| - 1], vs[|vs| - 1];
      ValuesFromFaultsNamed(init, f);
      assert forall i :: 0 <= i < |init| ==> vs[i] == init[i];
    }
  }

  lemma ReferenceFaultsNamed(c: Scope, r: ComponentReference, f: Fault)
    ensures f in ReferenceFaults(c, r) <==> ReferenceDefect(c, r, f)
  {}

  lemma OCIFaultsNamed(c: Scope, r: OCIReference, f: Fault)
    ensures f in OCIFaults(c, r) <==> OCIDefect(c, r, f)
  {}

  lemma ConfigFaultsNamed(s: ConfigSpec, f: Fault)
    ensures f in ConfigFaults(s) <==> ConfigDefect(s, f)
  {
    ValuesFaultsNamed(s.values, f);
    ValuesFromFaultsNamed(s.valuesFrom, f);
  }

  lemma PickedFaultsNamed(d: CompositionDependency, f: Fault)
    ensures f in PickFaults(PickedSources(d), OtherSources(d)) <==>
              || (f == NothingPicked({"ref", "config", "oci", "composition"}) && Sources(d) == {})
              || (f == TooManyPicked(Sources(d)) && |Sources(d)| > 1)
  {
    assert PickedSources(d) == Sources(d);
    if Sources(d) == {} {
      assert OtherSources(d) == {"ref", "config", "oci", "composition"};
    }
  }

  lemma {:induction false} DependencyFaultsNamed(c: Scope, d: CompositionDependency, f: Fault)
    ensures f in DependencyFaults(c, d) <==> DependencyDefect(c, d, f)
    decreases d, 1
  {
    var pick := PickFaults(PickedSources(d), OtherSources(d));
    SourceFaultsNamed(c, d, f);
    PickedFaultsNamed(d, f);
    InOneOf(When(d.component == "", Required("component")), SourceFaults(c, d), pick, [], f);
    assert DependencyFaults(c, d) + [] == DependencyFaults(c, d);
  }

  ghost predicate SourceDefect(c: Scope, d: CompositionDependency, f: Fault) {
    || (d.ref.Some? && ReferenceDefect(c, d.ref.value, f))
    || (d.config.Some? && ConfigDefect(d.config.value, f))
    || (d.oci.Some? && OCIDefect(c, d.oci.value, f))
    || (d.composition.Some? && Defect(c, d.composition.value, f))
  }

  lemma InOneOf(x: seq<Fault>, y: seq<Fault>, z: seq<Fault>, u: seq<Fault>, f: Fault)
    ensures f in x + y + z + u <==> f in x || f in y || f in z || f in u
  {}

  lemma {:induction false} SourceFaultsNamed(c: Scope, d: CompositionDependency, f: Fault)
    ensures f in SourceFaults(c, d) <==> SourceDefect(c, d, f)
    decreases d, 0
  {
    var x := if d.ref.Some? then ReferenceFaults(c, d.ref.value) else [];
    var y := if d.config.Some? then ConfigFaults(d.config.value) else [];
    var z := if d.oci.Some? then OCIFaults(c, d.oci.value) else [];
    var u := if d.composition.Some? then CompositionFaults(c, d.composition.value) else [];
    InOneOf(x, y, z, u, f);
    assert f in x <==> d.ref.Some? && ReferenceDefect(c, d.ref.value, f) by {
      if d.ref.Some? { ReferenceFaultsNamed(c, d.ref.value, f); }
    }
    assert f in y <==> d.config.Some? && ConfigDefect(d.config.value, f) by {
      if d.config.Some? { ConfigFaultsNamed(d.config.value, f); }
    }
    assert f in z <==> d.oci.Some? && OCIDefect(c, d.oci.value, f) by {
      if d.oci.Some? { OCIFaultsNamed(c, d.oci.value, f); }
    }
    assert f in u <==> d.composition.Some? && Defect(c, d.composition.value, f) by {
      if d.composition.Some? { FaultsNamed(c, d.composition.value, f); }
    }
  }

  ghost predicate SomeDefect(c: Scope, deps: seq<CompositionDependency>, f: Fault) {
    exists i :: 0 <= i < |deps| && DependencyDefect(c, deps[i], f)
  }

  lemma SomeDefectLast(c: Scope, init: seq<CompositionDependency>, last: CompositionDependency, f: Fault)
    ensures SomeDefect(c, init + [last], f) <==> SomeDefect(c, init, f) || DependencyDefect(c, last, f)
  {
    var deps := init + [last];
    assert deps[|init|] == last && forall i :: 0 <= i < |init| ==> deps[i] == init[i];
  }

  lemma {:induction false} DependenciesFaultsNamed(c: Scope, deps: seq<CompositionDependency>, f: Fault)
    ensures f in DependenciesFaults(c, deps) <==> SomeDefect(c, deps, f)
    decreases deps, 2
  {
    if deps == [] {
      assert DependenciesFaults(c, deps) == [];
    } else {
      var init, last := deps[..|deps| - 1], deps[|deps| - 1];
      assert init + [last] == deps;
      DependenciesFaultsNamed(c, init, f);
      DependencyFaultsNamed(c, last, f);
      SomeDefectLast(c, init, last, f);
      DependenciesFaultsLast(c, init, last);
    }
  }

  lemma ModeFaultsNamed(s: CompositionSpec, f: Fault)
    ensures f in PickFaults(PickedIf(s.plug, "plug") + PickedIf(s.wac != "", "wac"), PickedIf(!s.plug, "plug") + PickedIf(s.wac == "", "wac")) <==>
              (f == NothingPicked({"plug", "wac"}) && !s.plug && s.wac == "") || (f == TooManyPicked({"plug", "wac"}) && s.plug && s.wac != "")
  {
    var picked := PickedIf(s.plug, "plug") + PickedIf(s.wac != "", "wac");
    if s.plug && s.wac != "" {
      assert picked == {"plug", "wac"};
    } else if !s.plug && s.wac == "" {
      assert picked == {};
      assert PickedIf(!s.plug, "plug") + PickedIf(s.wac == "", "wac") == {"plug", "wac"};
    } else {
      assert picked == {"plug"} || picked == {"wac"};
    }
  }

  /** A fault is reported exactly if the spec has it, at whatever depth. */
  lemma {:induction false} FaultsNamed(c: Scope, s: CompositionSpec, f: Fault)
    ensures f in CompositionFaults(c, s) <==> Defect(c, s, f)
    decreases s, 3
  {
    DependenciesFaultsNamed(c, s.dependencies, f);
    ModeFaultsNamed(s, f);
    var picked := PickFaults(PickedIf(s.plug, "plug") + PickedIf(s.wac != "", "wac"), PickedIf(!s.plug, "plug") + PickedIf(s.wac == "", "wac"));
    InOneOf(picked, When(|s.dependencies| < 2, TooFewDependencies), DependenciesFaults(c, s.dependencies), [], f);
    assert CompositionFaults(c, s) + [] == CompositionFaults(c, s);
  }
}
