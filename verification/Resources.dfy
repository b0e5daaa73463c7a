/**
 The resources the controllers reconcile: their specs as far as they refer to other
 resources, their published status, and what readiness means for each kind.
 */
module Resources {
  import opened Base
  import opened Spans

  /** An image name as the status holds it: empty, pinned by digest, or not parseable as either. */
  datatype ImageName = NoImage | Digested(repository: string, digest: string) | Malformed(text: string)

  datatype Tag = Tag(repository: string, tag: string)

  /** A keychain is the ordered list of credential sources it consults. */
  type Keychain = seq<string>

  datatype ConditionType =
    | RepositoryReady | ComponentCopied | DependenciesResolved | ComponentPushed
    | ConfigResolved | ComponentPulled | ImageReady | Pushed | ImageCopied

  /** A condition's status. `CycleDetected` is False with that reason. */
  datatype Condition = True | False | Unknown | CycleDetected

  datatype Dependency = Dependency(component: string, ref: Option<Key>)

  datatype DependencyStatus = DependencyStatus(component: string, image: ImageName)

  datatype Spec =
    | Component(oci: Option<string>, ref: Option<Key>)
    | Composition(plug: bool, wac: string, dependencies: seq<Dependency>)
    | ContainerImage(component: Key, imageRef: Key)
    | ConfigStore
    | Image(source: string)

  datatype Status = Status(
    observedGeneration: nat,
    conditions: map<ConditionType, Condition>,
    image: ImageName,
    wit: bool,
    trace: seq<Span>,
    dependencies: seq<DependencyStatus>)

  datatype Object = Object(uid: Uid, key: Key, generation: nat, spec: Spec, status: Status)

  const INITIAL_STATUS := Status(0, map[], NoImage, false, [], [])

  /** The digest part of an image name, empty when there is none. */
  function DigestStr(image: ImageName): string {
    if image.Digested? then image.digest else ""
  }

  /** `SynthesizeSpan`: what referring to this resource contributes to a trace. */
  function SpanOf(o: Object): Span {
    Span(DigestStr(o.status.image), o.uid, o.key, o.status.trace, false)
  }

  function SpansOf(os: seq<Object>): (f: seq<Span>) {
    seq(|os|, i requires 0 <= i < |os| => SpanOf(os[i]))
  }

  // ---------------------------------------------------------------- references

  function DependencyReferences(deps: seq<Dependency>): seq<Key> {
    if deps == [] then []
    else (if deps[0].ref.Some? then [deps[0].ref.value] else []) + DependencyReferences(deps[1..])
  }

  /** The resources a run reads, in order. */
  function References(spec: Spec): seq<Key> {
    match spec
    case Component(oci, ref) => if oci.None? && ref.Some? then [ref.value] else []
    case Composition(_, _, dependencies) => DependencyReferences(dependencies)
    case ContainerImage(component, imageRef) => [component, imageRef]
    case ConfigStore => []
    case Image(_) => []
  }

  // ---------------------------------------------------------------- conditions

  /** The conditions Ready depends on. */
  function Dependents(spec: Spec): set<ConditionType> {
    match spec
    case Component(_, _) => {RepositoryReady, ComponentCopied}
    case Composition(_, _, _) => {RepositoryReady, DependenciesResolved, ComponentPushed}
    case ContainerImage(_, _) => {ImageReady, RepositoryReady, ComponentPulled, Pushed}
    case ConfigStore => {RepositoryReady, ConfigResolved, ComponentPushed}
    case Image(_) => {RepositoryReady, ImageCopied}
  }

  /** The condition a run sets to True exactly when it has published an image. */
  function Final(spec: Spec): (t: ConditionType)
    ensures t in Dependents(spec)
  {
    match spec
    case Component(_, _) => ComponentCopied
    case Composition(_, _, _) => ComponentPushed
    case ContainerImage(_, _) => Pushed
    case ConfigStore => ComponentPushed
    case Image(_) => ImageCopied
  }

  function ConditionOf(s: Status, t: ConditionType): Condition {
    if t in s.conditions then s.conditions[t] else Unknown
  }

  function Mark(s: Status, t: ConditionType, c: Condition): Status {
    s.(conditions := s.conditions[t := c])
  }

  predicate IsFalse(c: Condition) { c == False || c == CycleDetected }

  /** Ready: True if every dependent is, False if one is False, Unknown otherwise. */
  function ReadyOf(o: Object): (c: Condition)
    ensures c == True ==> Done(o.spec, o.status)
  {
    if forall t :: t in Dependents(o.spec) ==> ConditionOf(o.status, t) == True then True
    else if exists t :: t in Dependents(o.spec) && IsFalse(ConditionOf(o.status, t)) then False
    else Unknown
  }

  predicate Ready(o: Object) { ReadyOf(o) == True }

  predicate Done(spec: Spec, s: Status) { ConditionOf(s, Final(spec)) == True }

  /** Some condition currently says CycleDetected. */
  predicate CycleReported(s: Status) {
    exists t :: t in s.conditions && s.conditions[t] == CycleDetected
  }
}
