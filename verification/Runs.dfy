/**
 What one run of each controller does to its resource's status, said without the stash:
 a function of the resource and of everything the run reads from outside.
 */
module Runs {
  import opened Base
  import opened Spans
  import opened Resources

  // ---------------------------------------------------------------- what a run reads

  /** Looking up the repository a resource publishes to, its keychain and its tag template. */
  datatype RepositoryLookup =
    | RepositoryMissing
    | RepositoryError
    | RepositoryStale
    | RepositoryUnready(failed: bool)
    | KeychainError
    | TemplateError(keychain: Keychain)
    | RepositoryResolved(keychain: Keychain, tag: Tag)

  /** Looking up a service account's pull secrets. */
  datatype AccountLookup = AccountMissing | AccountError | AccountResolved(keychain: Keychain)

  /** Reading a referenced resource, from any cache. */
  datatype Read = NotComponent | Missing | ReadError | Got(resource: Object)

  datatype Collected = ConfigMissing | ConfigError | ConfigCollected

  /** One dependency: the resource, its repository, and its pulled component. */
  datatype DependencyEnv = DependencyEnv(read: Read, repository: RepositoryLookup, pulled: Option<Bytes>)

  datatype Env =
    | ComponentEnv(repository: RepositoryLookup, account: AccountLookup, resolved: Option<string>,
                   read: Read, copied: bool, configured: bool)
    | CompositionEnv(managed: bool, dependencies: seq<DependencyEnv>, repository: RepositoryLookup,
                     child: bool, composed: Option<Bytes>, pushed: Option<string>)
    | ContainerEnv(component: DependencyEnv, image: Read, imageRepository: RepositoryLookup,
                   repository: RepositoryLookup, appended: Option<string>)
    | ConfigStoreEnv(collected: Collected, repository: RepositoryLookup, child: bool,
                     built: Option<Bytes>, pushed: Option<string>)
    | ImageEnv(repository: RepositoryLookup, account: AccountLookup, resolved: Option<string>, copied: bool)

  /** The environment answers the questions this resource asks. */
  predicate Fits(spec: Spec, env: Env) {
    match spec
    case Component(_, _) => env.ComponentEnv?
    case Composition(_, _, deps) => env.CompositionEnv? && |env.dependencies| == |deps|
    case ContainerImage(_, _) => env.ContainerEnv?
    case ConfigStore => env.ConfigStoreEnv?
    case Image(_) => env.ImageEnv?
  }

  // ---------------------------------------------------------------- what a run does

  datatype Call =
    | Copy(tag: Tag, keychain: Keychain, digest: string)
    | Compose(inputs: seq<(string, Bytes)>)
    | Push(tag: Tag, keychain: Keychain, component: Bytes)
    | Append(base: ImageName, tag: Tag, keychain: Keychain, component: Bytes)

  /** A run ends with a status to publish, unless it must be skipped, or it panics. */
  datatype Result = Panicked | Ended(status: Status, skip: bool, calls: seq<Call>)

  /** The status after `ResolveRepository` ran for the resource itself under condition `t`. */
  function MarkRepository(s: Status, t: ConditionType, lookup: RepositoryLookup): Status {
    match lookup
    case RepositoryMissing => Mark(s, t, False)
    case RepositoryStale => Mark(s, t, Unknown)
    case RepositoryUnready(failed) => Mark(s, t, if failed then False else Unknown)
    case RepositoryResolved(_, _) => Mark(s, t, True)
    case RepositoryError => s
    case KeychainError => s
    case TemplateError(_) => s
  }

  function MarkReadiness(s: Status, t: ConditionType, ready: Condition): Status {
    Mark(s, t, if ready == False then False else Unknown)
  }

  function MarkCycle(s: Status, t: ConditionType, spans: seq<Span>, self: Uid): Status {
    Mark(s, t, CycleDetected).(trace := Prune(spans, self))
  }

  function Publish(s: Status, image: ImageName, trace: seq<Span>): Status {
    s.(image := image, trace := trace, wit := true)
  }

  // ---------------------------------------------------------------- Component and Image

  function ComponentRun(o: Object, s: Status, env: Env): Result
    requires o.spec.Component? && env.ComponentEnv?
  {
    var s := MarkRepository(s, RepositoryReady, env.repository);
    var s := if o.spec.oci.Some? && env.account.AccountMissing? then Mark(s, ComponentCopied, False) else s;
    if !env.repository.RepositoryResolved? || (o.spec.oci.Some? && !env.account.AccountResolved?) then
      Ended(s, env.repository.RepositoryStale?, [])
    else if o.spec.oci.Some? then CopyFrom(o, s, env, env.account.keychain + env.repository.keychain)
    else CopyFrom(o, s, env, env.repository.keychain)
  }

  /** Finding the source of the copy, and refusing one that contains the resource itself or is not ready. */
  function CopyFrom(o: Object, s: Status, env: Env, keychain: Keychain): Result
    requires o.spec.Component? && env.ComponentEnv? && env.repository.RepositoryResolved?
  {
    if o.spec.oci.Some? then
      if env.resolved.None? then Ended(s, false, [])
      else CopyRun(s, env, keychain, env.resolved.value, [])
    else if o.spec.ref.None? then Panicked
    else
      match env.read
      case NotComponent => Ended(Mark(s, ComponentCopied, False), false, [])
      case Missing => Ended(Mark(s, ComponentCopied, Unknown), false, [])
      case ReadError => Ended(s, false, [])
      case Got(c) =>
        var spans := [SpanOf(c)];
        if Occurs(spans, o.uid) then Ended(MarkCycle(s, ComponentCopied, spans, o.uid), false, [])
        else if !Ready(c) then Ended(MarkReadiness(s, ComponentCopied, ReadyOf(c)), false, [])
        else if c.status.image.NoImage? then Ended(Mark(s, ComponentCopied, Unknown), false, [])
        else if c.status.image.Malformed? then Ended(Mark(s, ComponentCopied, False), false, [])
        else CopyRun(s, env, keychain, c.status.image.digest, spans)
  }

  /** Copying a resolved digest to the resource's own tag, and what is published then. */
  function CopyRun(s: Status, env: Env, keychain: Keychain, digest: string, spans: seq<Span>): Result
    requires env.ComponentEnv? && env.repository.RepositoryResolved?
  {
    var calls := [Copy(env.repository.tag, keychain, digest)];
    if !env.copied || !env.configured then Ended(Mark(s, ComponentCopied, False), false, calls)
    else
      Ended(Publish(Mark(s, ComponentCopied, True), Digested(env.repository.tag.repository, digest), spans), false, calls)
  }

  function ImageRun(o: Object, s: Status, env: Env): Result
    requires o.spec.Image? && env.ImageEnv?
  {
    var s := MarkRepository(s, RepositoryReady, env.repository);
    var s := if env.account.AccountMissing? then Mark(s, ImageCopied, False) else s;
    if !env.repository.RepositoryResolved? || !env.account.AccountResolved? then
      Ended(s, env.repository.RepositoryStale?, [])
    else if env.resolved.None? then Ended(s, false, [])
    else
      var calls := [Copy(env.repository.tag, env.account.keychain + env.repository.keychain, env.resolved.value)];
      if !env.copied then Ended(Mark(s, ImageCopied, False), false, calls)
      else
        var image := Digested(env.repository.tag.repository, env.resolved.value);
        Ended(Mark(s, ImageCopied, True).(image := image), false, calls)
  }

  // ---------------------------------------------------------------- Composition

  datatype Resolved = Resolved(name: string, image: ImageName, component: Bytes)

  /** How far resolving the dependencies got, and the status it left. */
  datatype Resolution =
    | ResolutionPanic
    | ResolutionFailed(status: Status, skip: bool, resolved: seq<Resolved>)
    | AllResolved(status: Status, spans: seq<Span>, resolved: seq<Resolved>, keychain: Keychain)

  function ResolveDependencies(self: Uid, deps: seq<Dependency>, envs: seq<DependencyEnv>,
                               s: Status, spans: seq<Span>, resolved: seq<Resolved>, keychain: Keychain): Resolution
    requires |deps| == |envs|
    decreases |deps|
  {
    if deps == [] then AllResolved(s, spans, resolved, keychain)
    else if deps[0].ref.None? then ResolutionPanic
    else
      match envs[0].read
      case NotComponent => ResolutionFailed(Mark(s, DependenciesResolved, False), false, resolved)
      case Missing => ResolutionFailed(Mark(s, DependenciesResolved, False), false, resolved)
      case ReadError => ResolutionFailed(s, false, resolved)
      case Got(c) =>
        var spans := spans + [SpanOf(c)];
        if Occurs(spans, self) then
          ResolutionFailed(MarkCycle(s, DependenciesResolved, spans, self), false, resolved)
        else if c.generation != c.status.observedGeneration then
          ResolutionFailed(Mark(s, DependenciesResolved, Unknown), true, resolved)
        else if !Ready(c) then
          ResolutionFailed(MarkReadiness(s, DependenciesResolved, ReadyOf(c)), false, resolved)
        else if c.status.image.NoImage? then
          ResolutionFailed(Mark(s, DependenciesResolved, False), false, resolved)
        else if !envs[0].repository.RepositoryResolved? then
          ResolutionFailed(s, envs[0].repository.RepositoryStale?, resolved)
        else if c.status.image.Malformed? || envs[0].pulled.None? then
          ResolutionFailed(s, false, resolved)
        else if !c.status.wit then ResolutionPanic
        else
          ResolveDependencies(self, deps[1..], envs[1..], Mark(s, DependenciesResolved, True), spans,
                              resolved + [Resolved(deps[0].component, c.status.image, envs[0].pulled.value)],
                              envs[0].repository.keychain)
  }

  function Statuses(resolved: seq<Resolved>): (r: seq<DependencyStatus>)
    ensures |r| == |resolved|
  {
    seq(|resolved|, i requires 0 <= i < |resolved| => DependencyStatus(resolved[i].name, resolved[i].image))
  }

  function Inputs(resolved: seq<Resolved>): (r: seq<(string, Bytes)>)
    ensures |r| == |resolved|
  {
    seq(|resolved|, i requires 0 <= i < |resolved| => (resolved[i].name, resolved[i].component))
  }

  function CompositionRun(o: Object, s: Status, env: Env): Result
    requires o.spec.Composition? && Fits(o.spec, env)
  {
    match ResolveDependencies(o.uid, o.spec.dependencies, env.dependencies, s, [], [], [])
    case ResolutionPanic => Panicked
    case ResolutionFailed(s, skip, resolved) =>
      var s := MarkRepository(s.(dependencies := Statuses(resolved)), RepositoryReady, env.repository);
      Ended(s, skip || env.repository.RepositoryStale?, [])
    case AllResolved(s, spans, resolved, keychain) =>
      ComposeRun(o, MarkRepository(s.(dependencies := Statuses(resolved)), RepositoryReady, env.repository), env, spans, resolved, keychain)
  }

  /** What follows once every dependency is resolved. */
  function ComposeRun(o: Object, s: Status, env: Env, spans: seq<Span>, resolved: seq<Resolved>, keychain: Keychain): Result
    requires o.spec.Composition? && Fits(o.spec, env)
  {
    if !env.managed || !env.repository.RepositoryResolved? || !env.child then
      Ended(s, env.repository.RepositoryStale?, [])
    else if resolved == [] || (!o.spec.plug && o.spec.wac == "") then Panicked
    else
      var composing := [Compose(Inputs(resolved))];
      if env.composed.None? then Ended(s, false, composing)
      else PushRun(s, env.repository, env.repository.keychain + keychain, env.composed.value, env.pushed, spans, composing)
  }

  function PushRun(s: Status, repository: RepositoryLookup, keychain: Keychain, component: Bytes,
                   pushed: Option<string>, spans: seq<Span>, before: seq<Call>): Result
    requires repository.RepositoryResolved?
  {
    var calls := before + [Push(repository.tag, keychain, component)];
    if pushed.None? then Ended(Mark(s, ComponentPushed, False), false, calls)
    else
      var image := Digested(repository.tag.repository, pushed.value);
      Ended(Publish(Mark(s, ComponentPushed, True), image, spans), false, calls)
  }

  function ConfigStoreRun(o: Object, s: Status, env: Env): Result
    requires o.spec.ConfigStore? && env.ConfigStoreEnv?
  {
    var s := match env.collected
             case ConfigMissing => Mark(s, ConfigResolved, False)
             case ConfigError => s
             case ConfigCollected => Mark(s, ConfigResolved, True);
    var s := MarkRepository(s, RepositoryReady, env.repository);
    if !env.collected.ConfigCollected? || !env.repository.RepositoryResolved? || !env.child then
      Ended(s, env.repository.RepositoryStale?, [])
    else if env.built.None? then Ended(s, false, [])
    else PushRun(s, env.repository, env.repository.keychain, env.built.value, env.pushed, [], [])
  }

  // ---------------------------------------------------------------- ComponentContainerImage

  /** What one of the two resolutions of a container image leaves behind. */
  datatype Part = Part(status: Status, spans: seq<Span>, ok: bool, skip: bool)

  function ResolveComponent(self: Uid, env: DependencyEnv, s: Status): Part {
    match env.read
    case NotComponent => Part(Mark(s, ComponentPulled, False), [], false, false)
    case Missing => Part(Mark(s, ComponentPulled, False), [], false, false)
    case ReadError => Part(s, [], false, false)
    case Got(c) =>
      var spans := [SpanOf(c)];
      if Occurs(spans, self) then Part(MarkCycle(s, ComponentPulled, spans, self), spans, false, false)
      else if c.generation != c.status.observedGeneration then
        Part(Mark(s, ComponentPulled, Unknown), spans, false, true)
      else if !Ready(c) then Part(MarkReadiness(s, ComponentPulled, ReadyOf(c)), spans, false, false)
      else if c.status.image.NoImage? then Part(Mark(s, ComponentPulled, False), spans, false, false)
      else if !env.repository.RepositoryResolved? then Part(s, spans, false, env.repository.RepositoryStale?)
      else if c.status.image.Malformed? || env.pulled.None? then Part(s, spans, false, false)
      else Part(Mark(s, ComponentPulled, True), spans, true, false)
  }

  /** A repository lookup that needs no tag succeeds once there is a keychain. */
  function KeychainOf(lookup: RepositoryLookup): Option<Keychain> {
    if lookup.RepositoryResolved? || lookup.TemplateError? then Some(lookup.keychain) else None
  }

  function ResolveImage(self: Uid, read: Read, lookup: RepositoryLookup, s: Status, spans: seq<Span>): Part {
    match read
    case NotComponent => Part(s, spans, false, false)
    case Missing => Part(Mark(s, ImageReady, False), spans, false, false)
    case ReadError => Part(s, spans, false, false)
    case Got(image) =>
      var spans := spans + [SpanOf(image)];
      if Occurs(spans, self) then Part(MarkCycle(s, ImageReady, spans, self), spans, false, false)
      else if image.generation != image.status.observedGeneration then
        Part(Mark(s, ImageReady, Unknown), spans, false, true)
      else if !Ready(image) then Part(MarkReadiness(s, ImageReady, ReadyOf(image)), spans, false, false)
      else if KeychainOf(lookup).None? then
        Part(MarkRepository(s, ImageReady, lookup), spans, false, lookup.RepositoryStale?)
      else if !image.status.image.Digested? then Part(s, spans, false, false)
      else Part(Mark(s, ImageReady, True), spans, true, false)
  }

  function ContainerRun(o: Object, s: Status, env: Env): Result
    requires o.spec.ContainerImage? && env.ContainerEnv?
  {
    var component := ResolveComponent(o.uid, env.component, s);
    var image := ResolveImage(o.uid, env.image, env.imageRepository, component.status, component.spans);
    var s := MarkRepository(image.status, RepositoryReady, env.repository);
    if !component.ok || !image.ok || !env.repository.RepositoryResolved? then
      Ended(s, component.skip || image.skip || env.repository.RepositoryStale?, [])
    else
      var keychain := env.repository.keychain + env.imageRepository.keychain;
      var base := env.image.resource.status.image;
      var calls := [Append(base, env.repository.tag, keychain, env.component.pulled.value)];
      if env.appended.None? then Ended(s, false, calls)
      else
        var published := Digested(env.repository.tag.repository, env.appended.value);
        Ended(Publish(Mark(s, Pushed, True), published, image.spans), false, calls)
  }

  // ---------------------------------------------------------------- any kind

  function Run(o: Object, s: Status, env: Env): Result
    requires Fits(o.spec, env)
  {
    match o.spec
    case Component(_, _) => ComponentRun(o, s, env)
    case Composition(_, _, _) => CompositionRun(o, s, env)
    case ContainerImage(_, _) => ContainerRun(o, s, env)
    case ConfigStore => ConfigStoreRun(o, s, env)
    case Image(_) => ImageRun(o, s, env)
  }
}
