/**
 What the runs of components, images, container images and config stores leave in each
 field of the status, which calls they make and whether the status is written.
 */
module KindOutcomes {
  import opened Base
  import opened Spans
  import opened Resources
  import opened Runs
  import opened Outcomes

  /** Everything but conditions, image, trace and interfaces stays. */
  predicate KeepsRest(s: Status, a: Status) {
    a.dependencies == s.dependencies && a.observedGeneration == s.observedGeneration
  }

  /** Image, trace and interfaces are published together under the own repository, or stay as they were. */
  predicate Publishes(s: Status, a: Status, lookup: RepositoryLookup, digest: Option<string>, trace: seq<Span>)
    requires digest.Some? ==> lookup.RepositoryResolved?
  {
    && a.image == (if digest.Some? then Digested(lookup.tag.repository, digest.value) else s.image)
    && a.trace == (if digest.Some? then trace else s.trace)
    && a.wit == (digest.Some? || s.wit)
  }

  // ---------------------------------------------------------------- Component

  /** The registry can be reached: the repository resolved, and the service account if one is needed. */
  predicate CanCopy(o: Object, env: Env)
    requires o.spec.Component? && env.ComponentEnv?
  {
    env.repository.RepositoryResolved? && (o.spec.oci.Some? ==> env.account.AccountResolved?)
  }

  /** The digest to copy: the one the image name resolves to, or that of the component read. */
  function Source(o: Object, env: Env): Option<string>
    requires o.spec.Component? && env.ComponentEnv?
  {
    if o.spec.oci.Some? then env.resolved
    else if env.read.Got? && !OccursIn(SpanOf(env.read.resource), o.uid) && ReadyOf(env.read.resource) == True
            && env.read.resource.status.image.Digested?
    then Some(env.read.resource.status.image.digest)
    else None
  }

  /**
   ComponentCopied when nothing is copied. A component not found, open in its readiness or
   without an image is waited for; one that is not ready for good or has a malformed
   image, and a missing service account, are failures; other errors leave what was shown.
   */
  predicate NotCopiedShows(o: Object, env: Env, before: Condition, after: Condition)
    requires o.spec.Component? && env.ComponentEnv?
  {
    if o.spec.oci.Some? then after == if env.account.AccountMissing? then False else before
    else if !env.repository.RepositoryResolved? then after == before
    else
      match env.read
      case NotComponent => after == False
      case Missing => after == Unknown
      case ReadError => after == before
      case Got(c) =>
        if OccursIn(SpanOf(c), o.uid) then after == CycleDetected
        else if ReadyOf(c) == False then after == False
        else if ReadyOf(c) == Unknown || c.status.image.NoImage? then after == Unknown
        else after == False
  }

  ghost predicate ComponentOutcome(o: Object, s: Status, env: Env, r: Result)
    requires o.spec.Component? && env.ComponentEnv?
  {
    var copies := CanCopy(o, env) && Source(o, env).Some?;
    var published := copies && env.copied && env.configured;
    var spans := if o.spec.oci.None? && env.read.Got? then [SpanOf(env.read.resource)] else [];
    && (r.Panicked? <==> env.repository.RepositoryResolved? && o.spec.oci.None? && o.spec.ref.None?)
    && (r.Ended? ==>
          && r.skip == env.repository.RepositoryStale?
          && KeepsRest(s, r.status) && OnlyConditions(s, r.status, {RepositoryReady, ComponentCopied})
          && RepositoryShows(env.repository, ConditionOf(s, RepositoryReady), ConditionOf(r.status, RepositoryReady))
          && (if copies then ConditionOf(r.status, ComponentCopied) == if published then True else False
              else NotCopiedShows(o, env, ConditionOf(s, ComponentCopied), ConditionOf(r.status, ComponentCopied)))
          && (if CanCopy(o, env) && o.spec.oci.None? && Occurs(spans, o.uid)
              then r.status.trace == Prune(spans, o.uid) && r.status.image == s.image && r.status.wit == s.wit
              else Publishes(s, r.status, env.repository, if published then Source(o, env) else None, spans))
          && |r.calls| == (if copies then 1 else 0)
          && (copies ==> CopiesFor(o, env, r.calls[0])))
  }

  /** The copy goes to the own tag, with the service account's keychain before the repository's if there is one. */
  predicate CopiesFor(o: Object, env: Env, call: Call)
    requires o.spec.Component? && env.ComponentEnv? && CanCopy(o, env) && Source(o, env).Some?
  {
    && call.Copy? && call.tag == env.repository.tag && call.digest == Source(o, env).value
    && call.keychain == if o.spec.oci.Some? then env.account.keychain + env.repository.keychain else env.repository.keychain
  }

  lemma BlockedComponentLeaves(o: Object, s: Status, env: Env)
    requires o.spec.Component? && env.ComponentEnv? && !CanCopy(o, env)
    ensures ComponentOutcome(o, s, env, ComponentRun(o, s, env))
  {
    RepositoryField(s, RepositoryReady, env.repository);
  }

  lemma NamedComponentLeaves(o: Object, s: Status, env: Env)
    requires o.spec.Component? && env.ComponentEnv? && CanCopy(o, env) && o.spec.oci.Some?
    ensures ComponentOutcome(o, s, env, ComponentRun(o, s, env))
  {
    RepositoryField(s, RepositoryReady, env.repository);
  }

  lemma ReferringComponentLeaves(o: Object, s: Status, env: Env)
    requires o.spec.Component? && env.ComponentEnv? && CanCopy(o, env) && o.spec.oci.None?
    ensures ComponentOutcome(o, s, env, ComponentRun(o, s, env))
  {
    RepositoryField(s, RepositoryReady, env.repository);
    if env.read.Got? {
      OccursNext([], SpanOf(env.read.resource), o.uid);
      assert [] + [SpanOf(env.read.resource)] == [SpanOf(env.read.resource)];
    }
  }

  lemma ComponentLeaves(o: Object, s: Status, env: Env)
    requires o.spec.Component? && env.ComponentEnv?
    ensures ComponentOutcome(o, s, env, ComponentRun(o, s, env))
  {
    if !CanCopy(o, env) {
      BlockedComponentLeaves(o, s, env);
    } else if o.spec.oci.Some? {
      NamedComponentLeaves(o, s, env);
    } else {
      ReferringComponentLeaves(o, s, env);
    }
  }

  // ---------------------------------------------------------------- Image

  ghost predicate ImageOutcome(o: Object, s: Status, env: Env, r: Result)
    requires o.spec.Image? && env.ImageEnv?
  {
    var copies := env.repository.RepositoryResolved? && env.account.AccountResolved? && env.resolved.Some?;
    && r.Ended? && r.skip == env.repository.RepositoryStale?
    && KeepsRest(s, r.status) && OnlyConditions(s, r.status, {RepositoryReady, ImageCopied})
    && r.status.trace == s.trace && r.status.wit == s.wit
    && RepositoryShows(env.repository, ConditionOf(s, RepositoryReady), ConditionOf(r.status, RepositoryReady))
    && ConditionOf(r.status, ImageCopied) ==
         (if env.account.AccountMissing? then False else if !copies then ConditionOf(s, ImageCopied)
          else if env.copied then True else False)
    && r.status.image == (if copies && env.copied then Digested(env.repository.tag.repository, env.resolved.value) else s.image)
    && |r.calls| == (if copies then 1 else 0)
    && (copies ==> r.calls[0] == Copy(env.repository.tag, env.account.keychain + env.repository.keychain, env.resolved.value))
  }

  lemma ImageLeaves(o: Object, s: Status, env: Env)
    requires o.spec.Image? && env.ImageEnv?
    ensures ImageOutcome(o, s, env, ImageRun(o, s, env))
  {
    RepositoryField(s, RepositoryReady, env.repository);
  }

  // ---------------------------------------------------------------- ConfigStore

  ghost predicate ConfigStoreOutcome(o: Object, s: Status, env: Env, r: Result)
    requires o.spec.ConfigStore? && env.ConfigStoreEnv?
  {
    var pushes := env.collected.ConfigCollected? && env.repository.RepositoryResolved? && env.child && env.built.Some?;
    var published := pushes && env.pushed.Some?;
    && r.Ended? && r.skip == env.repository.RepositoryStale?
    && KeepsRest(s, r.status) && OnlyConditions(s, r.status, {RepositoryReady, ConfigResolved, ComponentPushed})
    && RepositoryShows(env.repository, ConditionOf(s, RepositoryReady), ConditionOf(r.status, RepositoryReady))
    && ConditionOf(r.status, ConfigResolved) ==
         (match env.collected
          case ConfigMissing => False
          case ConfigError => ConditionOf(s, ConfigResolved)
          case ConfigCollected => True)
    && ConditionOf(r.status, ComponentPushed) ==
         (if published then True else if pushes then False else ConditionOf(s, ComponentPushed))
    && Publishes(s, r.status, env.repository, if published then env.pushed else None, [])
    && |r.calls| == (if pushes then 1 else 0)
    && (pushes ==> r.calls[0] == Push(env.repository.tag, env.repository.keychain, env.built.value))
  }

  lemma ConfigStoreLeaves(o: Object, s: Status, env: Env)
    requires o.spec.ConfigStore? && env.ConfigStoreEnv?
    ensures ConfigStoreOutcome(o, s, env, ConfigStoreRun(o, s, env))
  {
    var s1 := match env.collected
              case ConfigMissing => Mark(s, ConfigResolved, False)
              case ConfigError => s
              case ConfigCollected => Mark(s, ConfigResolved, True);
    RepositoryField(s1, RepositoryReady, env.repository);
    var s2 := MarkRepository(s1, RepositoryReady, env.repository);
    assert OnlyConditions(s, s2, {RepositoryReady, ConfigResolved});
  }

  // ---------------------------------------------------------------- ComponentContainerImage

  /** The spans of what was read, the component's first. */
  function BothSpans(env: Env): seq<Span>
    requires env.ContainerEnv?
  {
    (if env.component.read.Got? then [SpanOf(env.component.read.resource)] else [])
    + (if env.image.Got? then [SpanOf(env.image.resource)] else [])
  }

  /** The resource is in what was read for the component or for the base image. */
  predicate Cyclic(self: Uid, env: Env)
    requires env.ContainerEnv?
  {
    || (env.component.read.Got? && OccursIn(SpanOf(env.component.read.resource), self))
    || (env.image.Got? && OccursIn(SpanOf(env.image.resource), self))
  }

  /** The base image is current and ready, and nothing read so far contains the resource. */
  predicate ImageUsable(self: Uid, env: Env)
    requires env.ContainerEnv?
  {
    && env.image.Got? && !Cyclic(self, env)
    && env.image.resource.generation == env.image.resource.status.observedGeneration && ReadyOf(env.image.resource) == True
  }

  predicate ImageFound(self: Uid, env: Env)
    requires env.ContainerEnv?
  {
    && ImageUsable(self, env) && env.image.resource.status.image.Digested?
    && (env.imageRepository.RepositoryResolved? || env.imageRepository.TemplateError?)
  }

  /** ImageReady when the base image cannot be used. */
  predicate ImageFailureShows(self: Uid, env: Env, before: Condition, after: Condition)
    requires env.ContainerEnv?
  {
    match env.image
    case NotComponent => after == before
    case Missing => after == False
    case ReadError => after == before
    case Got(image) =>
      if Cyclic(self, env) then after == CycleDetected
      else if image.generation != image.status.observedGeneration || ReadyOf(image) == Unknown then after == Unknown
      else if ReadyOf(image) == False then after == False
      else
        && (env.imageRepository.RepositoryMissing? ==> after == False)
        && (env.imageRepository.RepositoryStale? ==> after == Unknown)
        && (env.imageRepository.RepositoryUnready? ==> after == if env.imageRepository.failed then False else Unknown)
        && (!env.imageRepository.RepositoryMissing? && !env.imageRepository.RepositoryStale? && !env.imageRepository.RepositoryUnready?
            ==> after == before)
  }

  predicate ImagePostpones(self: Uid, env: Env)
    requires env.ContainerEnv?
  {
    && env.image.Got? && !Cyclic(self, env)
    && (env.image.resource.generation != env.image.resource.status.observedGeneration
        || (ReadyOf(env.image.resource) == True && env.imageRepository.RepositoryStale?))
  }

  ghost predicate ContainerOutcome(o: Object, s: Status, env: Env, r: Result)
    requires o.spec.ContainerImage? && env.ContainerEnv?
  {
    var appends := Pulls(o.uid, env.component) && ImageFound(o.uid, env) && env.repository.RepositoryResolved?;
    var published := appends && env.appended.Some?;
    && r.Ended?
    && r.skip == (Postpones(o.uid, env.component) || ImagePostpones(o.uid, env) || env.repository.RepositoryStale?)
    && KeepsRest(s, r.status) && OnlyConditions(s, r.status, {ImageReady, RepositoryReady, ComponentPulled, Pushed})
    && (if Pulls(o.uid, env.component) then ConditionOf(r.status, ComponentPulled) == True
        else FailureShows(o.uid, env.component, ConditionOf(s, ComponentPulled), ConditionOf(r.status, ComponentPulled)))
    && (if ImageFound(o.uid, env) then ConditionOf(r.status, ImageReady) == True
        else ImageFailureShows(o.uid, env, ConditionOf(s, ImageReady), ConditionOf(r.status, ImageReady)))
    && RepositoryShows(env.repository, ConditionOf(s, RepositoryReady), ConditionOf(r.status, RepositoryReady))
    && ConditionOf(r.status, Pushed) == (if published then True else ConditionOf(s, Pushed))
    && (if Cyclic(o.uid, env)
        then r.status.trace == Prune(BothSpans(env), o.uid) && r.status.image == s.image && r.status.wit == s.wit
        else Publishes(s, r.status, env.repository, if published then env.appended else None, BothSpans(env)))
    && |r.calls| == (if appends then 1 else 0)
    && (appends ==>
          r.calls[0] == Append(env.image.resource.status.image, env.repository.tag,
                               env.repository.keychain + env.imageRepository.keychain, env.component.pulled.value))
  }

  /** What looking for the component leaves. */
  ghost predicate ComponentPart(self: Uid, s: Status, env: Env, part: Part)
    requires env.ContainerEnv?
  {
    var cyclic := env.component.read.Got? && OccursIn(SpanOf(env.component.read.resource), self);
    && part.spans == (if env.component.read.Got? then [SpanOf(env.component.read.resource)] else [])
    && part.ok == Pulls(self, env.component) && part.skip == Postpones(self, env.component)
    && part.status == s.(conditions := part.status.conditions, trace := if cyclic then Prune(part.spans, self) else s.trace)
    && OnlyConditions(s, part.status, {ComponentPulled})
    && (if part.ok then ConditionOf(part.status, ComponentPulled) == True
        else FailureShows(self, env.component, ConditionOf(s, ComponentPulled), ConditionOf(part.status, ComponentPulled)))
  }

  lemma ComponentPartLeaves(self: Uid, s: Status, env: Env)
    requires env.ContainerEnv?
    ensures ComponentPart(self, s, env, ResolveComponent(self, env.component, s))
  {
    if env.component.read.Got? {
      OccursNext([], SpanOf(env.component.read.resource), self);
      assert [] + [SpanOf(env.component.read.resource)] == [SpanOf(env.component.read.resource)];
    }
  }

  /** What looking for the base image leaves. */
  ghost predicate ImagePart(self: Uid, s: Status, env: Env, part: Part)
    requires env.ContainerEnv?
  {
    && part.spans == BothSpans(env) && part.ok == ImageFound(self, env) && part.skip == ImagePostpones(self, env)
    && part.status == s.(conditions := part.status.conditions,
                         trace := if env.image.Got? && Cyclic(self, env) then Prune(BothSpans(env), self) else s.trace)
    && OnlyConditions(s, part.status, {ImageReady})
    && (if part.ok then ConditionOf(part.status, ImageReady) == True
        else ImageFailureShows(self, env, ConditionOf(s, ImageReady), ConditionOf(part.status, ImageReady)))
  }

  lemma BothOccur(self: Uid, env: Env, spans: seq<Span>)
    requires env.ContainerEnv? && env.image.Got?
    requires spans == if env.component.read.Got? then [SpanOf(env.component.read.resource)] else []
    ensures spans + [SpanOf(env.image.resource)] == BothSpans(env)
    ensures Occurs(BothSpans(env), self) <==> Cyclic(self, env)
  {
    OccursAppend(spans, [SpanOf(env.image.resource)], self);
    assert Occurs([SpanOf(env.image.resource)], self) <==> OccursIn(SpanOf(env.image.resource), self) by {
      OccursNext([], SpanOf(env.image.resource), self);
      assert [] + [SpanOf(env.image.resource)] == [SpanOf(env.image.resource)];
    }
    if env.component.read.Got? {
      OccursNext([], SpanOf(env.component.read.resource), self);
      assert [] + [SpanOf(env.component.read.resource)] == spans;
    }
  }

  lemma ImagePartLeaves(self: Uid, s: Status, env: Env, spans: seq<Span>)
    requires env.ContainerEnv?
    requires spans == if env.component.read.Got? then [SpanOf(env.component.read.resource)] else []
    ensures ImagePart(self, s, env, ResolveImage(self, env.image, env.imageRepository, s, spans))
  {
    assert spans + [] == spans;
    if env.image.Got? {
      BothOccur(self, env, spans);
    }
  }

  lemma ContainerLeaves(o: Object, s: Status, env: Env)
    requires o.spec.ContainerImage? && env.ContainerEnv?
    ensures ContainerOutcome(o, s, env, ContainerRun(o, s, env))
  {
    var component := ResolveComponent(o.uid, env.component, s);
    ComponentPartLeaves(o.uid, s, env);
    var image := ResolveImage(o.uid, env.image, env.imageRepository, component.status, component.spans);
    ImagePartLeaves(o.uid, component.status, env, component.spans);
    RepositoryField(image.status, RepositoryReady, env.repository);
  }
}
