/**
 The controllers' pipelines as they are written: sub-reconcilers that talk to each other
 through a mutable stash. Each pipeline is proved to do what the stash-free functions
 of `Runs` say.
 */
module Pipelines {
  import opened Base
  import opened Spans
  import opened Resources
  import opened Runs
  import KindOutcomes
  import Outcomes
  import RunLaws

  /** The stash slots, all empty at the start of a request. */
  datatype Stash = Stash(
    component: Option<Bytes>,
    config: bool,
    trace: Option<seq<Span>>,
    digest: Option<ImageName>,
    tag: Option<Tag>,
    keychain: Option<Keychain>,
    remoteImage: Option<ImageName>,
    dependencies: Option<seq<Resolved>>,
    configStore: bool)

  const EMPTY := Stash(None, false, None, None, None, None, None, None, false)

  /** What a sub-reconciler returns; `Died` is a panic, for instance of `RetrieveOrDie`. */
  datatype Outcome = Ok | Err(skip: bool) | Died

  /** `Always` joins the errors of all its members. */
  function Join(a: Outcome, b: Outcome): Outcome {
    if a.Died? || b.Died? then Died
    else if a.Ok? then b
    else if b.Ok? then a
    else Err(a.skip || b.skip)
  }

  function OrEmpty<T>(slot: Option<seq<T>>): seq<T> {
    if slot.Some? then slot.value else []
  }

  class Reconciliation {
    const self: Object
    var stash: Stash
    var status: Status
    var calls: seq<Call>

    constructor (o: Object, start: Status)
      ensures self == o && stash == EMPTY && status == start && calls == []
    {
      self := o;
      stash, status, calls := EMPTY, start, [];
    }

    /** The run's result once the sub-reconcilers up to the reflecting one returned `out`. */
    ghost predicate Yields(out: Outcome, result: Result)
      reads this
    {
      match out
      case Died => result.Panicked?
      case Err(skip) => result == Ended(status, skip, calls)
      case Ok =>
        && stash.digest.Some? && stash.config
        && result == Ended(Publish(status, stash.digest.value, OrEmpty(stash.trace)), false, calls)
    }

    // -------------------------------------------------------------- shared sub-reconcilers

    /** `own` is None when the repository of a fetched duck is resolved: its conditions are thrown away. */
    method ResolveRepository(lookup: RepositoryLookup, own: Option<ConditionType>) returns (out: Outcome)
      modifies this
      ensures status == if own.Some? then MarkRepository(old(status), own.value, lookup) else old(status)
      ensures stash.keychain == if KeychainOf(lookup).Some? then Some(lookup.keychain + OrEmpty(old(stash.keychain))) else old(stash.keychain)
      ensures stash.tag == if lookup.RepositoryResolved? then Some(lookup.tag) else old(stash.tag)
      ensures stash == old(stash).(keychain := stash.keychain, tag := stash.tag)
      ensures out == if lookup.RepositoryResolved? then Ok else Err(lookup.RepositoryStale?)
      ensures calls == old(calls)
    {
      match lookup
      case RepositoryMissing =>
        MarkOwn(own, False);
        return Err(false);
      case RepositoryError =>
        return Err(false);
      case RepositoryStale =>
        MarkOwn(own, Unknown);
        return Err(true);
      case RepositoryUnready(failed) =>
        if failed {
          MarkOwn(own, False);
        } else {
          MarkOwn(own, Unknown);
        }
        return Err(false);
      case KeychainError =>
        return Err(false);
      case TemplateError(keychain) =>
        MergeKeychain(keychain);
        return Err(false);
      case RepositoryResolved(keychain, tag) =>
        MergeKeychain(keychain);
        stash := stash.(tag := Some(tag));
        MarkOwn(own, True);
        return Ok;
    }

    method MarkOwn(own: Option<ConditionType>, c: Condition)
      modifies this`status
      ensures status == if own.Some? then Mark(old(status), own.value, c) else old(status)
    {
      if own.Some? {
        status := Mark(status, own.value, c);
      }
    }

    /** A new keychain goes before the one already stashed. */
    method MergeKeychain(keychain: Keychain)
      modifies this`stash
      ensures stash == old(stash).(keychain := Some(keychain + OrEmpty(old(stash.keychain))))
    {
      if stash.keychain.Some? {
        stash := stash.(keychain := Some(keychain + stash.keychain.value));
      } else {
        assert keychain + [] == keychain;
        stash := stash.(keychain := Some(keychain));
      }
    }

    method ResolveKeychain(needed: bool, lookup: AccountLookup, t: ConditionType) returns (out: Outcome)
      modifies this
      ensures status == if needed && lookup.AccountMissing? then Mark(old(status), t, False) else old(status)
      ensures stash == if needed && lookup.AccountResolved?
                       then old(stash).(keychain := Some(lookup.keychain + OrEmpty(old(stash.keychain)))) else old(stash)
      ensures out == if needed && !lookup.AccountResolved? then Err(false) else Ok
      ensures calls == old(calls)
    {
      if !needed {
        return Ok;
      }
      match lookup
      case AccountMissing =>
        status := Mark(status, t, False);
        return Err(false);
      case AccountError =>
        return Err(false);
      case AccountResolved(keychain) =>
        MergeKeychain(keychain);
        return Ok;
    }

    method PushComponent(pushed: Option<string>) returns (out: Outcome)
      modifies this
      ensures out.Died? <==> old(stash.component.None? || stash.tag.None? || stash.keychain.None?)
      ensures !out.Died? ==>
                && calls == old(calls) + [Push(old(stash.tag).value, old(stash.keychain).value, old(stash.component).value)]
                && out == (if pushed.Some? then Ok else Err(false))
                && status == Mark(old(status), ComponentPushed, if pushed.Some? then True else False)
                && (pushed.Some? ==> stash == old(stash).(config := true,
                                       digest := Some(Digested(old(stash.tag).value.repository, pushed.value))))
    {
      if stash.component.None? || stash.tag.None? || stash.keychain.None? {
        return Died;
      }
      calls := calls + [Push(stash.tag.value, stash.keychain.value, stash.component.value)];
      if pushed.None? {
        status := Mark(status, ComponentPushed, False);
        return Err(false);
      }
      status := Mark(status, ComponentPushed, True);
      stash := stash.(digest := Some(Digested(stash.tag.value.repository, pushed.value)));
      stash := stash.(config := true);
      return Ok;
    }

    method ReflectComponentableStatus() returns (out: Outcome)
      modifies this
      ensures out.Died? <==> old(stash.digest.None?)
      ensures !out.Died? ==> out.Ok? && status == old(status).(image := old(stash.digest).value,
                                                               trace := OrEmpty(old(stash.trace)), wit := old(stash.config))
      ensures stash == old(stash) && calls == old(calls)
    {
      if stash.digest.None? {
        return Died;
      }
      status := status.(image := stash.digest.value);
      status := status.(trace := OrEmpty(stash.trace));
      if stash.config {
        status := status.(wit := true);
      } else {
        status := status.(wit := false);
      }
      return Ok;
    }

    /** Adds a span to the stashed trace and reports the cycle under `t` if the resource is in it. */
    method ExtendTrace(o: Object, t: ConditionType) returns (cyclic: bool)
      modifies this
      ensures var spans := OrEmpty(old(stash.trace)) + [SpanOf(o)];
              && cyclic == Occurs(spans, self.uid)
              && stash == old(stash).(trace := Some(spans))
              && status == if cyclic then MarkCycle(old(status), t, spans, self.uid) else old(status)
      ensures calls == old(calls)
    {
      var trace := OrEmpty(stash.trace) + [SpanOf(o)];
      stash := stash.(trace := Some(trace));
      cyclic := Occurs(trace, self.uid);
      if cyclic {
        status := Mark(status, t, CycleDetected);
        status := status.(trace := Prune(trace, self.uid));
      }
    }

    // -------------------------------------------------------------- Component

    method CopyComponent(env: Env) returns (out: Outcome)
      requires self.spec.Component? && env.ComponentEnv? && env.repository.RepositoryResolved?
      requires stash.trace.None? && calls == []
      requires stash.tag == Some(env.repository.tag) && stash.keychain.Some?
      modifies this
      ensures Yields(out, CopyFrom(self, old(status), env, old(stash.keychain).value))
    {
      if stash.keychain.None? || stash.tag.None? {
        return Died;
      }
      var keychain, tag := stash.keychain.value, stash.tag.value;
      var source: string;
      if self.spec.oci.Some? {
        if env.resolved.None? {
          return Err(false);
        }
        source := env.resolved.value;
      } else if self.spec.ref.Some? {
        match env.read {
          case NotComponent =>
            status := Mark(status, ComponentCopied, False);
            return Err(false);
          case Missing =>
            status := Mark(status, ComponentCopied, Unknown);
            return Err(false);
          case ReadError =>
            return Err(false);
          case Got(component) =>
            assert [] + [SpanOf(component)] == [SpanOf(component)];
            var cyclic := ExtendTrace(component, ComponentCopied);
            if cyclic {
              return Err(false);
            }
            var ready := ReadyOf(component);
            if ready == False {
              status := Mark(status, ComponentCopied, False);
              return Err(false);
            }
            if ready != True {
              status := Mark(status, ComponentCopied, Unknown);
              return Err(false);
            }
            if component.status.image.NoImage? {
              status := Mark(status, ComponentCopied, Unknown);
              return Err(false);
            }
            if component.status.image.Malformed? {
              status := Mark(status, ComponentCopied, False);
              return Err(false);
            }
            source := component.status.image.digest;
        }
      } else {
        return Died;
      }
      calls := calls + [Copy(tag, keychain, source)];
      if !env.copied {
        status := Mark(status, ComponentCopied, False);
        return Err(false);
      }
      if !env.configured {
        status := Mark(status, ComponentCopied, False);
        return Err(false);
      }
      status := Mark(status, ComponentCopied, True);
      stash := stash.(digest := Some(Digested(tag.repository, source)));
      stash := stash.(config := true);
      return Ok;
    }

    method CopyImage(env: Env) returns (out: Outcome)
      requires self.spec.Image? && env.ImageEnv? && env.repository.RepositoryResolved?
      requires stash.tag == Some(env.repository.tag) && stash.keychain.Some? && calls == []
      modifies this
      ensures var tag, keychain := env.repository.tag, old(stash.keychain).value;
              && calls == (if env.resolved.Some? then [Copy(tag, keychain, env.resolved.value)] else [])
              && out == (if env.resolved.Some? && env.copied then Ok else Err(false))
              && status == (if env.resolved.None? then old(status)
                            else if !env.copied then Mark(old(status), ImageCopied, False)
                            else Mark(old(status), ImageCopied, True).(image := Digested(tag.repository, env.resolved.value)))
    {
      if stash.keychain.None? || stash.tag.None? {
        return Died;
      }
      if env.resolved.None? {
        return Err(false);
      }
      calls := calls + [Copy(stash.tag.value, stash.keychain.value, env.resolved.value)];
      if !env.copied {
        status := Mark(status, ImageCopied, False);
        return Err(false);
      }
      status := Mark(status, ImageCopied, True);
      status := status.(image := Digested(stash.tag.value.repository, env.resolved.value));
      return Ok;
    }

    // -------------------------------------------------------------- Composition and ConfigStore

    /** One dependency: detect, gate, pull with its own repository's keychain, and remember it. */
    method ResolveDependency(dep: Dependency, env: DependencyEnv) returns (out: Outcome)
      requires self.spec.Composition?
      modifies this
      ensures match ResolveDependencies(self.uid, [dep], [env], old(status), OrEmpty(old(stash.trace)), OrEmpty(old(stash.dependencies)), [])
              case ResolutionPanic => out.Died?
              case ResolutionFailed(f, skip, resolved) =>
                out == Err(skip) && status == f && OrEmpty(stash.dependencies) == resolved
              case AllResolved(f, spans, resolved, keychain) =>
                out.Ok? && status == f && stash.trace == Some(spans) && stash.dependencies == Some(resolved) && stash.keychain == Some(keychain)
      ensures stash == old(stash).(trace := stash.trace, tag := stash.tag, keychain := stash.keychain, dependencies := stash.dependencies)
      ensures calls == old(calls)
    {
      assert [dep][1..] == [] && [env][1..] == [];
      if dep.ref.None? {
        return Died;
      }
      match env.read {
        case NotComponent =>
          status := Mark(status, DependenciesResolved, False);
          return Err(false);
        case Missing =>
          status := Mark(status, DependenciesResolved, False);
          return Err(false);
        case ReadError =>
          return Err(false);
        case Got(component) =>
          var cyclic := ExtendTrace(component, DependenciesResolved);
          if cyclic {
            return Err(false);
          }
          if component.generation != component.status.observedGeneration {
            status := Mark(status, DependenciesResolved, Unknown);
            return Err(true);
          }
          var ready := ReadyOf(component);
          if ready != True {
            status := Mark(status, DependenciesResolved, if ready == False then False else Unknown);
            return Err(false);
          }
          if component.status.image.NoImage? {
            status := Mark(status, DependenciesResolved, False);
            return Err(false);
          }
          stash := stash.(keychain := None);
          var resolving := ResolveRepository(env.repository, None);
          if !resolving.Ok? {
            return resolving;
          }
          if stash.keychain.None? {
            return Err(false);
          }
          assert env.repository.keychain + [] == env.repository.keychain;
          if component.status.image.Malformed? || env.pulled.None? {
            return Err(false);
          }
          if !component.status.wit {
            return Died;
          }
          var entry := Resolved(dep.component, component.status.image, env.pulled.value);
          stash := stash.(dependencies := Some(OrEmpty(stash.dependencies) + [entry]));
          status := Mark(status, DependenciesResolved, True);
          return Ok;
      }
    }

    /** `ForEach` over the dependencies: stops at the first that fails. */
    method ResolveEach(envs: seq<DependencyEnv>) returns (out: Outcome)
      requires self.spec.Composition? && |envs| == |self.spec.dependencies| && stash == EMPTY
      modifies this
      ensures match ResolveDependencies(self.uid, self.spec.dependencies, envs, old(status), [], [], [])
              case ResolutionPanic => out.Died?
              case ResolutionFailed(f, skip, resolved) =>
                out == Err(skip) && status == f && OrEmpty(stash.dependencies) == resolved
              case AllResolved(f, spans, resolved, keychain) =>
                && out.Ok? && status == f && OrEmpty(stash.trace) == spans
                && OrEmpty(stash.dependencies) == resolved && OrEmpty(stash.keychain) == keychain
                && (resolved == [] <==> stash.dependencies.None?)
      ensures stash.component.None? && !stash.config && calls == old(calls)
    {
      var deps := self.spec.dependencies;
      ghost var whole := ResolveDependencies(self.uid, deps, envs, status, [], [], []);
      ghost var keychain: Keychain := [];
      for i := 0 to |deps|
        invariant whole == ResolveDependencies(self.uid, deps[i..], envs[i..], status, OrEmpty(stash.trace), OrEmpty(stash.dependencies), keychain)
        invariant OrEmpty(stash.keychain) == keychain
        invariant stash.component.None? && !stash.config && calls == old(calls)
        invariant OrEmpty(stash.dependencies) == [] <==> stash.dependencies.None?
      {
        ResolveFirst(self.uid, deps[i..], envs[i..], status, OrEmpty(stash.trace), OrEmpty(stash.dependencies), keychain);
        assert deps[i..][1..] == deps[i + 1..] && envs[i..][1..] == envs[i + 1..];
        GrowsByOne(self.uid, deps[i], envs[i], status, OrEmpty(stash.trace), OrEmpty(stash.dependencies));
        var one := ResolveDependency(deps[i], envs[i]);
        if !one.Ok? {
          return one;
        }
        keychain := OrEmpty(stash.keychain);
      }
      out := Ok;
    }

    /** Rebuilds the status list from whatever was resolved so far. */
    method ReflectDependenciesStatus()
      modifies this`status
      ensures status == old(status).(dependencies := Statuses(OrEmpty(stash.dependencies)))
    {
      status := status.(dependencies := []);
      if stash.dependencies.None? {
        return;
      }
      var resolved := stash.dependencies.value;
      for i := 0 to |resolved|
        invariant status == old(status).(dependencies := Statuses(resolved[..i]))
      {
        assert Statuses(resolved[..i + 1]) == Statuses(resolved[..i]) + [DependencyStatus(resolved[i].name, resolved[i].image)];
        status := status.(dependencies := status.dependencies + [DependencyStatus(resolved[i].name, resolved[i].image)]);
      }
      assert resolved[..|resolved|] == resolved;
    }

    /** The `Always` group of a composition: all members run unless one panics, and their errors are joined. */
    method ResolveAll(env: Env) returns (out: Outcome)
      requires self.spec.Composition? && Fits(self.spec, env) && stash == EMPTY && calls == []
      modifies this
      ensures match ResolveDependencies(self.uid, self.spec.dependencies, env.dependencies, old(status), [], [], [])
              case ResolutionPanic => out.Died?
              case ResolutionFailed(f, skip, resolved) =>
                && out == Err(skip || env.repository.RepositoryStale?)
                && status == MarkRepository(f.(dependencies := Statuses(resolved)), RepositoryReady, env.repository)
              case AllResolved(f, spans, resolved, keychain) =>
                && status == MarkRepository(f.(dependencies := Statuses(resolved)), RepositoryReady, env.repository)
                && out == (if env.managed && env.repository.RepositoryResolved? && env.child then Ok
                           else Err(env.repository.RepositoryStale?))
                && OrEmpty(stash.trace) == spans && OrEmpty(stash.dependencies) == resolved
                && (resolved == [] <==> stash.dependencies.None?)
                && (out.Ok? ==> stash.tag == Some(env.repository.tag)
                                && stash.keychain == Some(env.repository.keychain + keychain))
      ensures stash.component.None? && !stash.config && calls == []
    {
      out := if env.managed then Ok else Err(false);
      var resolving := ResolveEach(env.dependencies);
      if resolving.Died? {
        return Died;
      }
      ReflectDependenciesStatus();
      var repository := ResolveRepository(env.repository, Some(RepositoryReady));
      out := Join(Join(Join(out, resolving), repository), if env.child then Ok else Err(false));
    }

    /** With neither plug nor wac nothing is composed, and the run goes on. */
    method ComposeComponents(composed: Option<Bytes>) returns (out: Outcome)
      requires self.spec.Composition?
      modifies this
      ensures out.Died? <==> old(stash.dependencies.None?)
      ensures var mode := self.spec.plug || self.spec.wac != "";
              !out.Died? ==>
                && out == (if mode && composed.None? then Err(false) else Ok)
                && calls == (if mode then old(calls) + [Compose(Inputs(old(stash.dependencies).value))] else old(calls))
                && stash == (if mode && composed.Some? then old(stash).(component := composed) else old(stash))
                && (mode ==> status == old(status))
    {
      if stash.dependencies.None? {
        return Died;
      }
      if self.spec.plug {
        calls := calls + [Compose(Inputs(stash.dependencies.value))];
        if composed.None? {
          return Err(false);
        }
        stash := stash.(component := composed);
      } else if self.spec.wac != "" {
        calls := calls + [Compose(Inputs(stash.dependencies.value))];
        if composed.None? {
          return Err(false);
        }
        stash := stash.(component := composed);
      } else {
        status := Mark(status, ComponentPushed, False);
      }
      return Ok;
    }

    method CollectConfig(collected: Collected) returns (out: Outcome)
      modifies this
      ensures status == match collected
                        case ConfigMissing => Mark(old(status), ConfigResolved, False)
                        case ConfigError => old(status)
                        case ConfigCollected => Mark(old(status), ConfigResolved, True)
      ensures stash == old(stash).(configStore := old(stash.configStore) || collected.ConfigCollected?)
      ensures out == (if collected.ConfigCollected? then Ok else Err(false)) && calls == old(calls)
    {
      match collected
      case ConfigMissing =>
        status := Mark(status, ConfigResolved, False);
        return Err(false);
      case ConfigError =>
        return Err(false);
      case ConfigCollected =>
        stash := stash.(configStore := true);
        status := Mark(status, ConfigResolved, True);
        return Ok;
    }

    method ComponentizeConfig(built: Option<Bytes>) returns (out: Outcome)
      modifies this`stash
      ensures out == if !old(stash.configStore) then Died else if built.Some? then Ok else Err(false)
      ensures stash == if old(stash.configStore) && built.Some? then old(stash).(component := built) else old(stash)
    {
      if !stash.configStore {
        return Died;
      }
      if built.None? {
        return Err(false);
      }
      stash := stash.(component := built);
      return Ok;
    }

    // -------------------------------------------------------------- ComponentContainerImage

    /** Pulls the referenced component with its repository's keychain and clears the keychain again. */
    method ResolveContainerComponent(env: DependencyEnv) returns (out: Outcome)
      requires stash == EMPTY && calls == []
      modifies this
      ensures var part := ResolveComponent(self.uid, env, old(status));
              && status == part.status && OrEmpty(stash.trace) == part.spans
              && out == (if part.ok then Ok else Err(part.skip))
              && (part.ok ==> stash.keychain.None? && stash.component == env.pulled && stash.config)
      ensures calls == []
    {
      match env.read {
        case NotComponent =>
          status := Mark(status, ComponentPulled, False);
          return Err(false);
        case Missing =>
          status := Mark(status, ComponentPulled, False);
          return Err(false);
        case ReadError =>
          return Err(false);
        case Got(component) =>
          assert [] + [SpanOf(component)] == [SpanOf(component)];
          var cyclic := ExtendTrace(component, ComponentPulled);
          if cyclic {
            return Err(false);
          }
          if component.generation != component.status.observedGeneration {
            status := Mark(status, ComponentPulled, Unknown);
            return Err(true);
          }
          var ready := ReadyOf(component);
          if ready != True {
            status := Mark(status, ComponentPulled, if ready == False then False else Unknown);
            return Err(false);
          }
          if component.status.image.NoImage? {
            status := Mark(status, ComponentPulled, False);
            return Err(false);
          }
          stash := stash.(keychain := None);
          var resolving := ResolveRepository(env.repository, None);
          if !resolving.Ok? {
            return resolving;
          }
          if stash.keychain.None? {
            return Err(false);
          }
          stash := stash.(keychain := None);
          if component.status.image.Malformed? || env.pulled.None? {
            return Err(false);
          }
          status := Mark(status, ComponentPulled, True);
          stash := stash.(component := env.pulled);
          stash := stash.(config := true);
          return Ok;
      }
    }

    /** The base image: its span joins the trace and its repository's keychain the stash. */
    method ResolveBaseImage(read: Read, lookup: RepositoryLookup) returns (out: Outcome)
      modifies this
      ensures var part := ResolveImage(self.uid, read, lookup, old(status), OrEmpty(old(stash.trace)));
              && status == part.status && OrEmpty(stash.trace) == part.spans
              && out == (if part.ok then Ok else Err(part.skip))
              && (part.ok ==>
                    && stash.keychain == Some(lookup.keychain + OrEmpty(old(stash.keychain)))
                    && stash.remoteImage == Some(read.resource.status.image))
      ensures stash == old(stash).(trace := stash.trace, keychain := stash.keychain, remoteImage := stash.remoteImage)
      ensures calls == old(calls)
    {
      match read {
        case NotComponent =>
          return Err(false);
        case Missing =>
          status := Mark(status, ImageReady, False);
          return Err(false);
        case ReadError =>
          return Err(false);
        case Got(image) =>
          var cyclic := ExtendTrace(image, ImageReady);
          if cyclic {
            return Err(false);
          }
          if image.generation != image.status.observedGeneration {
            status := Mark(status, ImageReady, Unknown);
            return Err(true);
          }
          var ready := ReadyOf(image);
          if ready != True {
            status := Mark(status, ImageReady, if ready == False then False else Unknown);
            return Err(false);
          }
          match lookup {
            case RepositoryMissing =>
              status := Mark(status, ImageReady, False);
              return Err(false);
            case RepositoryError =>
              return Err(false);
            case RepositoryStale =>
              status := Mark(status, ImageReady, Unknown);
              return Err(true);
            case RepositoryUnready(failed) =>
              status := Mark(status, ImageReady, if failed then False else Unknown);
              return Err(false);
            case KeychainError =>
              return Err(false);
            case TemplateError(keychain) =>
              MergeKeychain(keychain);
            case RepositoryResolved(keychain, _) =>
              MergeKeychain(keychain);
          }
          if !image.status.image.Digested? {
            return Err(false);
          }
          stash := stash.(remoteImage := Some(image.status.image));
          status := Mark(status, ImageReady, True);
          return Ok;
      }
    }

    method AppendComponent(appended: Option<string>) returns (out: Outcome)
      requires calls == []
      modifies this
      ensures out.Died? <==> old(stash.keychain.None? || stash.tag.None? || stash.component.None? || stash.remoteImage.None?)
      ensures !out.Died? ==>
                && calls == [Append(old(stash.remoteImage).value, old(stash.tag).value, old(stash.keychain).value, old(stash.component).value)]
                && out == (if appended.Some? then Ok else Err(false))
                && status == (if appended.Some? then Mark(old(status), Pushed, True) else old(status))
                && (appended.Some? ==>
                      stash == old(stash).(digest := Some(Digested(old(stash.tag).value.repository, appended.value))))
    {
      if stash.keychain.None? || stash.tag.None? || stash.component.None? || stash.remoteImage.None? {
        return Died;
      }
      calls := calls + [Append(stash.remoteImage.value, stash.tag.value, stash.keychain.value, stash.component.value)];
      if appended.None? {
        return Err(false);
      }
      status := Mark(status, Pushed, True);
      stash := stash.(digest := Some(Digested(stash.tag.value.repository, appended.value)));
      return Ok;
    }
  }

  /** Resolving a list is resolving its first dependency and then the rest. */
  lemma ResolveFirst(self: Uid, deps: seq<Dependency>, envs: seq<DependencyEnv>, s: Status,
                     spans: seq<Span>, resolved: seq<Resolved>, keychain: Keychain)
    requires deps != [] && |deps| == |envs|
    ensures ResolveDependencies(self, deps, envs, s, spans, resolved, keychain) ==
              match ResolveDependencies(self, [deps[0]], [envs[0]], s, spans, resolved, [])
              case ResolutionPanic => ResolutionPanic
              case ResolutionFailed(f, skip, r) => ResolutionFailed(f, skip, r)
              case AllResolved(f, sp, r, k) => ResolveDependencies(self, deps[1..], envs[1..], f, sp, r, k)
  {
    assert [deps[0]][1..] == [] && [envs[0]][1..] == [];
  }

  lemma GrowsByOne(self: Uid, dep: Dependency, env: DependencyEnv, s: Status, spans: seq<Span>, resolved: seq<Resolved>)
    ensures var r := ResolveDependencies(self, [dep], [env], s, spans, resolved, []);
            (r.AllResolved? ==> |r.resolved| == |resolved| + 1) && (r.ResolutionFailed? ==> r.resolved == resolved)
  {
    assert [dep][1..] == [] && [env][1..] == [];
  }

  /** How a request ends when its `Sequence` returned `out`. */
  function Ending(out: Outcome, status: Status, calls: seq<Call>): Result {
    match out
    case Died => Panicked
    case Ok => Ended(status, false, calls)
    case Err(skip) => Ended(status, skip, calls)
  }

  /** The Component and ClusterComponent pipeline. */
  method ReconcileComponent(o: Object, start: Status, env: Env) returns (result: Result)
    requires o.spec.Component? && env.ComponentEnv?
    ensures result == ComponentRun(o, start, env)
    ensures KindOutcomes.ComponentOutcome(o, start, env, result)
    ensures RunLaws.OwnTagged(start, result, env.repository)
  {
    var r := new Reconciliation(o, start);
    var repository := r.ResolveRepository(env.repository, Some(RepositoryReady));
    var account := r.ResolveKeychain(o.spec.oci.Some?, env.account, ComponentCopied);
    var out := Join(repository, account);
    if out.Ok? {
      assert env.repository.keychain + [] == env.repository.keychain;
      out := r.CopyComponent(env);
    }
    if out.Ok? {
      out := r.ReflectComponentableStatus();
    }
    result := Ending(out, r.status, r.calls);
    KindOutcomes.ComponentLeaves(o, start, env);
    RunLaws.OwnTagOnly(o, start, env);
  }

  /** The Image and ClusterImage pipeline. */
  method ReconcileImage(o: Object, start: Status, env: Env) returns (result: Result)
    requires o.spec.Image? && env.ImageEnv?
    ensures result == ImageRun(o, start, env)
    ensures KindOutcomes.ImageOutcome(o, start, env, result)
    ensures RunLaws.OwnTagged(start, result, env.repository)
  {
    var r := new Reconciliation(o, start);
    var repository := r.ResolveRepository(env.repository, Some(RepositoryReady));
    var account := r.ResolveKeychain(true, env.account, ImageCopied);
    var out := Join(repository, account);
    if out.Ok? {
      assert env.repository.keychain + [] == env.repository.keychain;
      out := r.CopyImage(env);
    }
    result := Ending(out, r.status, r.calls);
    KindOutcomes.ImageLeaves(o, start, env);
    RunLaws.OwnTagOnly(o, start, env);
  }

  /** The Composition pipeline. */
  method ReconcileComposition(o: Object, start: Status, env: Env) returns (result: Result)
    requires o.spec.Composition? && Fits(o.spec, env)
    ensures result == CompositionRun(o, start, env)
    ensures Outcomes.CompositionOutcome(o, start, env, result)
    ensures RunLaws.OwnTagged(start, result, env.repository)
    ensures RunLaws.OwnThenLast(result, env)
  {
    var r := new Reconciliation(o, start);
    var out := r.ResolveAll(env);
    if out.Ok? {
      out := r.ComposeComponents(env.composed);
    }
    if out.Ok? {
      out := r.PushComponent(env.pushed);
    }
    if out.Ok? {
      out := r.ReflectComponentableStatus();
    }
    result := Ending(out, r.status, r.calls);
    Outcomes.CompositionLeaves(o, start, env);
    RunLaws.OwnTagOnly(o, start, env);
    RunLaws.PushKeychain(o, start, env);
  }

  /** The ConfigStore pipeline. */
  method ReconcileConfigStore(o: Object, start: Status, env: Env) returns (result: Result)
    requires o.spec.ConfigStore? && env.ConfigStoreEnv?
    ensures result == ConfigStoreRun(o, start, env)
    ensures KindOutcomes.ConfigStoreOutcome(o, start, env, result)
    ensures RunLaws.OwnTagged(start, result, env.repository)
  {
    var r := new Reconciliation(o, start);
    var collecting := r.CollectConfig(env.collected);
    var repository := r.ResolveRepository(env.repository, Some(RepositoryReady));
    var out := Join(Join(collecting, repository), if env.child then Ok else Err(false));
    if out.Ok? {
      assert env.repository.keychain + [] == env.repository.keychain;
      out := r.ComponentizeConfig(env.built);
    }
    if out.Ok? {
      out := r.PushComponent(env.pushed);
    }
    if out.Ok? {
      out := r.ReflectComponentableStatus();
    }
    result := Ending(out, r.status, r.calls);
    KindOutcomes.ConfigStoreLeaves(o, start, env);
    RunLaws.OwnTagOnly(o, start, env);
  }

  /** The ComponentContainerImage pipeline. */
  method ReconcileContainerImage(o: Object, start: Status, env: Env) returns (result: Result)
    requires o.spec.ContainerImage? && env.ContainerEnv?
    ensures result == ContainerRun(o, start, env)
    ensures KindOutcomes.ContainerOutcome(o, start, env, result)
    ensures RunLaws.OwnTagged(start, result, env.repository)
    ensures RunLaws.OwnThenBase(result, env)
  {
    var r := new Reconciliation(o, start);
    var component := r.ResolveContainerComponent(env.component);
    var image := r.ResolveBaseImage(env.image, env.imageRepository);
    var repository := r.ResolveRepository(env.repository, Some(RepositoryReady));
    var out := Join(Join(component, image), repository);
    if out.Ok? {
      assert env.imageRepository.keychain + [] == env.imageRepository.keychain;
      out := r.AppendComponent(env.appended);
    }
    if out.Ok? {
      out := r.ReflectComponentableStatus();
    }
    result := Ending(out, r.status, r.calls);
    KindOutcomes.ContainerLeaves(o, start, env);
    RunLaws.OwnTagOnly(o, start, env);
    RunLaws.AppendKeychain(o, start, env);
  }
}
