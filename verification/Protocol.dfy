/**
 The controllers as a concurrent protocol. A world holds every resource and every
 version of it that was ever visible; a run may read any of those versions, so stale
 caches and every interleaving are covered.
 */
module Protocol {
  import opened Base
  import opened Spans
  import opened Resources
  import opened Runs

  datatype World = World(objects: map<Uid, Object>, history: set<Object>)

  datatype Action =
    | Create(resource: Object)
    | Edit(uid: Uid, spec: Spec)
    /** `restart` says whether conditions start afresh, `written` whether the status write got through. */
    | Reconcile(uid: Uid, env: Env, restart: bool, written: bool)

  /** A resource's kind is part of its key and fixes the form of its spec. */
  predicate KindFits(key: Key, spec: Spec) {
    match spec
    case Component(_, _) => key.kind == "Component" || key.kind == "ClusterComponent"
    case Composition(_, _, _) => key.kind == "Composition"
    case ContainerImage(_, _) => key.kind == "ComponentContainerImage"
    case ConfigStore => key.kind == "ConfigStore"
    case Image(_) => key.kind == "Image" || key.kind == "ClusterImage"
  }

  /** The read returned some version of the referenced resource that was once visible. */
  predicate ReadFrom(h: set<Object>, read: Read, key: Key, image: bool) {
    read.Got? ==> read.resource in h && read.resource.key == key && read.resource.spec.Image? == image
  }

  predicate EnvFrom(h: set<Object>, spec: Spec, env: Env)
    requires Fits(spec, env)
  {
    match spec
    case Component(_, ref) => ref.Some? ==> ReadFrom(h, env.read, ref.value, false)
    case Composition(_, _, deps) =>
      forall i :: 0 <= i < |deps| && deps[i].ref.Some? ==> ReadFrom(h, env.dependencies[i].read, deps[i].ref.value, false)
    case ContainerImage(component, imageRef) =>
      ReadFrom(h, env.component.read, component, false) && ReadFrom(h, env.image, imageRef, true)
    case ConfigStore => true
    case Image(_) => true
  }

  predicate Enabled(w: World, a: Action) {
    match a
    case Create(o) => o.uid !in w.objects && o.status == INITIAL_STATUS && KindFits(o.key, o.spec)
    case Edit(u, spec) => u in w.objects && KindFits(w.objects[u].key, spec)
    case Reconcile(u, env, _, _) =>
      u in w.objects && Fits(w.objects[u].spec, env) && EnvFrom(w.history, w.objects[u].spec, env)
  }

  function Put(w: World, o: Object): World {
    World(w.objects[o.uid := o], w.history + {o})
  }

  function Start(o: Object, restart: bool): Status {
    if restart then o.status.(conditions := map[]) else o.status
  }

  function Apply(w: World, a: Action): World
    requires Enabled(w, a)
  {
    match a
    case Create(o) => Put(w, o)
    case Edit(u, spec) => Put(w, w.objects[u].(uid := u, spec := spec, generation := w.objects[u].generation + 1))
    case Reconcile(u, env, restart, written) =>
      var o := w.objects[u];
      match Run(o, Start(o, restart), env)
      case Panicked => w
      case Ended(s, skip, _) =>
        if skip || !written then w else Put(w, o.(uid := u, status := s.(observedGeneration := o.generation)))
  }

  /** Nothing has reconciled yet. */
  predicate Init(w: World) {
    && (forall u :: u in w.objects ==>
          w.objects[u].uid == u && w.objects[u].status == INITIAL_STATUS && KindFits(w.objects[u].key, w.objects[u].spec))
    && w.history == set u | u in w.objects :: w.objects[u]
  }

  /** The actions can happen one after the other. */
  predicate Legal(w: World, acts: seq<Action>)
    decreases |acts|, 0
  {
    acts == [] ||
    (var before := acts[..|acts| - 1];
     Legal(w, before) && Enabled(Exec(w, before), acts[|acts| - 1]))
  }

  /** The world after the actions. */
  function Exec(w: World, acts: seq<Action>): World
    requires Legal(w, acts)
    decreases |acts|, 1
  {
    if acts == [] then w else Apply(Exec(w, acts[..|acts| - 1]), acts[|acts| - 1])
  }

  // ---------------------------------------------------------------- the shape of one run

  predicate SameReports(b: Status, a: Status) { CycleReported(a) ==> CycleReported(b) }

  /** Some step failed or blocked the run: the published image and trace stay as they are. */
  predicate Blocked(spec: Spec, b: Status, a: Status) {
    && a.trace == b.trace && a.image == b.image && a.wit == b.wit
    && (Done(spec, a) ==> Done(spec, b))
    && SameReports(b, a)
  }

  predicate ReadsOf(h: set<Object>, spec: Spec, rs: seq<Object>) {
    forall i :: 0 <= i < |rs| ==> rs[i] in h && rs[i].key in References(spec)
  }

  /** The resource occurs in what was read for reference number `hit`; only the trace is replaced. */
  ghost predicate Flagged(h: set<Object>, o: Object, b: Status, a: Status, rs: seq<Object>, hit: nat) {
    && ReadsOf(h, o.spec, rs)
    && hit < |rs| && OccursIn(SpanOf(rs[hit]), o.uid)
    && ((forall i :: 0 <= i < hit ==> Ready(rs[i])) || rs[hit].spec.Image?)
    && (forall i :: hit < i < |rs| ==> rs[i].spec.Image?)
    && a.trace == Prune(SpansOf(rs), o.uid)
    && a.image == b.image && a.wit == b.wit
    && (Done(o.spec, a) ==> Done(o.spec, b))
    && (o.spec.Component? ==> !Done(o.spec, a))
  }

  /** Every reference was read ready and free of the resource itself; image and trace are published together. */
  ghost predicate Completed(h: set<Object>, o: Object, b: Status, a: Status, rs: seq<Object>) {
    && |rs| == |References(o.spec)|
    && (forall i :: 0 <= i < |rs| ==> rs[i] in h && rs[i].key == References(o.spec)[i] && Ready(rs[i]))
    && a.trace == SpansOf(rs) && !Occurs(a.trace, o.uid)
    && Done(o.spec, a) && a.image.Digested? && (o.spec.Image? || a.wit)
    && (o.spec.Component? && rs != [] ==>
          rs[0].status.image.Digested? && a.image.digest == rs[0].status.image.digest)
    && SameReports(b, a)
  }

  ghost predicate Shaped(h: set<Object>, o: Object, b: Status, a: Status) {
    || Blocked(o.spec, b, a)
    || (exists rs, hit :: Flagged(h, o, b, a, rs, hit))
    || (exists rs :: Completed(h, o, b, a, rs))
  }
}
