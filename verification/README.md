# wa8s: verified model

wa8s runs WebAssembly components in Kubernetes. Its controllers copy, compose, push and
package components that refer to one another, and each resource publishes in its status the
image it produced and a *trace*: the tree of everything the image was made from. This
project models those controllers in Dafny and proves what they guarantee together.

`dafny verify dfyconfig.toml` checks everything.

## How the files fit together

| file | contents |
|---|---|
| `Base`, `Spans`, `SpanHeap` | traces as values, the algebra of pruning a trace, and copying and cycle detection on slices in memory |
| `Resources`, `Runs` | resources, statuses, conditions; what one run of each controller does, as a function of everything it reads |
| `Outcomes`, `KindOutcomes` | what every run leaves in each field of the status, which calls it makes and whether its status is written, said from the readings |
| `Pipelines` | the pipelines as written, over a mutable stash, proved to do what `Runs` says and to leave what `Outcomes` and `KindOutcomes` say |
| `Protocol`, `Shapes` | a world of resources with every version that was ever visible; actions create, edit and reconcile; each run has one of three shapes |
| `Graph`, `Safety`, `Cycles` | walks and traces in the reference graph; what holds in every reachable world; what fixed or edited specs imply about cycles |
| `Detection` | exactly when a run reports a cycle |
| `Readiness`, `StaleTraces` | exactly when a run ends ready; a run of the protocol that ends ready with a cut trace |
| `RunLaws` | tags, keychains, order of composition and panics of single runs |
| `Admission`, `Expansion` | defaulting, validation, expansion of inline dependencies, writing references back |
| `Config` | layered config collection and the sorted entry list |
| `Wit`, `Registry` | scanning WIT text; pushing, copying and pulling over a content-addressed store |
| `HostArgs` | Wasmtime arguments for host capabilities |

The protocol has the core kinds: Component and ClusterComponent, Composition,
ComponentContainerImage, ConfigStore, and Image and ClusterImage. Resources of these kinds
may be created, edited and reconciled at any time.

A run's reads may return any earlier version of the referenced resource, so the protocol
theorems cover stale caches and every interleaving. `Reconcile` also chooses whether the
status write gets through and whether conditions start afresh, because the runtime library
that decides this is not part of this model. Assumed of that library: `Always` runs all its
members and joins their errors, `Sequence` and `ForEach` stop at the first error, a resource
is defaulted before its run, a status whose error says to skip the update is not written,
Ready is True exactly when all conditions it depends on are, and a missing Ready condition
counts as Unknown.

## What the code does not guarantee

Each of these is stated by a lemma, with the exact condition where there is one.

- With fixed specs a reference cycle of two or more resources is never reported; its
  members never become ready (`Cycles.LongCyclesAreSilent`). A run reports a cycle if and
  only if it gets to a reading of its own resource (`Detection.FixedReportsExactly`).
- A composition whose child could not be created reaches a dependency without a reference
  and panics; nothing else makes an admitted resource panic (`RunLaws.PanicsExactly`).
- A composition pushes with its own keychain followed by that of its last dependency's
  repository, while a container image clears it first (`Pipelines.ReconcileComposition`,
  `Pipelines.ReconcileContainerImage`).
- If conditions survive from one run to the next, a composition can be Ready with a trace
  that was cut when it was edited to reference itself and back
  (`StaleTraces.ReadyWithCutTrace`). A run that does not publish ends Ready exactly when its
  resource had published before and every step that fails leaves its condition alone
  (`Readiness.CompositionEndsReady`, `Readiness.ContainerEndsReady`,
  `Readiness.ComponentEndsReady`). If every run starts with fresh conditions, ready traces
  are never cut (`Readiness.RestartedReadyIsUncut`).
- Dependencies that share a name with an inline dependency get the wrong reference; names
  are not checked by validation (`Expansion.OwnReferencesExactly`).
- Variable names containing an equals sign make different capabilities render alike
  (`HostArgs.ArgsDecode`, `HostArgs.EqualsInNameClashes`).

## Model

| member | source | states |
|---|---|---|
| Spans.PruneAt | controllers/duck_controller.go:529-550 | Complete description of a pruned trace: exactly the spans with no occurrence of the resource strictly above them remain, each in its place; occurrences are omitted leaves, the rest keep their fields |
| Spans.OccursAt | controllers/duck_controller.go:529-550 | A resource occurs in a trace exactly if it is the resource of the span at some position |
| Spans.PruneAbsent | controllers/duck_controller.go:529-550 | A trace the resource does not occur in is left as it is |
| Spans.PruneKeepsOccurrence | controllers/duck_controller.go:534-547 | The resource occurs after pruning exactly when it did before |
| Spans.PruneIdempotent | controllers/duck_controller.go:529-550 | Pruning twice is pruning once |
| Spans.PruneCommutes | controllers/duck_controller.go:529-550 | Two different resources may prune the same trace in either order |
| Spans.PruneShrinks | controllers/duck_controller.go:538-545 | Pruning never grows a trace, and keeps its size if and only if no span for the resource, at any depth, has anything below it |
| SpanHeap.DeepCopy | apis/components/v1alpha1/zz_generated.deepcopy.go:252-272 | The copy holds the same trace in newly allocated arrays only, nil stays nil, and the original is unchanged at every depth |
| SpanHeap.DetectTraceCycle | controllers/duck_controller.go:529-550 | The flag says whether the resource occurs anywhere; the result holds the pruned trace in new arrays that share nothing with the input, which is unchanged at every depth |
| Pipelines.Reconciliation.ResolveRepository | controllers/duck_controller.go:219-282 | Which conditions and stash slots each outcome of the lookup changes; a new keychain goes before the stashed one, a tag only replaces another on success |
| Pipelines.Reconciliation.ResolveKeychain | controllers/duck_controller.go:286-314 | Merges the service account's keychain in front, or marks the condition False when the account is missing |
| Pipelines.Reconciliation.PushComponent | controllers/duck_controller.go:316-345 | Dies exactly on an empty component, tag or keychain slot; otherwise pushes those three and stores digest and config on success |
| Pipelines.Reconciliation.ReflectComponentableStatus | controllers/duck_controller.go:442-465 | Publishes image, trace and interfaces together from the stash, and dies exactly without a digest |
| Pipelines.Reconciliation.ExtendTrace | controllers/duck_controller.go:109-117 | The stashed trace gains the reading's span; on a cycle the condition and the pruned trace are set |
| Pipelines.Reconciliation.CopyComponent | internal/controllers/component_controller.go:82-175 | From filled tag and keychain slots, leaves exactly the status, calls and stash from which reflecting yields the stash-free run |
| Pipelines.Reconciliation.ResolveDependency | internal/controllers/composition_controller.go:310-392 | One dependency changes status, trace, dependency list and keychain as one step of resolving the list, whose outcomes `Outcomes.CompositionLeaves` states |
| Pipelines.Reconciliation.ResolveEach | internal/controllers/composition_controller.go:294-301 | Stopping at the first failure gives the status, trace, list and last keychain of resolving the whole list |
| Pipelines.Reconciliation.ReflectDependenciesStatus | internal/controllers/composition_controller.go:423-446 | The status lists exactly the dependencies resolved so far, in order |
| Pipelines.Reconciliation.ComposeComponents | internal/controllers/composition_controller.go:397-421 | Composes the stashed dependencies in order, or goes on without a component when there is neither plug nor script |
| Pipelines.Reconciliation.ResolveContainerComponent | internal/controllers/componentcontainerimage_controller.go:62-144 | On success the component is stashed and no keychain is left from its repository |
| Pipelines.Reconciliation.ResolveBaseImage | controllers/duck_controller.go:82-198 | The image's span joins the trace; on success its keychain precedes the stashed one and the remote image is stored |
| Pipelines.Reconciliation.AppendComponent | internal/controllers/componentcontainerimage_controller.go:146-166 | Dies exactly on an empty slot; otherwise appends with the stashed base, tag, keychain and component |
| Pipelines.ReconcileComponent | internal/controllers/component_controller.go:59-77 | The stash machine's result is the stash-free run's, with the outcome of `KindOutcomes.ComponentLeaves`: it copies to its own tag with the service account's keychain first |
| Pipelines.ReconcileComposition | internal/controllers/composition_controller.go:45-75 | The stash machine's result is the stash-free run's, with the outcome of `Outcomes.CompositionLeaves`; although dependencies use the same slots, it pushes to its own tag, with its own keychain followed by the last dependency's |
| Pipelines.ReconcileContainerImage | internal/controllers/componentcontainerimage_controller.go:44-60 | The stash machine's result is the stash-free run's, with the outcome of `KindOutcomes.ContainerLeaves`; it appends to its own tag, with exactly its own keychain followed by the base image's |
| Pipelines.ReconcileConfigStore | internal/controllers/configstore_controller.go:43-62 | The stash machine's result is the stash-free run's, with the outcome of `KindOutcomes.ConfigStoreLeaves` |
| Pipelines.ReconcileImage | internal/controllers/image_controller.go:54-113 | The stash machine's result is the stash-free run's, with the outcome of `KindOutcomes.ImageLeaves` |
| Outcomes.SpanSays | controllers/duck_controller.go:467-500 | A span carries what it was read from: identity, trace, and the digest only of a pinned image |
| Outcomes.CompositionLeaves | internal/controllers/composition_controller.go:294-446 | From the readings alone: whether the run panics, at which dependency it stops and which condition that leaves, what is listed, composed, pushed and published, and whether the status is written |
| Outcomes.StoppedReadiness | internal/controllers/composition_controller.go:315-359 | A composition stopped by a dependency that cannot be had ends not ready; stopped by one that waits, its readiness is open unless something else failed |
| Outcomes.ReadySumsUp | apis/components/v1alpha1/composition_lifecycle.go:41-48 | Which conditions each kind's readiness sums up, and how |
| KindOutcomes.ComponentLeaves | internal/controllers/component_controller.go:82-175 | Conditions, image, trace, interfaces and calls of a component's run, from its readings: False for what failed, Unknown for what is waited for |
| KindOutcomes.ImageLeaves | internal/controllers/image_controller.go:54-113 | The same for an image's run |
| KindOutcomes.ConfigStoreLeaves | internal/controllers/configstore_controller.go:43-62 | The same for a config store's run |
| KindOutcomes.ContainerLeaves | internal/controllers/componentcontainerimage_controller.go:62-166 | The same for a container image's run, whose two readings mark separate conditions and share one trace |
| Shapes.RunShape | internal/controllers/component_controller.go:106-172 | Every run of every controller leaves image and trace alone, or only replaces the trace by the pruned readings, or publishes image and trace together after reading all references ready and free of itself |
| Shapes.RunCalls | internal/controllers/composition_controller.go:59-71 | A run that reaches the registry to publish has read every reference ready and free of itself |
| Safety.AlwaysSafe | controllers/duck_controller.go:442-500 | Groundedness, distinctness, justified reports and digest conservation hold in every reachable world |
| Safety.TracePathsDistinct | controllers/duck_controller.go:529-550 | On any path of a published trace from its owner a UID repeats only at the end, in an omitted leaf |
| Safety.TraceDepthBounded | controllers/duck_controller.go:467-500 | A published trace is never deeper than the number of resources ever created |
| Safety.ReportedCycleIsReal | internal/controllers/component_controller.go:120-126 | A reported cycle is a chain of references from the resource to itself, each of which was in some spec |
| Safety.DigestConserved | internal/controllers/component_controller.go:128-170 | A ready component that copies another has the digest of its first span and of every span down the chain of component copies |
| Safety.AlwaysObserved | internal/controllers/composition_controller.go:339-343 | No status ever claims a generation that is yet to come, the basis of the generation check |
| Safety.AnyVersionCanBeRead | controllers/duck_controller.go:467-500 | However long ago a version was published, a run may still read it, so everything proved about runs holds for stale caches |
| Cycles.ReadyIsUnfolding | internal/controllers/component_controller.go:120-151 | When specs are never edited, a ready resource's trace is exactly the tree unfolding of the references, and no cycle is reachable from it, however resources are created and reconciled |
| Cycles.ReportedReferencesItself | internal/controllers/component_controller.go:120-126 | When specs are never edited, a resource that reports a cycle references itself in its present spec |
| Cycles.LongCyclesAreSilent | internal/controllers/component_controller.go:120-136 | When specs are never edited, a resource on a cycle is never ready, and does not report it unless it references itself directly |
| Cycles.FlaggedIsSelf | controllers/duck_controller.go:111-117 | When specs are never edited, a run is flagged only on reading the resource itself |
| Detection.ReportsExactly | controllers/duck_controller.go:109-117 | A run of any kind that starts without reports reports a cycle if and only if it gets to a reading that contains its resource |
| Detection.FixedReportsExactly | internal/controllers/composition_controller.go:326-333 | When specs are never edited, a run newly reports a cycle if and only if it gets to a reading of the resource itself, whatever versions it reads |
| Cycles.ClosedCycleBlocksRun | internal/controllers/composition_controller.go:326-359 | If only one resource's spec was ever edited and it is now on a cycle, no run of it calls the registry or publishes, whatever versions it reads |
| Cycles.ClosedCycleKeepsImage | internal/controllers/composition_controller.go:326-359 | While that edit stands its image stays the same through any further runs and creations |
| Graph.WalkAroundPruned | controllers/duck_controller.go:538-545 | If pruning for one resource hides another, the first is reached without passing the second |
| Graph.DistinctPrune | controllers/duck_controller.go:538-545 | Pruning for a resource makes room for it as an ancestor without repetition |
| RunLaws.OwnTagOnly | controllers/duck_controller.go:267-277 | In every run of every controller all copies, pushes and appends go to the resource's own tag, and so does the published image |
| RunLaws.PushKeychain | internal/controllers/composition_controller.go:361-368 | A composition pushes with its own keychain followed by the last dependency's |
| RunLaws.ComposedInOrder | internal/controllers/composition_controller.go:378-388 | What is composed is each dependency's pulled component under its name, in spec order |
| RunLaws.PanicsExactly | internal/controllers/composition_controller.go:311-313 | In reachable worlds an admitted resource's run panics if and only if it is a composition that gets to a dependency without a reference |
| RunLaws.NeverPanics | internal/controllers/composition_controller.go:397-421 | With all references present no run of an admitted resource finds a slot it insists on empty |
| Readiness.CompositionEndsReady | internal/controllers/composition_controller.go:340-392 | A composition's run ends ready if and only if it pushes, or fails before the push in steps that leave every condition alone after an earlier push; then trace and image are the earlier ones |
| Readiness.ContainerEndsReady | internal/controllers/componentcontainerimage_controller.go:83-166 | A container image's run ends ready if and only if it appends, or had appended before and every failing step leaves its condition alone |
| Readiness.ComponentEndsReady | internal/controllers/component_controller.go:93-170 | A component's run ends ready if and only if it copies, or had copied before and fails before the copy in steps that leave both conditions alone |
| Readiness.RestartedReadyIsUncut | controllers/duck_controller.go:442-465 | If every run starts with fresh conditions, nothing is ever cut from a ready resource's trace at any depth, under any edits and stale reads |
| StaleTraces.ReadyWithCutTrace | internal/controllers/composition_controller.go:326-390 | A legal run of six actions after which a composition is ready with a cut trace |
| Admission.DefaultConfigInPlace | apis/components/v1alpha1/configstore_webhook.go:62-101 | The loops fill in exactly the missing names with the resource's own, in place |
| Admission.DefaultCompositionInPlace | apis/components/v1alpha1/composition_webhook.go:66-103 | The recursive loops keep every set field and fill every empty one, each with its own filler, at every depth |
| Admission.RepositoryFilled | apis/registries/v1alpha1/repository_webhook.go:92-106 | A repository reference left out is the cluster's default; otherwise kind and name are filled |
| Admission.ValidateConfig | apis/components/v1alpha1/configstore_webhook.go:145-195 | The errors collected by the loops are the faults of values and sources in order, none exactly if the config is admissible |
| Admission.ValidateComposition | apis/components/v1alpha1/composition_webhook.go:169-251 | Each fault is reported exactly if the spec has it at some depth, and none exactly if the spec is admissible, which forbids references into foreign namespaces |
| Admission.FaultsExact | apis/components/v1alpha1/component_webhook.go:210-248 | Validation passes exactly the specs that are admissible at every depth |
| Admission.FaultsNamed | apis/components/v1alpha1/component_webhook.go:210-248 | A fault is reported exactly if the spec has it |
| Admission.DefaultIsStable | apis/components/v1alpha1/component_webhook.go:91-106 | A spec defaulted for a named resource is unchanged when defaulted for any other, at every depth |
| Admission.ValidIsDefaulted | apis/components/v1alpha1/composition_webhook.go:169-251 | A spec without faults has nothing left to default, for any resource |
| Admission.SourceIsValid | apis/components/v1alpha1/composition_webhook.go:210-251 | A dependency without faults picks exactly one source, and that one is without faults |
| Admission.CompositionIsValid | apis/components/v1alpha1/composition_webhook.go:169-200 | A spec without faults is either a plug or a script over at least two dependencies without faults |
| Admission.FaultsIgnoreName | apis/components/v1alpha1/component_webhook.go:232-240 | Validation depends on the resource's namespace but not on its name |
| Expansion.DesiredChildren | internal/controllers/composition_controller.go:90-119 | One child for each dependency that asks for one, in order: its inline spec, in the parent's namespace, named after the parent and annotated with the dependency's name |
| Expansion.ChildAdmitted | internal/controllers/composition_controller.go:231-260 | A child of an admitted composition is admitted after its own defaulting, under any name, with an unchanged spec |
| Expansion.AdmittedExpands | internal/controllers/composition_controller.go:229-260 | The same holds for all children at every nesting depth |
| Expansion.OneChildPerNode | internal/controllers/composition_controller.go:231-260 | Expansion ends after as many levels as the spec nests, with exactly one resource per inline node |
| Expansion.Parent.Reflect | internal/controllers/composition_controller.go:271-290 | The nested loops write each result into every dependency it names and nothing else |
| Expansion.Parent.ManageDependencies | internal/controllers/composition_controller.go:77-84 | The three passes write all results in turn; with unshared names every inline dependency ends with a reference of its own kind to its own child, and nothing else changes |
| Expansion.WrittenReference | internal/controllers/composition_controller.go:130-149 | Only the reference of a dependency can change, to that of the last result which names it; unnamed dependencies stay |
| Expansion.OwnReferencesExactly | internal/controllers/composition_controller.go:204-223 | With new children for all inline dependencies, every dependency ends with its own reference if and only if no inline dependency shares its name |
| Expansion.WriteBackOrderIrrelevant | internal/controllers/composition_controller.go:131-147 | With unshared names any order of passes and results writes the same references |
| Config.CollectConfig | internal/controllers/configstore_controller.go:77-128 | For any iteration order each key has the last value of its name, else the entry of the last source that provides it under its prefix; on failure the first missing thing decides the error |
| Config.RepresentationUnique | internal/controllers/configstore_controller.go:93-95 | Iteration order leaves no trace in the collected map |
| Config.SortedEntries | components/components.go:69-76 | The list is strictly sorted by key and holds exactly the map's entries |
| Config.LessMeans | components/components.go:74-76 | The order of keys is decided by the first character that differs |
| Config.SortedUnique | components/components.go:74-76 | There is only one sorted list of given entries |
| Config.CanonicalList | components/components.go:69-78 | Whatever the iteration orders, the builder gets one list, which holds a pair exactly if it is effective |
| Wit.ImportsExports | wit/extract.go:34-49 | Imports and exports are the names of the leftmost matches, split by keyword in order |
| Wit.MatchIsLongestWord | wit/extract.go:30-32 | A match is found exactly where a word of the regular expression starts, and takes the longest white space |
| Wit.ScanIsComplete | wit/extract.go:39-46 | The scan finds only matches, in order and apart, and none starts outside them |
| Wit.NamesAreNames | wit/extract.go:30-49 | There are at most as many names as semicolons, none empty or containing one |
| Wit.PrintScanRoundTrip | wit/extract.go:34-49 | Scanning a printed list of imports and exports returns both, in order |
| Registry.Remote.Push | registry/operations.go:60-83 | Succeeds exactly if the interfaces can be read and all uploads get through; then the tag leads to a manifest of the component and of a config that describes it, and otherwise nothing is published |
| Registry.Remote.Copy | registry/operations.go:177-204 | Succeeds exactly if the source is complete and all uploads get through; then the tag leads to the same manifest, and otherwise nothing is published |
| Registry.PullExactly | registry/operations.go:85-141 | What a digest pulls is exactly the one layer of WebAssembly and the config of an image manifest |
| Registry.PulledInterfaces | registry/image.go:49-80 | Pulling a pushed component yields its imports and exports as such, in order |
| Registry.LayerIsComponent | registry/image.go:142-151 | The manifest's one layer is the component and nothing else answers to its digest |
| Registry.OperationsKeep | registry/operations.go:60-204 | No sequence of pushes, copies and moved tags, complete or cut short, loses or changes content |
| Registry.PushThenPull | registry/operations.go:60-141 | Pulling a pushed digest yields the original bytes and a config that describes them after any later operations |
| Registry.CopyThenPull | registry/operations.go:177-204 | A copy keeps the digest, its tag resolves to it, and pulling it yields what the source yields, then and later |
| HostArgs.WasmtimeArgs | apis/containers/v1alpha1/duck_types.go:67-82 | The exact argument list of all capabilities in order, flag by flag and variable by variable |
| HostArgs.EnvWasmtimeArgs | apis/containers/v1alpha1/duck_types.go:91-120 | The environment's arguments in order |
| HostArgs.ConfigWasmtimeArgs | apis/containers/v1alpha1/duck_types.go:128-147 | The config's arguments in order |
| HostArgs.ArgsDecode | apis/containers/v1alpha1/duck_types.go:67-166 | The arguments read back to the same flags and variables if and only if no variable name contains an equals sign |
| HostArgs.RenderingIsInjective | apis/containers/v1alpha1/duck_types.go:67-166 | With such names, capabilities that render alike mean the same |
| HostArgs.EqualsInNameClashes | apis/containers/v1alpha1/duck_types.go:91-147 | Every capability set renders like one with plain names, which means the same if and only if its own names are plain |

## Left out

- Kubernetes client, watches, tracking, events and patches: a read is any version that was ever visible, a status write gets through or not.
- The runtime library's sub-reconcilers and condition manager: used through the contract above.
- Deletion: a resource that is no longer reconciled behaves like a deleted one; recreation under the same name is a new UID, which the theorems of `Cycles` exclude.
- HTTP, cron and wRPC triggers and their Deployments, Services and CronJobs: they copy one span without a check, and nothing references them because they are not registered as components.
- The services and Knative integrations: their resources are registered as components (integrations/services/config/crd/ducks.yaml, integrations/knative/config/crd/ducks.yaml), so components can reference them and traces can pass through them. Lifecycles, bindings and clients copy another resource's status with its trace unchecked (integrations/services/internal/controllers/servicelifecycle_controller.go:396, servicebinding_controller.go:410, serviceclient_controller.go:178), custom clients with a check (serviceresourcedefinition_controller.go:668-679). The theorems of `Safety`, `Cycles`, `Detection` and `Readiness` hold for worlds of the core kinds only.
- The reconcilers of repositories: they have no trace.
- Extism and wazero plugins, composing, WIT extraction from wasm and templates: opaque results of a run or parameters of the codec.
- Transport, credentials and keychain contents: keychains are lists of opaque tokens.
- Registry.Remote.Copy: does not copy the children of an image index, because the library does that; a manifest and the blobs it names are modelled.
- Appending to image indexes and tar streams: not modelled, because it rests on the library's mutation and stream semantics.
- Expansion.DesiredChildren: does not model the labels a child inherits from its parent, because nothing proved here depends on them.
- ClusterComponent and component specs have no validation of their own here: only what inline children need.
- Field paths, messages, retry and error kinds: a fault says what is wrong, an error whether the status update is skipped.
- The child component a composition or config store creates for itself: only whether managing it failed.
- Hashes are arbitrary injective functions and JSON an arbitrary faithful encoding; UTF-8 is not modelled, strings are sequences of characters.
- In-place defaulting through nested pointers is modelled by loops that replace elements of a value: aliasing between specs is not captured.
- The references of a composition in `Protocol` are those after its children were managed; `Expansion` covers how they get there.
