# Actor core of go-middleware-registry, in Dafny

This project models the three-level actor system in `registry/actor.go`:

- the **repository actor** (`RepoActor`). It owns the `Active`, `IsDocker` and `HasPipeline` flags of one repository and handles its messages one at a time.
- the **registry actor** (`RegistryActor`). It owns the map from repository name to repository actor. It adds, removes, toggles and configures entries and lists them.
- the **coordinator** (`CoordinatorActor`). It keeps a dependency graph and a completion set. On each completion message it makes one pass over the graph and configures every entry whose dependencies are now all completed.

Each handler is one atomic step. A channel is modelled as a mailbox: a sequence of messages that have been sent and not yet received, plus a flag that says whether the channel is closed. A send appends to the sequence. The repository actor's receive loop takes messages from the front, in arrival order. The file-writing helpers are recorded in a ghost trace of effect records: `DockerfileWritten`, `PipelineWritten` and `Initialized`.

Files:

- `messages.dfy` (module `Messages`): the message type and the effect records.
- `repo_actor.dfy` (module `RepoActors`): the pure handler `Transition`, the fold `Process` over a mailbox, the lemmas about them, and the class `RepoActor`.
- `registry_actor.dfy` (module `RegistryActors`): the class `RegistryActor` and the listing item.
- `coordinator_actor.dfy` (module `Coordinators`): the pure pass `Pass`, its lemmas, and the class `CoordinatorActor`.

Go walks a map in an unspecified order. `ListItems` therefore picks each next key with `:|`. `HandleCompletion` takes the walk order of the graph as a parameter, required to list every key exactly once. Every property is proved for every order.

Points where the code's behaviour is easy to misread:

- The helpers only print their write errors (`registry/actor.go:106-109`, `115-123`), so `IsDocker` and `HasPipeline` are set even when the write fails. An effect record therefore means "the helper ran".
- `handleCompletion` makes a single pass over the graph, not a fixpoint, and its result depends on the walk order. `SinglePassDependsOnOrder` shows this on the graph A, B depending on A, C depending on B.
- In Go, a send on a closed channel panics, so `RepoActor.Send` requires an open channel. The registry only ever sends to actors it still holds, and its invariant `Valid` says their channels are open.
- Line 335 dereferences `c.registry.Repos[repo]` without checking that the entry exists. For a graph key that is not registered, Go panics on a nil pointer. The model returns this as the outcome `ok == false`, with the state reached at that point. Both directions are stated at visit time, in the completion set of the moment the walk reaches the entry. `PassPanicsOnlyOnUnregistered`: a panic needs an unregistered entry, reached with no earlier panic, that is uncompleted and ready at its visit. `PassPanicsAtReadyUnregistered`: reaching such an entry panics. Together they say exactly when it happens. `PassSafeWhenRegistered` is the case where every walked entry is registered.

## Model

| member | source | states |
|---|---|---|
| `RepoActors.Transition` | registry/actor.go:72-98 | Only ToggleRepo changes `Active`. No message clears `IsDocker` or `HasPipeline`. An inactive repository never gets a helper run. A message causes at most one effect. |
| `RepoActors.ToggleFlipsActive` | registry/actor.go:74-76 | ToggleRepo flips `Active`, keeps both configuration flags and has no effect. Two toggles restore the original state. |
| `RepoActors.ConfigureDockerGuarded` | registry/actor.go:77-82 | ConfigureDocker is a no-op when the repository is inactive or `IsDocker` is already set. Otherwise it runs the Dockerfile helper once and sets `IsDocker`. A second ConfigureDocker does nothing. |
| `RepoActors.ConfigurePipelineGuarded` | registry/actor.go:83-88 | The same guard and idempotence for ConfigurePipeline and `HasPipeline`. |
| `RepoActors.OtherMessagesKeepFlags` | registry/actor.go:89-97 | InitRepo, ReportCompletion and unknown messages leave all three flags unchanged. Only InitRepo on an active repository has an effect: `Initialized`. |
| `RepoActors.ProcessTogglesParity` | registry/actor.go:72-98 | After any mailbox, `Active` equals its initial value flipped once for each ToggleRepo in the mailbox, whatever else is interleaved. No toggle is lost or duplicated. |
| `RepoActors.ProcessConfiguresAtMostOnce` | registry/actor.go:77-88 | Over any mailbox, each configuration helper runs exactly once if its flag went from false to true, and never otherwise. Flags that are set stay set. |
| `RepoActors.ProcessInactiveNoEffects` | registry/actor.go:72-98 | An inactive repository whose mailbox has no ToggleRepo ends with the same flags and no effects. |
| `RepoActors.RepoActor.constructor` | registry/actor.go:57-65 | NewRepoActor: the given name and path, `Active` true, both configuration flags false, and an empty open mailbox. |
| `RepoActors.RepoActor.AddDockerfile` | registry/actor.go:103-110 | Appends one `DockerfileWritten` record to the effect trace. |
| `RepoActors.RepoActor.SetupPipeline` | registry/actor.go:112-124 | Appends one `PipelineWritten` record to the effect trace. |
| `RepoActors.RepoActor.InitializeRepo` | registry/actor.go:126-131 | Appends one `Initialized` record to the effect trace. |
| `RepoActors.RepoActor.Handle` | registry/actor.go:73-97 | The new flags and the effects added to the trace are those of `Transition`. The mailbox and the closed flag are untouched. |
| `RepoActors.RepoActor.Send` | registry/actor.go:187-222 | A send on an open channel appends exactly that message to the mailbox and changes nothing else. It models every `MsgChan <-` to a repository actor: lines 187, 195, 209, 221-222 and 335-336. |
| `RepoActors.RepoActor.Close` | registry/actor.go:196 | Closing an open channel marks it closed and keeps the mailbox, the flags and the effects. |
| `RepoActors.RepoActor.Receive` | registry/actor.go:72-73 | Takes the oldest message off the mailbox and applies `Transition` to it. |
| `RepoActors.RepoActor.DrainMailbox` | registry/actor.go:70-99 | The receive loop handles every queued message in arrival order. The final flags and the added effects are those of `Process` over the old mailbox. |
| `RegistryActors.RegistryActor.constructor` | registry/actor.go:142-148 | NewRegistryActor: an empty directory. |
| `RegistryActors.RegistryActor.AddRepo` | registry/actor.go:175-188 | An existing name leaves the directory and every actor untouched. A new name adds exactly one fresh actor under that name: active, unconfigured, with mailbox `[InitRepo]`. |
| `RegistryActors.RegistryActor.RemoveRepo` | registry/actor.go:191-202 | A present name is deleted and nothing else is. Its actor's mailbox ends with `ReportCompletion(name)` and is then closed, and its flags are unchanged. An absent name changes nothing. |
| `RegistryActors.RegistryActor.ToggleRepo` | registry/actor.go:205-213 | An absent name changes nothing. For a present name, only that actor's mailbox grows, by `[ToggleRepo(name)]`. |
| `RegistryActors.RegistryActor.ConfigureRepo` | registry/actor.go:216-226 | An absent name changes nothing. For a present name, only that actor's mailbox grows, by `[ConfigureDocker, ConfigurePipeline]` in that order. |
| `RegistryActors.RegistryActor.ListItems` | registry/actor.go:248-268 | Returns one item per directory entry, with distinct ids. Each item copies its actor: ID = Name = name, Path = path, Enabled = `Active`, HasDockerfile = `IsDocker`, Type "repository", Status "active". |
| `Coordinators.AllDepsMet` | registry/actor.go:325-331 | The early-exit loop answers true exactly when every dependency is completed. |
| `Coordinators.PassCompletesTriggered` | registry/actor.go:315-339 | The completion set only grows. What it gains is exactly the set of entries the pass configured, and none of them was completed before. |
| `Coordinators.PassTriggersOnlyReady` | registry/actor.go:321-338 | Only walked, registered entries get configured. Each is configured at a visit where, in the completion set of that moment, it was not yet completed and all its dependencies were. So an entry that depends on itself, or on an entry completed later in the walk, is not configured at that visit. |
| `Coordinators.PassCompletesReady` | registry/actor.go:321-338 | Unless it panics, the pass completes every walked entry whose dependencies were all completed when it began. |
| `Coordinators.PassPanicsOnlyOnUnregistered` | registry/actor.go:332-336 | If a pass panics, there is an entry that the walk reached with no earlier panic, that is missing from the registry, and that at that moment was not completed and had all its dependencies completed. |
| `Coordinators.PassPanicsAtReadyUnregistered` | registry/actor.go:322-336 | Conversely, if the walk reaches an entry that is missing from the registry, and at that moment it is not completed and all its dependencies are, with no earlier panic, then the pass panics. |
| `Coordinators.PassSafeWhenRegistered` | registry/actor.go:335-336 | A pass over registered entries never panics. |
| `Coordinators.SinglePassDependsOnOrder` | registry/actor.go:321-338 | Take the graph A, B depending on A, C depending on B. After A completes, the walk order A, B, C configures both B and C. The order C, A, B configures only B. |
| `Coordinators.CoordinatorActor.constructor` | registry/actor.go:286-294 | NewCoordinatorActor: an empty graph and an empty completion set. |
| `Coordinators.CoordinatorActor.AddDependency` | registry/actor.go:308-312 | Replaces any previous dependency list of the entry and keeps the completion set. |
| `Coordinators.CoordinatorActor.Visit` | registry/actor.go:322-338 | A completed entry is skipped. A ready, registered entry gets ConfigureDocker and then ConfigurePipeline, and is marked completed. A ready, unregistered entry is reported as the panic. |
| `Coordinators.CoordinatorActor.Evaluate` | registry/actor.go:320-339 | The walk's completion set, outcome and mailbox changes are those of `Pass`. Each configured entry's mailbox grows by exactly `[ConfigureDocker, ConfigurePipeline]`, and every other mailbox is untouched. |
| `Coordinators.CoordinatorActor.HandleCompletion` | registry/actor.go:315-341 | For any walk order, `Completed` only grows and contains the completed name. The newly marked entries are exactly those configured. All of them are registered, and each gets ConfigureDocker then ConfigurePipeline. Unless it panics, every entry that was ready at the start ends completed. |

## Left out

- Goroutines, channel blocking, `sync.WaitGroup` and the mutexes (`registry/actor.go:67-100`, `150-172`, `296-305`) are not modelled. Each handler is one atomic step over the mailboxes. A Go send on an unbuffered channel blocks until it is received; the model queues the message instead.
- The registry's and the coordinator's own receive loops (`registry/actor.go:151-172`, `297-305`) are not modelled. They route each message to an operation. All of those operations are modelled here except `scanDirectory`, which gets `ScanDir` (`161-162`) and is left out below. The registry's loop also prints unknown messages (`167-168`).
- `scanDirectory` (`registry/actor.go:229-245`) walks the real file system, so it is not modelled. It sends `AddRepo` messages to the registry's own channel.
- Printing (`fmt.Printf`) is not modelled. The registry methods return a bool that stands for the "added", "already exists" and "not found" lines.
- The file contents, file paths and write errors of `addDockerfile` and `setupPipeline`, and the one-second sleep of `initializeRepo`, are not modelled. They appear only as effect records, because their outcomes change no state.
- The `CreatedAt`, `LastUpdated` and `GitRepo` fields of a listing item are not modelled: the first two are `time.Now()` placeholders and the third is always nil.
- The coordinator reads `c.registry.Repos` without holding the registry's mutex. This data race is not modelled: the registry's directory is read as it stands when the pass starts.
- `ListItems` reads `Active` and `IsDocker` (`registry/actor.go:261`, `263`) under the registry's mutex only, while the repository goroutine writes them (`75`, `80`) with no lock shared between the two. This data race is not modelled: the listing reads the flags as they stand after a handler's atomic step.
- On a nil dereference the Go process crashes with the coordinator's mutex still held. The model only reports the outcome and keeps the state reached at that point.
- `registry/registry.go`, `registry/docker.go`, `internal/ui/` and `main.go` are not part of this model: they hold the configuration, the Docker client, the terminal interface and the command line.
