# BurmillaOS in Dafny

A model of the parts of BurmillaOS whose behaviour is hard to see from the code, with proofs that
it behaves as intended. `dafny verify dfyconfig.toml` checks the whole project.

**The service start-up engine** (`Walk`, `BackEdges`, `Orders`, `Round`, `Traversal`, `Actions`,
`Project`, `Labels`, `TwoRounds`). `traverse` walks depth first over the dependencies of all
services, in whatever order Go visits a map. The walk ignores optional edges back to its own path,
rejects required ones, and launches one goroutine per selected service once its dependencies have
been dealt with. Each goroutine waits for the WaitGroups of its dependencies and runs an action;
ErrRestart travels to everything that waits, and leads to another round on reset wrappers and
newly added services.

- `Walk` is the walk as a function of the graph, the iteration order and the cycle actions that
  fail. `BackEdges` says which edges it ignores, `Orders` in which orders it succeeds.
- `Round` is one round as a step relation over the program counters and wrappers of all
  goroutines, compared with running one service after the other. `Traversal` puts rounds together,
  and `Actions` says whose actions ran in them and what came of it.
- `Project` has the objects themselves, updated in place. Its methods are proved against these
  specifications, for an arbitrary map order (`:|`) and scheduler. The services, their actions,
  the cycle actions and the reload callback are a parameter, `World`.
- `Labels` turns the labels `io.rancher.os.after` and `io.rancher.os.before` into edges, and
  proves that these edges order the actions.

**Configuration trees** (`Tree`, `Layers`, `Cmdline`, `CmdlineHeap`). Merging, copying, splitting,
reading and writing of nested maps, the layers of the configuration, and the command line. Trees
are values in `Tree` and `Cmdline`; `CmdlineHeap` has the code that moves a cursor through nested
mutable maps, over a store in which maps refer to each other. Decoding of YAML scalars is a
function parameter.

**Text that is rewritten** (`Interpolation`, `EnvFile`, `Specs`, and `Text` for splitting,
joining and sorting). Interpolation of `$name` and `${name}`, merging of environment files line by line, and
the short forms of ports and volumes.

**Two further state machines** (`Depths`, `Datasource`, `Outcomes`). Linking network interfaces
and marking their depth in a graph of objects; and the race of the cloud-init data sources, as a
step relation over the goroutines, the unbuffered channel, the WaitGroup and the two closed
channels, with the outcomes that are possible.

## What does not hold

- `selectDatasource` is documented to return the first source that reports to be available, and
  nothing only when none becomes available in time. As soon as there are two sources the first
  can be overtaken, and as soon as there is one it can be missed (`Outcomes.FirstIsReturnedIff`,
  `Outcomes.NeverMissedIff`); `Outcomes.OpenBranches` says for every state of the race which
  outcomes are still possible.
- As soon as there is one source, its goroutine can be left blocked for ever, and `done` is then
  never closed (`Outcomes.LeaksIff`). It happens exactly to the sources that were available and
  not received (`Outcomes.StuckIff`, `Outcomes.StuckForEver`).
- Two labels that contradict each other may both be lost over two rounds, as a wrapper keeps what
  it ignores (`TwoRounds.BothOrdersLost`); `Traversal.WaitsIff` says exactly what is left.
- `Merge` is not associative: a non-map between two maps breaks it (`Tree.MergeAssociates` has the
  exact condition, `Tree.MergeNotAssociative` a case). `filterKey` loses empty maps that it
  meets on its way (`Tree.FilterConserves`, `Tree.FilterLosesEmptyMap`).
- Merging an environment file is not idempotent when a kept line ends in more than one carriage
  return, as one goes with each merge (`EnvFile.MergingFileAgain`, `EnvFile.ReturnsVanish`).
- A line that ends in an unpaired dollar makes the interpolation index past its end
  (`Interpolation.AcceptedIffPrinted`, `Interpolation.LoneDollarPanics`).
- Metadata with a root disk makes `mergeMetadata` write to a nil map when the configuration has no
  map under `rancher` and debugging does not create it
  (`Layers.RawConfigFails`, `Layers.EmptyConfigFails`).
- A graph without any cycle of required edges may still fail in every iteration order
  (`Walk.KnotFailsInEveryOrder`); `Orders.GreedyDecides` says which graphs do.
- The comment on `parsePortString` mentions tcp and udp; the code takes anything after the last
  slash as the protocol, and `Specs` follows the code.

## Model

| member | source | states |
|---|---|---|
| Walk.LaunchOrder | pkg/libcompose/project/project.go:538-587 | for every graph, iteration order and outcome: no service is launched (or Ignored) twice, every loaded dependency comes earlier unless its edge was ignored, every ignored edge is optional and closes a path that the walk was on; a walk that succeeds launches every loaded service |
| Walk.ReportedCycle | pkg/libcompose/project/project.go:556-571 | every error names a real path of loaded services that its last edge closes: a required edge for a reported cycle; for a failed cycle action an optional edge, the last that was ignored, whose action is one of those that fail |
| Walk.RequiredCycleFails | pkg/libcompose/project/project.go:546-577 | a cycle of required edges is an error in every iteration order |
| Walk.StartInCycleFails | pkg/libcompose/project/project.go:546-577 | starting with the target of a required edge that lies on a cycle is an error, whatever the other edges are |
| Walk.CycleVerdict | pkg/libcompose/project/project.go:546-577 | some iteration order reports a cycle if and only if some cycle has a required edge |
| Walk.MixedCycleDependsOnOrder | pkg/libcompose/project/project.go:556-571 | a cycle of one required and one optional edge fails in one iteration order and succeeds in the other |
| Walk.KnotFailsInEveryOrder | pkg/libcompose/project/project.go:546-577 | cycles of required edges are not the only graphs that fail in every order: two interlocked cycles, each with one optional edge, do so too |
| Orders.StartIsMonotone | pkg/libcompose/project/project.go:538-587 | a service that can be started after some services can be started after any larger set of them, and more is launched then |
| Orders.NoStartIsWrong | pkg/libcompose/project/project.go:616-622 | when some order succeeds, it also succeeds after any services that could be started first |
| Orders.GreedyDecides | pkg/libcompose/project/project.go:616-622 | some iteration order succeeds if and only if starting whatever can be started, in any way, until nothing more can be, launches every loaded service |
| Orders.SomeOrderSucceeds | pkg/libcompose/project/project.go:616-622 | such an exhaustive list of starts exists for every graph, so it decides the question |
| Orders.OrderFailsIff | pkg/libcompose/project/project.go:556-571 | whatever the cycle actions do, an order fails if and only if it fails when all of them succeed, or it ignores so many edges that a failing action is run |
| Orders.FailureVerdict | pkg/libcompose/project/project.go:546-577 | some order fails if and only if some cycle has a required edge or some order runs a failing action |
| BackEdges.IgnoredIffForward | pkg/libcompose/project/project.go:556-571 | of the edges of a launched service the walk ignored exactly those whose target it had not launched before, for every order and outcome |
| BackEdges.IgnoredOnCycle | pkg/libcompose/project/project.go:556-571 | every ignored edge lies on a cycle |
| BackEdges.OneWayStays | pkg/libcompose/project/project.go:556-571 | of two optional edges in opposite directions a successful walk ignores exactly one |
| Round.DeadlockFree | pkg/libcompose/project/service-wrapper.go:62-115 | in every interleaving, while a launched goroutine is unfinished some goroutine has an enabled step, and the walk is never held up |
| Round.RunsAreBounded | pkg/libcompose/project/service-wrapper.go:62-110 | no interleaving of a round is longer than a bound computed from the dependencies, so every round ends |
| Round.Confluence | pkg/libcompose/project/service-wrapper.go:62-110 | every complete interleaving leaves every wrapper exactly as running the services one after the other in launch order does |
| Round.ActsAfterDependencies | pkg/libcompose/project/service-wrapper.go:62-104 | once an action has started, every dependency that is not ignored is done, and none of them ended in ErrRestart |
| Round.AtMostOnce | pkg/libcompose/project/service-wrapper.go:86-110 | at every moment of a round the counter of a WaitGroup is 0 or 1, an executed wrapper stays executed, and no action starts twice |
| Round.PostponedIsLeast | pkg/libcompose/project/service-wrapper.go:62-95 | the services that do not get to run are exactly the least set closed under waiting for one whose action returned ErrRestart, or for a member of the set |
| Round.OutcomeOfRound | pkg/libcompose/project/service-wrapper.go:62-110 | after every complete interleaving: a service that is not selected or had run before carries what it had; one that waits for a target that ended in ErrRestart is put off; any other has run once and carries what its action returned; a round that is not ordered puts nothing off |
| Traversal.WalkMakesReady | pkg/libcompose/project/project.go:589-622 | whatever its outcome, the walk only launches a service after everything that its goroutine will wait for |
| Traversal.NoDeadlock | pkg/libcompose/project/project.go:538-622 | for every dependency graph, iteration order, failing cycle action and interleaving no goroutine is stuck, also when the walk returns an error part way |
| Traversal.RunsAfterDependency | pkg/libcompose/project/service-wrapper.go:62-104 | an action runs only after each loaded dependency is done or Ignored and did not end in ErrRestart, unless this walk broke the edge or it was ignored before |
| Traversal.IgnoredWasBroken | pkg/libcompose/project/service-wrapper.go:32-53 | whatever a wrapper ignores when a round starts was broken, as an optional back edge, by the walk of an earlier round since the wrapper was loaded |
| Traversal.StaysIgnored | pkg/libcompose/project/service-wrapper.go:32-53 | what a walk broke stays ignored in all later rounds until the name is loaded again |
| Traversal.WaitsIff | pkg/libcompose/project/service-wrapper.go:62-84 | in every round a service waits for exactly those loaded targets whose edge no walk broke, neither the one of this round nor one since the service was loaded |
| Traversal.OrderedInEveryRound | pkg/libcompose/project/project.go:589-649 | in every round after any run of rounds, also one whose walk fails: an action runs only after each loaded dependency is done or Ignored, unless a walk broke the edge, in this round or since the service was loaded |
| Traversal.RestartNeedsAction | pkg/libcompose/project/project.go:626-647 | a round after which `traverse` restarts contains an action that ran in it and returned ErrRestart |
| Traversal.SaneSoFar | pkg/libcompose/project/project.go:589-649 | at the start of every round of every run each counter is 1, no wrapper carries ErrRestart, and an action has run at most once and only if the wrapper is executed |
| Traversal.AlwaysBalanced | pkg/libcompose/project/service-wrapper.go:36-60 | across the rounds of a run each counter is 1 before and 0 after a round, so `Reset` adds to 0; executed never reverts and no instance runs twice |
| Traversal.BalancedThroughout | pkg/libcompose/project/service-wrapper.go:86-115 | the same at every moment of every interleaving of every round of a run |
| Traversal.ExecutedStays | pkg/libcompose/project/service-wrapper.go:36-53 | an executed wrapper stays executed through all later rounds until its name is loaded again |
| Traversal.AsksOnce | pkg/libcompose/project/project.go:589-649 | when reloading never adds a name again that asked for a restart, no name asks twice |
| Traversal.RestartsTerminate | pkg/libcompose/project/project.go:589-649 | under that condition a run over finitely many names has at most one round more than there are names |
| Traversal.NormalEnd | pkg/libcompose/project/project.go:626-649 | when no restart is due, every selected service has been executed |
| Actions.OnlySelectedRun | pkg/libcompose/project/project.go:523-525 | over any run of rounds: of the loaded services exactly the selected ones, or all when none is selected, run their actions; the others are executed without an action and without an error |
| Actions.CarriesReturned | pkg/libcompose/project/service-wrapper.go:47-49 | a wrapper carries what its action returned in the round in which it ran through all later rounds; only a request for a restart is dropped |
| Project.ServiceWrapper.Reset | pkg/libcompose/project/service-wrapper.go:36-53 | fails exactly for a wrapper that is not executed and whose service cannot be created, and then changes nothing; otherwise clears ErrRestart only (by `Actions.CarriesReturned` every other error is kept) and adds one to the counter |
| Project.ServiceWrapper.IgnoreDep | pkg/libcompose/project/service-wrapper.go:32-34 | the target joins the ignored ones; nothing else changes |
| Project.ServiceWrapper.Ignore | pkg/libcompose/project/service-wrapper.go:55-60 | the wrapper counts as executed and is released |
| Project.ServiceWrapper.DoStep | pkg/libcompose/project/service-wrapper.go:62-110 | one atomic step of the goroutine, on the shared wrappers, is the step of the protocol about which the lemmas of `Round` speak |
| Project.Project.StartService | pkg/libcompose/project/project.go:538-587 | the recursive method, working in place on wrappers, launched names and log, refines the walk and leaves on each wrapper exactly the marks (ignored edges, Ignored services) of the walk so far |
| Project.Project.VisitDeps | pkg/libcompose/project/project.go:546-578 | the same for the loop over the dependencies of one service |
| Project.Project.StartAll | pkg/libcompose/project/project.go:616-622 | visiting the wrapper map in an arbitrary order is a walk over every loaded name, also when it is cut short |
| Project.Project.RunGoroutines | pkg/libcompose/project/project.go:580-584 | running the launched goroutines in an arbitrary order ends, with every wrapper as after running one service after the other |
| Project.Project.AddConfig | pkg/libcompose/project/project.go:133-140 | the name is configured and will be loaded by the next round |
| Project.Project.LoadWrapper | pkg/libcompose/project/service-wrapper.go:21-30 | a fresh wrapper is entered exactly when its service can be created |
| Project.Project.LoadWrappers | pkg/libcompose/project/project.go:194-204 | exactly the names before the first that cannot be created get a fresh wrapper |
| Project.Project.ResetAll | pkg/libcompose/project/project.go:598-602 | succeeds exactly when every wrapper that is not executed can be created anew; then all are reset |
| Project.Project.Collect | pkg/libcompose/project/project.go:624-639 | a restart is due if and only if a selected wrapper ended in ErrRestart; an error is returned if and only if a selected one failed, and it is the error of one of them |
| Project.Project.Prepare | pkg/libcompose/project/project.go:589-606 | the first round loads the configured names, a later one resets all wrappers and loads the names added since |
| Project.Project.PlayRound | pkg/libcompose/project/project.go:614-622 | a round is the walk over the relationships that the services report, followed by the goroutines it launched; an error of the walk is a real cycle |
| Project.Project.Traverse | pkg/libcompose/project/project.go:589-649 | terminates; the rounds follow each other by reset and reload and are those that services, actions and reload callback give rise to; a normal return means that every selected name is loaded, that exactly the selected services (or all) have run their action once, that each carries what it returned, and that an error is returned iff some action failed in any round since its service was loaded; every other return is justified, an error of the walk by an iteration order that gives it |
| Project.Project.ForEach | pkg/libcompose/project/project.go:527-536 | the same from the entry point: exactly the named services, or all when none is named, have run once; the others have not run and carry no error |
| Labels.ServiceFactory.Create | pkg/docker/service_factory.go:24-48 | the in-place loops over both labels extend the shared map as `CreatedInOrder` describes |
| Labels.ListedAreNames | pkg/util/util.go:202-213 | a label value of names with commas between and any blanks around them lists exactly these names |
| Labels.CreatedInOrder | pkg/docker/service_factory.go:24-48 | creating a service only appends: for its own name what its after label lists, in order and through the alias; for every other its own name, once per time that its before label lists it |
| Labels.Aliases | pkg/docker/service_factory.go:20-22 | cloud-init means cloud-init-execute, every other name itself |
| Labels.EdgesAreLabels | pkg/docker/service_factory.go:20-46 | for every creation order the shared map has the edge b to a if and only if some created service asks for it: b lists a as after, or a lists b as before, through the alias |
| Labels.EdgesAreWishes | pkg/docker/service_factory.go:24-48 | the same for labels given as lists of names: the edge b to a is there if and only if b lists a to run after, or a lists b to run before |
| Labels.DependentServices | pkg/docker/service.go:37-58 | the loop and the two conditions build the list that `DependenciesAre` describes |
| Labels.DependenciesAre | pkg/docker/service.go:37-58 | a service depends on exactly: its compose relationships, optionally on each registered name in the shared map; and, when registered, with required edges on syslog if it logs there (the log driver counts only without logging), on docker if its scope is not system, and on network if it is a system service without its image |
| Labels.LabelsOrderActions | pkg/docker/service_factory.go:24-48 | end to end: when a label puts a before b, in every dependency-ordered interleaving of every round the action of b runs only after a is done or Ignored, unless a walk broke this edge, in this round or since b was loaded |
| Labels.WishesOrderActions | pkg/docker/service_factory.go:24-48 | the same for labels given as lists of names |
| Labels.LabelKeptIffLaunchedBefore | pkg/docker/service_factory.go:24-48 | a walk breaks the edge of a label exactly when it does not launch a before b, and then the edge lies on a cycle |
| TwoRounds.BothOrdersLost | pkg/libcompose/project/service-wrapper.go:32-53 | two services that each ask to run after the other, postponed in a first round: when the second walk visits the map in another order, neither waits for the other, and each can run before the other has begun |
| Tree.MergeLoop | pkg/util/util.go:127-149 | the loop merges key by key; the laws below are about what it computes |
| Tree.MapCopy | pkg/util/util.go:151-157 | the copy has the same content at every depth |
| Tree.MergeEmpty | pkg/util/util.go:127-149 | the empty map is a unit on both sides |
| Tree.MergeIdempotent | pkg/util/util.go:127-149 | merging a tree over itself changes nothing |
| Tree.MergeAssociates | pkg/util/util.go:127-149 | grouping three trees differently gives the same if and only if no non-map stands between two maps (unless the outer one adds nothing) |
| Tree.MergeNotAssociative | pkg/util/util.go:127-149 | a scalar between two maps: the two groupings give different trees |
| Tree.AgreeAssociates | pkg/util/util.go:127-149 | trees that pairwise agree on what is a map satisfy that condition |
| Tree.GroupingIrrelevant | config/disk.go:49-49 | two groups of agreeing layers can be merged separately and then together |
| Tree.MergedLeaf | pkg/util/util.go:127-149 | the right tree decides every leaf about whose path it says anything, the left one all others |
| Tree.LastLayerWins | config/disk.go:333-406 | each leaf comes from the last layer that says anything about its path |
| Tree.LeavesDetermine | pkg/util/util.go:127-149 | trees without empty maps that have the same leaves are equal, so what is proved about leaves determines them |
| Tree.ReadConfigs | config/disk.go:333-406 | fails exactly when asked to and some source is broken; otherwise all readable sources are merged in order, the given bytes last |
| Tree.ConfigsOf | config/disk.go:338-376 | the layers are the readable sources, in order |
| Tree.LoadRawDiskConfig | config/disk.go:39-50 | built-in files only for a full configuration, the others merged over them; when all agree they are simply merged in order |
| Tree.FilterKeyInPlace | config/data_funcs.go:37-70 | the recursion that deletes and writes in copies splits the tree as the specification of the next two rows does |
| Tree.FilterConserves | config/data_funcs.go:37-70 | merging the filtered part over the rest gives the tree back if and only if no empty map is met on the way down the key |
| Tree.FilterLosesEmptyMap | config/data_funcs.go:37-70 | an empty map at the end of the key is in neither part |
| Tree.FilterSplitsLeaves | config/data_funcs.go:37-70 | each leaf goes to exactly one part: filtered if it is at or under the key or a non-map that the key runs into, rest otherwise |
| Tree.FilterKeys | config/config.go:45-59 | the loop over the listed keys, whose effect the next two rows describe |
| Tree.PrunedLeaves | config/config.go:45-59 | exactly the leaves at or under a listed key, and non-maps that one runs into, are removed |
| Tree.PruneOrderIrrelevant | config/config.go:45-59 | any reordering of the listed keys gives the same tree |
| Layers.LoadRawConfig | config/disk.go:67-77 | disk, kernel command line, elided command line, debug flags and metadata are applied in this order; agreeing disk files count as separate layers |
| Layers.LastLayerDecides | config/disk.go:67-77 | each leaf that debug flags and metadata have nothing to do with comes from the last of: the files, the kernel command line, the elided command line |
| Layers.ElidedGives | config/disk.go:271-283 | an `EXTRA_CMDLINE` text gives what its words set, for keys of this program; without such a text nothing is given |
| Layers.ApplyDebugFlags | config/disk.go:199-216 | when debugging is on, each of the four flags is found as true afterwards unless its path was blocked; otherwise nothing changes |
| Layers.DebugFlagsSet | config/disk.go:205-213 | setting the four keys one after the other sets each: none of them disturbs another |
| Layers.MergeMetadata | config/disk.go:221-261 | the in-place version computes what the next rows are about |
| Layers.UserDataWins | config/disk.go:199-261 | debug flags and metadata never change a leaf of the merged layers other than the flags, an empty host name and the list of SSH keys |
| Layers.MetadataFillsGaps | config/disk.go:221-261 | what metadata adds besides SSH keys: a host name exactly where there is none or an empty one, a resize device exactly where there is none |
| Layers.SshKeysGrow | config/disk.go:240-253 | the listed SSH keys stay in front, followed by exactly one per name in the metadata, in the order of the names |
| Layers.RawConfigFails | config/disk.go:67-77 | over all steps: the code writes to a nil map exactly when there is a root disk, `rancher` is not a map, and debugging does not create it |
| Layers.EmptyConfigFails | config/disk.go:255-258 | an empty configuration and a root disk are such a case |
| Cmdline.SetUnlessBlocked | config/cmdline/cmdline.go:39-86 | a set takes effect if and only if no non-map stands on the path |
| Cmdline.SetThenGet | config/cmdline/cmdline.go:39-86 | what was set is found; where the path is blocked nothing is found |
| Cmdline.SetThenSet | config/cmdline/cmdline.go:39-86 | the second of two sets wins |
| Cmdline.GetThenSet | config/cmdline/cmdline.go:39-86 | setting what is there changes nothing |
| Cmdline.SetElsewhere | config/cmdline/cmdline.go:39-86 | paths that diverge from the written one keep their value |
| Cmdline.GetAfterSet | config/cmdline/cmdline.go:39-86 | the laws for dotted keys: what a set returns is what a get then finds; a blocked set returns the empty string and changes nothing; diverging keys are unaffected |
| Cmdline.SetDecodes | config/cmdline/cmdline.go:51-58 | after an unblocked set a string is found decoded, anything else as it was given |
| Cmdline.GetMissing | config/cmdline/cmdline.go:39-86 | looking up a key that is not there gives the empty string |
| Cmdline.BlockedIff | config/cmdline/cmdline.go:77-82 | a path is blocked if and only if a proper beginning of it leads to a value that is not a map |
| Cmdline.SplitCmdLine | config/cmdline/cmdline.go:130-150 | the stateful closure cuts the line into the fields of the next row |
| Cmdline.SplitCmdLineOfJoin | config/cmdline/cmdline.go:130-150 | words whose quotes and brackets are closed, with spaces only inside them, survive joining with spaces and splitting |
| Cmdline.WordsAreFields | config/cmdline/cmdline.go:129-150 | words of plain characters, quoted texts and bracketed texts, with spaces inside the latter, are found again on a line with spaces between them |
| Cmdline.AssignmentIff | config/cmdline/cmdline.go:156-172 | a word sets a key if it has the prefix cc., or begins with rancher., or all words are taken; the key ends at the first equals sign, and everything after it is the value, or "true" without one |
| Cmdline.AssignedGives | config/cmdline/cmdline.go:152-196 | the tree has the decoded value of every key that is set last and not blocked before, values that are not maps keep out later words below them, and nothing is found at paths that no word touches |
| Cmdline.OneWord | config/cmdline/cmdline.go:157-178 | a single word key=value, with or without the prefix: the whole decoded value is found at the key |
| CmdlineHeap.Store.GetOrSet | config/cmdline/cmdline.go:39-86 | the cursor moving through nested mutable maps returns the value and the tree of the laws above; no map that existed before is written to |
| CmdlineHeap.Store.Parse | config/cmdline/cmdline.go:152-196 | the tree built in place is the fold of the setting operation over the words of the line, including those dropped because a non-map blocks the path; it has what `AssignedGives` says of the words |
| CmdlineHeap.Store.Assign | config/cmdline/cmdline.go:174-192 | writing through a cursor into a tree without sharing is the setting operation on the whole tree, or nothing when blocked |
| CmdlineHeap.WriteThrough | config/cmdline/cmdline.go:174-192 | a write to a map reached along a path changes the tree at this path and nowhere else |
| Interpolation.ParseLine | pkg/libcompose/config/interpolation.go:80-103 | the loop that jumps over expressions always advances, and yields the result about which the next rows speak, including the two ways to fail |
| Interpolation.ParseVariableWithBraces | pkg/libcompose/config/interpolation.go:39-62 | accepts exactly a nonempty name closed by a brace, and ends on the brace |
| Interpolation.ParseVariable | pkg/libcompose/config/interpolation.go:22-37 | takes the longest name and ends on its last byte, or one past the end of the line |
| Interpolation.RoundTrip | pkg/libcompose/config/interpolation.go:22-103 | printing any token list and interpolating it gives the literals and the mapped values |
| Interpolation.DoublingIsUndone | pkg/libcompose/config/interpolation.go:64-103 | doubling every dollar is undone exactly |
| Interpolation.AcceptedIffPrinted | pkg/libcompose/config/interpolation.go:64-103 | a line is accepted if and only if it is the print of a token list, and it makes the code index past its end if and only if it is such a print followed by a lone dollar |
| Interpolation.LoneDollarPanics | pkg/libcompose/config/interpolation.go:64-65 | any text with its dollars doubled, followed by a lone dollar, makes the code index past its end |
| Text.NameCharsAre | pkg/libcompose/config/interpolation.go:11-20 | the name characters are exactly letters, digits and the underscore |
| EnvFile.MergeEnvContents | config/cloudinit/system/env_file.go:43-68 | the text written by the loop is a merge of the values into the old text, about which the next rows speak |
| EnvFile.Keys | config/cloudinit/system/env_file.go:107-114 | the keys in strictly ascending order |
| EnvFile.MergedFile | config/cloudinit/system/env_file.go:43-68 | reading the written file again finds the new value of every pending key and the old one of every other |
| EnvFile.LineByLine | config/cloudinit/system/env_file.go:52-60 | every line keeps its place, and its text unless it is the first line of a pending key |
| EnvFile.KeyOfIff | config/cloudinit/system/env_file.go:37-38 | a line has a key if and only if it begins with it, followed by an equals sign, and it is of letters, digits and underscores |
| EnvFile.CommentStays | config/cloudinit/system/env_file.go:40-60 | a comment line keeps its place and text, also when what it comments out is pending |
| Text.FirstDifference | config/cloudinit/system/env_file.go:107-114 | keys are ordered by the first character in which they differ, or by length when there is none |
| EnvFile.LeftOver | config/cloudinit/system/env_file.go:52-65 | exactly the pending keys without a line are appended |
| EnvFile.MergingFileAgain | config/cloudinit/system/env_file.go:43-68 | merging the same values into the written file again leaves it as it is if and only if no kept line ends in two carriage returns |
| EnvFile.ReturnsVanish | config/cloudinit/system/env_file.go:38-60 | a file with a line of another key that ends in two carriage returns changes again when the same value is merged a second time |
| EnvFile.MergeUnique | config/cloudinit/system/env_file.go:43-68 | the merge is determined by the text and the values, not by the order in which the map is visited |
| Specs.ParsePortString | pkg/libcompose/config/compat.go:287-311 | setting the fields case by case gives the parse of `PortRoundTrip` |
| Specs.PortConfigToString | pkg/libcompose/config/compat.go:313-326 | extending the string gives the print of `PortRoundTrip` |
| Specs.PortRoundTrip | pkg/libcompose/config/compat.go:287-326 | a port survives printing and parsing if and only if it is printable: fields without separators, a protocol, a published port whenever there is a host IP |
| Specs.ParseVolumeString | pkg/libcompose/config/compat.go:341-367 | setting the fields case by case gives the parse of `VolumeRoundTrip` |
| Specs.VolumeConfigToString | pkg/libcompose/config/compat.go:374-384 | extending the string gives the print of `VolumeRoundTrip` |
| Specs.VolumeRoundTrip | pkg/libcompose/config/compat.go:341-384 | a volume survives printing and parsing if and only if it is printable |
| Specs.VolumeMode | pkg/libcompose/config/compat.go:358-364 | a third field makes a volume read-only exactly when it is ro |
| Specs.ScanDecimal | pkg/libcompose/config/compat.go:300-307 | scanning a printed 32-bit number gives the number |
| Specs.ScanPadded | pkg/libcompose/config/compat.go:300-307 | blanks before a number and what follows its digits do not matter; without digits and for numbers beyond 32 bits the result is zero |
| Depths.LinkAncestors | config/cloudinit/network/interface.go:274-300 | appending in place: afterwards an interface has a vlan on it as a child once, and a bond as often as the bond lists it among its slaves; a vlan has no children; children are in the order of their names |
| Depths.LinkedIsNamed | config/cloudinit/network/interface.go:274-300 | the count and the order of the children of each interface, for all kinds and names |
| Depths.ChildIff | config/cloudinit/network/interface.go:276-297 | so c is a child of p if and only if p is not a vlan and c is a vlan on p or a bond with p among its slaves |
| Depths.LinkedIsAcyclic | config/cloudinit/network/interface.go:274-300 | when no bond is, through other bonds, its own slave, no chain of children ever comes back |
| Depths.RootInterfaces | config/cloudinit/network/interface.go:303-312 | what is left after the deletions are exactly the interfaces that are nobody’s child |
| Depths.ReachedFromRoot | config/cloudinit/network/interface.go:303-315 | every interface is below one of them |
| Depths.SetDepth | config/cloudinit/network/interface.go:318-327 | everything below the interface is marked with its depth, and no mark set before is lost, however often children are shared |
| Depths.MarkConfigDepths | config/cloudinit/network/interface.go:302-316 | every interface ends with its depth |
| Depths.ParentIsDeeper | config/cloudinit/network/interface.go:318-327 | a parent is strictly deeper than each child |
| Depths.LongestChain | config/cloudinit/network/interface.go:318-327 | some chain of descendants is as long as the depth |
| Depths.ChainsAreShorter | config/cloudinit/network/interface.go:318-327 | and none is longer |
| Depths.BuildInterfaces | config/cloudinit/network/interface.go:188-199 | linking and marking together: c is a child of p iff p is not a vlan and c is a vlan on it or a bond with it as a slave; the depth of every interface is the length of its longest chain of descendants, parents are deeper than children, and the result lists all interfaces by name |
| Outcomes.DoneMeansNone | cmd/cloudinitsave/cloudinitsave.go:346-359 | in every interleaving in which the `done` branch is taken, every source has said that it is unavailable for good, none has ever been available, and nothing is fetched |
| Outcomes.ReceivedWasAvailable | cmd/cloudinitsave/cloudinitsave.go:326-358 | the source that is received, fetched and returned has said that it is available, and that was its last answer |
| Outcomes.FetchedAtMostOnce | cmd/cloudinitsave/cloudinitsave.go:352-364 | at most one source is ever fetched, and only the received one |
| Outcomes.CounterCounts | cmd/cloudinitsave/cloudinitsave.go:316-350 | the WaitGroup never goes below zero and reaches it exactly when every goroutine has left |
| Outcomes.QuietIff | cmd/cloudinitsave/cloudinitsave.go:313-365 | the final states are exactly those in which the caller has returned, each goroutine has left or still offers its source, and `done` is closed iff none offers |
| Outcomes.StuckIff | cmd/cloudinitsave/cloudinitsave.go:326-330 | in a final state exactly the goroutines whose source was available but not received are still blocked on the channel |
| Outcomes.StuckForEver | cmd/cloudinitsave/cloudinitsave.go:326-330 | once the caller has left the `select`, a goroutine offering its source is blocked in every continuation and `done` is never closed |
| Outcomes.WindsDown | cmd/cloudinitsave/cloudinitsave.go:336-341 | once the caller has returned, a final state can be reached in which no source that waited has been asked again |
| Outcomes.OfferedToNobody | cmd/cloudinitsave/cloudinitsave.go:326-330 | for every n > 0 a complete run at whose end the goroutine of an available source is blocked and `done` is not closed |
| Outcomes.LeaksIff | cmd/cloudinitsave/cloudinitsave.go:313-365 | a goroutine can be left blocked for ever if and only if there is a source |
| Outcomes.OpenBranches | cmd/cloudinitsave/cloudinitsave.go:351-364 | in every reachable state of the `select`, exactly: the time-out can still win; a source can still be returned iff its goroutine has not dropped it, whatever others are on offer; `done` can still win iff no source is on offer |
| Outcomes.NotTheFirst | cmd/cloudinitsave/cloudinitsave.go:308-313 | for every n > 1 a run in which a source is returned although another one was on offer to the caller before it had answered at all |
| Outcomes.TimeOutDespiteSource | cmd/cloudinitsave/cloudinitsave.go:308-313 | for every n > 0 a run in which nothing is returned although a source was on offer to the caller |
| Outcomes.FirstIsReturnedIff | cmd/cloudinitsave/cloudinitsave.go:308-310 | an available source can be overtaken by one that had not answered if and only if there are at least two sources |
| Outcomes.NeverMissedIff | cmd/cloudinitsave/cloudinitsave.go:311-312 | an available source can be missed if and only if there is a source |
| Outcomes.PausesDouble | cmd/cloudinitsave/cloudinitsave.go:323-341 | in every reachable state the next pause of a source is 100 ms doubled once per retry, capped at 30 s |

## Left out

- Project.Project.Traverse: assumes that reloading only adds names of a finite set that have not
  asked for a restart (`Lawful`); services that are added again on every reload, such as console
  and engine, may restart for ever. That every action returns is assumed as well.
- Project.Project.PlayRound: the goroutines run after the walk; any other interleaving of walk and
  goroutines ends the same by `Round.Confluence`. After a walk that failed the goroutines already
  launched are the subject of `Traversal.NoDeadlock` and `OrderedInEveryRound` only.
- Within a round the targets that the walk and the goroutine of a service see are assumed to be
  the same set. In the code a dependency on docker or network may change with the images present.
- Walk.CycleVerdict: for cycle actions that all succeed; `Orders.FailureVerdict` is for any.
- Orders.GreedyDecides: for cycle actions that all succeed. Otherwise an order succeeds exactly when
  it does so then and runs no failing action (`Orders.OrderFailsIff`).
- Labels.LabelsOrderActions: for names registered without a colon; a colon in a name starts an alias
  in `NewServiceRelationship`.
- Labels.DependentServices: `missingImage` and the relationships of the compose configuration are
  inputs.
- Depths.BuildInterfaces: requires that no bond is its own slave through other bonds; otherwise
  `setDepth` does not return when it gets there. `createInterfaces` and the printing of units are
  not modelled.
- Tree.MergeLoop: works on values. That maps and slices which replace something are shared between
  the right argument and the result is not captured.
- Tree.ReadConfigs: reading, substituting, decoding and converting a file is one input per file.
- Layers.LoadRawConfig: the parsed kernel command line, the conversion that decides on debugging,
  and the unescaping of quotes are inputs; `loadRawConfigWithError` differs only in error returns.
- CmdlineHeap.Store.Parse: its inner loop is `Store.Assign`, which `GetOrSet` uses too; the code has
  it twice. Lists are values there, so sharing inside lists is not captured; decoded
  maps are fresh, as they are in the code.
- EnvFile.MergeEnvContents: the caller's map of pending values, which the code empties, is a value.
- Specs.ParsePortString: of `Sscanf` only what matters for reading a number; newlines before it are
  not modelled.
- Datasource: `Receive` may pick any source on offer, which includes every order of the queue of
  the channel. Time is not modelled: timers may fire at any moment.
- Interpolation works on bytes as characters; the maps and lists around a line are not modelled.
- Docker client calls, YAML decoding and schema validation, files, network and kernel interfaces.
- Events, logging and the command line front ends, which do not influence the properties.
- Resolution of `extends`, whose result depends on the iteration order of a map.
