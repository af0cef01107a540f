# fghj, modelled in Dafny

fghj's daemon starts and stops a workspace's containers, gives them names and
addresses on the host, and keeps doing so through failures, restarts and
crashes. This project models the algorithms and state machines behind that and
proves what they promise. Docker, sockets, files and clocks are parameters: each
step takes what they answer as input, and every theorem holds for all answers.

| files | what they model |
|---|---|
| `ordering.dfy`, `graph.dfy` | sorting and counting; walks, reachability and cycles |
| `start_order.dfy`, `closure.dfy`, `cycles.dfy` | the start order, requirement and dependent closures, cycle detection |
| `state.dfy`, `outcomes.dfy` | container and environment records; who failed and who is blocked by whom |
| `start_run.dfy`, `start_run_theorems.dfy`, `start_paths.dfy` | one start run, what every run keeps, and the operations built on it |
| `raw_net.dfy`, `raw_net_theorems.dfy`, `forward.dfy`, `reconcile.dfy` | virtual addresses, the listener table, and the retry loop over both |
| `glob.dfy`, `dockerignore.dfy`, `context_walk.dfy` | one pattern segment, whole patterns and files, the pruned walk |
| `fan_in.dfy` | the effect drivers against actors, forwarders and the registry, interleaved |
| `heal.dfy` | which node is restarted next and when |
| `removal.dfy` | wiring and removing workspaces over two durable files, with crashes |
| `reducer.dfy` | a workspace's state under every sequence of actions |
| `activity.dfy` | the forest of background jobs and their logs |
| `dns.dfy` | the DNS query parser and response writer |

Loops and objects that change in place are methods and classes, proved equal to a
specification function or relation; the theorems are about that specification.
Runs are sequences of states tied together by a step relation.

## Where the code falls short of its promise

Each of these has a lemma with an input or a run that shows it, and one that says
exactly when it happens.

- The glob compares characters before it looks for a star, so a file name that
  contains `*` can miss a pattern that should match it (`Glob.StarInNameFools`;
  exactly these names: `Glob.GlobExactlyWithoutStar`).
- A Dockerfile under an excluded directory is not sent when the ignore file has no
  `!` pattern, although it is documented as always sent
  (`ContextWalk.DockerfileUnderExcludedIsLost`; exactly then:
  `ContextWalk.WalkSendsExactly`).
- A workspace removed and wired again between two passes of a fanned-in driver
  keeps its old forwarder, and updates to the new actor go unnoticed
  (`FanIn.RewiringLosesAnUpdate`). At rest every update is noticed exactly if every
  wired actor is watched (`FanIn.UpdatesNoticedExactly`), and which are not is settled
  when the registry is read (`FanIn.DetachedAtTheRegistryRead`); without such rewiring
  none is lost (`FanIn.NoWakeupIsLost`).
- The healer's least-recently-tried order is fair only within a streak
  (`Heal.PassedOverAcrossStreaks`; `Heal.EveryoneGetsATurn` within one). A waiting
  node is passed over exactly for one whose record is gone (`Heal.PassedOverExactly`).
- A failed index save during a removal is called harmless because a load drops what
  is marked; once the teardown has finished the mark is gone and the next load
  wires the workspace again (`Removal.UnsavedRemovalComesBack`; exactly then:
  `Removal.GoneUntil`).
- A folder missing at load time stays in the index but is invisible to the nesting
  check (`Removal.SkippedFolderLetsOneNest`; exactly then:
  `Removal.NestFreeUnlessHidden`, and what gets hidden: `Removal.HiddenExactly`).
- A debug wait is accepted during a create, unlike starts, stops and deletes
  (`Reducer.DebugWaitRefusedExactly`). The create's settle takes its mark, so nothing
  applies it. If no other action names the node in between, whether the record still
  asks for it depends on the settle (`Reducer.DebugWaitAfterSettleExactly`): one with an
  older copy forgets it, one that only failed keeps it for a node with a container
  (`Reducer.DebugWaitDuringACreateIsLost`).
- A first start that fails leaves a placeholder that nothing works on, although a
  placeholder is documented to be replaced when its start settles
  (`Reducer.FailedStartLeavesAPlaceholder`; exactly then:
  `Reducer.PlaceholdersMarkedExactly`).

## Model

| member | source | states |
|---|---|---|
| StartOrdering.TopologicalStartOrder | src/orchestrator/order.rs:8-49 | the loop computes `StartOrder`, the layered order whose properties the next rows state |
| StartOrdering.StartOrderPermutes | src/orchestrator/order.rs:8-49 | the result is a permutation of the ids on every graph, cyclic ones too |
| StartOrdering.PlacedAfterRequirements | src/orchestrator/order.rs:30-42 | every node before the fallback tail has all its in-set requirements earlier |
| StartOrdering.StuckLeadsToCycle | src/orchestrator/order.rs:42-47 | the fallback tail is sorted and is exactly the nodes from which in-set required edges lead to a cycle |
| StartOrdering.StartOrderRanked | src/orchestrator/order.rs:8-49 | without an in-set cycle every in-set requirement comes before its dependents |
| StartOrdering.StartOrderIgnoresListing | src/orchestrator/order.rs:8-49 | the order depends on which ids are asked for, not on how they are listed |
| StartOrdering.RequirementTable | src/orchestrator/order.rs:9-23 | the requirement table holds exactly the required edges between listed ids |
| StartOrdering.OnePass | src/orchestrator/order.rs:31-42 | one pass over what remains places what is ready, including what only became ready during the pass |
| Closure.Search | src/orchestrator/order.rs:71-86 | the worklist terminates and finds exactly the other nodes reachable over one or more required edges, in either direction |
| Closure.OthersReachedExactly | src/orchestrator/order.rs:71-86 | what that set means: the other nodes a non-empty walk reaches |
| Closure.ClosureOf | src/orchestrator/order.rs:71-88 | lists that set without duplicates, in start order |
| Closure.RequirementsOf | src/orchestrator/order.rs:63-65 | exactly the transitive requirements, in start order |
| Closure.DependentsOf | src/orchestrator/order.rs:67-69 | exactly the transitive dependents, in start order |
| Closure.ClosuresAreDual | src/orchestrator/order.rs:63-88 | b is a requirement of a exactly if a is a dependent of b, on every graph |
| Closure.RequirementsAndDependentsDisjoint | src/orchestrator/order.rs:63-88 | without a cycle nothing is both a requirement and a dependent of one node |
| Cycles.Search.Walk | src/resolver/cycles.rs:66-87 | the recursive search keeps its stack a path, its cycles real and what it is done with free of unreported cycles, and restores the stack |
| Cycles.SearchAll | src/resolver/cycles.rs:28-44 | every cycle found is a simple closed walk; finding none means there is none |
| Cycles.FirstOfEach | src/resolver/cycles.rs:46-54 | one cycle is kept for each set of nodes |
| Cycles.CheckCycles | src/resolver/cycles.rs:10-64 | reports something exactly if the required edges contain a cycle; everything reported is a real cycle; none twice |
| Cycles.PassingGraphStartsInOrder | src/resolver/cycles.rs:10-64 | a graph without reports starts any subset of its nodes with requirements first |
| Outcomes.StartOutcomes.constructor | src/orchestrator/order.rs:101-116 | starts with nothing failed or blocked and the required edges between the targets |
| Outcomes.StartOutcomes.BlockedByNow | src/orchestrator/order.rs:119-135 | the least root cause among the failed or blocked direct requirements, if any |
| Outcomes.UnblockedRequirements | src/orchestrator/order.rs:119-135 | no cause is named exactly if no direct requirement failed or is blocked |
| Outcomes.CauseOf | src/orchestrator/order.rs:119-135 | a cause is a failed direct requirement or the recorded cause of a blocked one |
| Outcomes.StartOutcomes.Error | src/orchestrator/order.rs:145-168 | no report exactly if nothing failed; otherwise one line per failed node, in id order, with its error and exactly its victims, sorted |
| StartRun.BouncedRequirement | src/orchestrator/orchestrate.rs:48-59 | a bounced direct requirement, and none only if there is none |
| StartRun.VisitNode | src/orchestrator/orchestrate.rs:219-351 | one turn of the loop, updating `StartOutcomes` in place, is the step the run theorems are about |
| StartRun.BringUp | src/orchestrator/orchestrate.rs:160-351 | the whole loop over the start order produces such a run and returns where it ends, for any list of targets, one that repeats a node too |
| StartRunTheorems.OutcomesAreFinal | src/orchestrator/orchestrate.rs:219-351 | nothing recorded about a node changes after its visit |
| StartRunTheorems.ActsOnlyOnClearRequirements | src/orchestrator/orchestrate.rs:270-344 | in every run, cyclic or not, a node is started or restarted only while none of its in-set requirements has failed or been blocked |
| StartRunTheorems.NothingStartsBehindAFailure | src/orchestrator/orchestrate.rs:219-351 | without a cycle: nothing that was started, restarted or attempted has a requirement that failed or was blocked at any time of the run |
| StartRunTheorems.BlockedHasRealCause | src/orchestrator/order.rs:119-143 | every blocked node's recorded cause really failed, and blocked nodes lead to it |
| StartRunTheorems.BlockedAreTheDependents | src/orchestrator/orchestrate.rs:219-351 | from a fresh start, without a cycle: blocked are exactly the transitive dependents of the failed nodes, and every target was started, failed or blocked |
| StartRunTheorems.EveryVictimIsReported | src/orchestrator/order.rs:145-168 | every blocked node stands on exactly one line of the report |
| StartRunTheorems.DisturbancePropagates | src/orchestrator/orchestrate.rs:46-59 | a target with a bounced requirement ends up bounced, failed or behind another failure |
| StartRunTheorems.RestartsTraceToARecreation | src/orchestrator/orchestrate.rs:276-310 | every node restarted in place has a chain of required edges down to one recreated in this run |
| StartRunTheorems.CurrentNodesAreLeftAlone | src/orchestrator/orchestrate.rs:38-46 | an alive, recorded, undrifted, unforced node without a bounced requirement keeps its record and is neither started, failed nor blocked |
| StartRunTheorems.DisturbedIsVisited | src/orchestrator/orchestrate.rs:260-312 | the same at the moment of the visit: what happens to a free node over a bounced requirement |
| StartPaths.RestartTargets | src/orchestrator/orchestrate.rs:63-78 | what a Start brings up: the requirements, the node and exactly its running, unmarked service dependents |
| StartPaths.ForcedIsRecreated | src/orchestrator/orchestrate.rs:125-158 | the node a Start names is recreated, never restarted in place |
| StartPaths.RestartNode | src/orchestrator/orchestrate.rs:125-158 | for any list of targets: Ok with its own record exactly if the node was started, which only a target can be; the others are the records of the other targets started; no lookup fails |
| StartPaths.EnsureRunning | src/orchestrator/orchestrate.rs:105-120 | Ok exactly if nothing failed, the same containers either way, none but the targets' changed, and an error names at least one node |
| StartPaths.SuccessStartsEverything | src/orchestrator/orchestrate.rs:105-120 | a fresh, acyclic start without a failure started every target |
| StartPaths.StopOrder | src/orchestrator/orchestrate.rs:389-399 | exactly the nodes of the records running outside the flow, in reverse start order; each once when records are filed under their own nodes |
| StartPaths.DependentsStopFirst | src/orchestrator/orchestrate.rs:387-399 | dependents stop before what they require |
| StartPaths.StopOutside | src/orchestrator/orchestrate.rs:362-384 | a stop that works replaces its container's record, one that fails leaves it, no other is touched |
| StartPaths.SwitchFlow | src/orchestrator/orchestrate.rs:193-228 | stops and starts together: outside the flow every running container is recorded as its stop left it, the targets start from their records as they were, nothing else changes; if every stop works nothing outside runs afterwards |
| RawNet.VirtualIpFor | src/raw_net/mod.rs:24-33 | every hash lands in the pool 127.223.0.1 to 127.223.255.254 |
| RawNet.PickIp | src/raw_net/mod.rs:75-98 | a free preferred address is kept; anything else chosen is in the pool |
| RawNet.Assign | src/raw_net/mod.rs:100-139 | the two loops compute `Assigned`, the table whose properties the next rows state |
| RawNetTheorems.EverySlotIsProbed | src/raw_net/mod.rs:89-94 | the probe reaches every slot of the pool |
| RawNetTheorems.PickIsFree | src/raw_net/mod.rs:75-98 | with fewer claims than slots the address picked is free on all its ports |
| RawNetTheorems.PickIsFreeExactly | src/raw_net/mod.rs:75-98 | for any claims: it is free exactly if the preferred one or some address of the pool is |
| RawNetTheorems.AssignIsConflictFree | src/raw_net/mod.rs:100-139 | while taken addresses and ports together do not exceed the pool, no two names share an (address, port) and none is a taken one |
| RawNetTheorems.AssignCoversAndStaysInPool | src/raw_net/mod.rs:100-139 | exactly the active names are in the table, in the pool if they were before |
| RawNetTheorems.AssignIsStable | src/raw_net/mod.rs:100-139 | assigning again changes nothing |
| RawNetTheorems.SurvivorsStay | src/raw_net/mod.rs:100-139 | dropping endpoints moves none of the others |
| RawNetTheorems.NewcomersMoveNoIncumbent | src/raw_net/mod.rs:100-139 | adding endpoints moves no name already in the table |
| RawNetTheorems.AssignIgnoresListing | src/raw_net/mod.rs:100-139 | listing the endpoints in another order gives the same table |
| RawNetTheorems.ConflictFreeIsKept | src/raw_net/mod.rs:100-139 | a table without conflicts is kept, at any capacity |
| Forward.Forwarder.Listen | src/raw_net/forward.rs:85-99 | a fault of the alias or of the bind, and the alias that either leaves |
| Forward.Forwarder.Apply | src/raw_net/forward.rs:39-83 | afterwards, errors included, the aliases are exactly the listeners' addresses; listeners are the wanted pairs but those taken or failed, with current host ports; each new pair is tried once and a kept listener never bound again |
| Forward.Forwarder.Clear | src/raw_net/forward.rs:101-108 | nothing listens and no alias is left |
| Reconcile.RoutesFor | src/raw_net/mod.rs:52-71 | the loops compute `RoutesOf` |
| Reconcile.RoutesOfExactly | src/raw_net/mod.rs:52-71 | one route for every port of every endpoint that parses, at the name's address |
| Reconcile.DesiredAddresses | src/raw_net/mod.rs:52-71 | the pairs listened on are exactly those of the active names' resolved addresses |
| Reconcile.DesiredAvoidsTaken | src/raw_net/mod.rs:178-195 | a round never asks for a pair already known to be taken |
| Reconcile.DesiredLeadsHome | src/raw_net/mod.rs:52-71 | a connection to a name's address and port reaches that endpoint's host port, not another's |
| Reconcile.RawZone.Round | src/raw_net/mod.rs:178-193 | one round: the table, the routes and what it learned to be taken, which is new |
| Reconcile.RawZone.Reconcile | src/raw_net/mod.rs:178-195 | every non-final round strictly grows what is taken; when it settles the listeners are exactly the routes, serving every active name at the address `resolve` gives |
| Reconcile.ServedWhenSettled | src/raw_net/mod.rs:148-155 | the same as a statement about `resolve` and the listeners |
| Glob.MatchesOneLoop | src/dockerignore.rs:118-140 | the greedy loop terminates and computes `MatchesOne` |
| Glob.EarlierStarIsRedundant | src/dockerignore.rs:124-136 | forgetting all but the last star loses no match |
| Glob.RunDecides | src/dockerignore.rs:118-140 | at every step the loop still decides exactly whether the rest can match |
| Glob.MatchesOneIsGlob | src/dockerignore.rs:118-140 | on names without `*` it is the declarative glob relation, for every pattern |
| Glob.StarInNameFools | src/dockerignore.rs:125-127 | on every name with a `*` some pattern that should match does not |
| Glob.GlobExactlyWithoutStar | src/dockerignore.rs:118-140 | so it agrees with the glob on all patterns exactly for names without `*` |
| Dockerignore.SegmentsMean | src/dockerignore.rs:103-116 | a path matches exactly if writing out every `**` as some number of free segments makes it fit |
| Dockerignore.AnyAncestor | src/dockerignore.rs:82-92 | the loop finds exactly whether the pattern matches the path or an ancestor |
| Dockerignore.Excludes | src/dockerignore.rs:66-78 | the loop computes `Excluded` |
| Dockerignore.LastMatchWins | src/dockerignore.rs:66-78 | excluded exactly if the last pattern that hits the path excludes |
| Dockerignore.ExcludedByAny | src/dockerignore.rs:57-78 | without `!` patterns: exactly if any pattern hits |
| Dockerignore.ExcludedBelow | src/dockerignore.rs:66-92 | without `!` patterns everything below an excluded directory is excluded |
| Dockerignore.ParseFile | src/dockerignore.rs:27-54 | the parser's loop computes `Parse` |
| Dockerignore.WrittenFileParses | src/dockerignore.rs:27-54 | reading any patterns written down one a line gives those patterns in their order |
| Dockerignore.FilesRewrite | src/dockerignore.rs:27-54 | every file says the same as its own patterns written down |
| Dockerignore.CommentsSayNothing | src/dockerignore.rs:29-33 | a comment anywhere changes nothing |
| Dockerignore.GitComesLast | src/docker/image.rs:192-196 | the appended line becomes the last pattern whatever the file says |
| Dockerignore.GitIsExcluded | src/docker/image.rs:192-196 | so `.git` and everything below is excluded |
| ContextWalk.AppendFiltered | src/docker/image.rs:227-279 | the loop over the stack terminates and appends exactly the walk's paths |
| ContextWalk.WalkSendsExactly | src/docker/image.rs:227-279 | the pruned walk sends each path that is always sent or not excluded, and only those, exactly if some `!` pattern exists or every directory above the always-sent files is sent |
| ContextWalk.BeneathUnsentExactly | src/docker/image.rs:259-265 | what the walk never comes to is exactly the paths with an unsent directory above them |
| ContextWalk.DockerfileUnderExcludedIsLost | src/docker/image.rs:227-279 | a Dockerfile under any excluded directory is such a path: it counts as sent and the walk appends nothing |
| ContextWalk.FullWalk | src/docker/image.rs:259-265 | with a `!` pattern nothing is pruned that should be sent |
| ContextWalk.PrunedWalk | src/docker/image.rs:259-265 | without one, what is lost is exactly what is always sent below a pruned directory |
| ContextWalk.PathsAreDistinct | src/docker/image.rs:227-279 | each path is met once |
| ContextWalk.TarBuildContext | src/docker/image.rs:181-214 | filtered exactly if there is a pattern |
| ContextWalk.GitIsNeverSent | src/docker/image.rs:190-196 | with `skip_git_dir` nothing at or under `.git` is sent but a Dockerfile there |
| FanIn.InvAlways | src/effects/mod.rs:96-152 | in every interleaving: whatever the driver has not seen, some forwarder, permit or registry change will still tell it |
| FanIn.QuiescentIsConverged | src/effects/mod.rs:96-152 | when all are blocked and every wired actor is watched, the last pass ended with the current states converged, or with a failed attempt at just those |
| FanIn.FailuresAreFresh | src/effects/mod.rs:132-138 | a failure on record is that of the last attempt, never an older one |
| FanIn.NoWakeupIsLost | src/effects/mod.rs:96-152 | in all histories in which no id is rewired between two passes: at rest the current states are converged, unless the last attempt was at just those and failed |
| FanIn.UpdateNoticedExactly | src/effects/mod.rs:106-123 | at rest an update of a wired actor wakes somebody exactly if some forwarder watches that actor |
| FanIn.UpdatesNoticedExactly | src/effects/mod.rs:106-123 | so every update is noticed exactly if every wired actor is watched, and then the current states are converged |
| FanIn.DetachedAtTheRegistryRead | src/effects/mod.rs:103-123 | which workspaces a forwarder watches another actor for is settled when the registry is read: exactly those that had one for another actor then |
| FanIn.UnwatchedIsDetached | src/effects/mod.rs:106-123 | at rest a wired workspace whose actor nobody watches is one of these |
| FanIn.InternalStepsDescend | src/effects/mod.rs:96-152 | every step of the driver or a forwarder brings the whole closer to rest |
| FanIn.SomethingMoves | src/effects/mod.rs:96-152 | and short of rest one of them can take a step |
| FanIn.LeftAloneItConverges | src/effects/mod.rs:96-152 | from any world that keeps the invariant, whatever came before: once actors and registry are left alone, every schedule of the driver and its forwarders comes to rest; if every wired actor is watched then, as it is whenever forwarders and driver knew the actors to begin with, the current states are converged or just attempted in vain |
| FanIn.StableHistoriesAreSettled | src/effects/mod.rs:96-152 | as they do after every history in which no id was rewired between two passes |
| FanIn.RewiringLosesAnUpdate | src/effects/mod.rs:106-123 | a whole history where removing and rewiring an id between two passes loses an update |
| FanIn.SingleMissesNothing | src/effects/mod.rs:74-94 | the single-actor driver, blocked with nothing unseen, has converged the current state, or its last attempt was at that state and failed |
| Heal.Healer.Choose | src/daemon/heal.rs:72-87 | the node down and rested that was tried longest ago, never-tried first, then by id |
| Heal.Healer.Pick | src/daemon/heal.rs:57-104 | what one call leaves and returns |
| Heal.DelaysDoubleUpToACap | src/daemon/heal.rs:27-32 | the delays are 5, 10, 20, 40, 80, 160 and then 300 seconds |
| Heal.NextRestartWaits | src/daemon/heal.rs:57-104 | the restarts of a streak are numbered one by one up to 8, each waiting out the delay the one before earned |
| Heal.RestartsBackOff | src/daemon/heal.rs:57-104 | the numbers of any two restarts of a streak grow |
| Heal.SilentOnceGivenUp | src/daemon/heal.rs:93-96 | giving up comes after the eighth restart, once, and nothing more is said until the record is dropped |
| Heal.EveryoneGetsATurn | src/daemon/heal.rs:72-87 | with a moving clock, a node is not picked twice in a streak while another, down and rested, waits: that one was restarted in between |
| Heal.RecordlessGoFirst | src/daemon/heal.rs:72-87 | in every life a node with a record is never chosen over one whose record is gone |
| Heal.PassedOverExactly | src/daemon/heal.rs:63-87 | a recorded node that waits is passed over for one restarted since exactly if that one's record is gone |
| Heal.PassedOverAcrossStreaks | src/daemon/heal.rs:63-70 | a life in which that happens: a node that came up for a minute loses its record and goes first again |
| Removal.WorkspaceRegistry.LoadFrom | src/daemon/registry.rs:90-174 | loading is dropping the stale entries, wiring what can be loaded and spawning every pending teardown |
| Removal.WorkspaceRegistry.Resolve | src/daemon/registry.rs:252-322 | refused, already wired, or inserted and then saved, in this order |
| Removal.WorkspaceRegistry.Remove | src/daemon/registry.rs:364-389 | mark, memory, index, teardown, in this order; a retry of what is pending; or nothing |
| Removal.RunsAreSound | src/daemon/registry.rs:364-389 | in every run, whatever fails and wherever it crashes, a marked workspace is wired only in the instant after its mark |
| Removal.LoadsResumeRemovals | src/daemon/registry.rs:90-174 | no load wires a marked workspace, and each takes up all unfinished teardowns |
| Removal.MarksOutliveCrashes | src/daemon/removal.rs:54-59 | a mark goes only when its teardown finished |
| Removal.GoneUntil | src/daemon/registry.rs:364-389 | a removed workspace can come back in exactly two ways: wired again, or its teardown ends while the index still lists it |
| Removal.RemovedStaysAway | src/daemon/registry.rs:90-174 | from its mark on a workspace stays away through crashes, loads and teardowns, whatever else is saved, until it is wired again or its teardown ends while the index lists it |
| Removal.SavedRunsFinishClean | src/daemon/registry.rs:382-387 | while every index save works no teardown ends like that |
| Removal.UnsavedRemovalComesBack | src/daemon/registry.rs:382-387 | when the index save fails, a load after the teardown brings it back |
| Removal.WiredStayApart | src/daemon/registry.rs:254-313 | with working saves and complete loads, in every run from a conflict-free start: no nesting, distinct labels, none that of a workspace being removed |
| Removal.ApartMeans | src/daemon/registry.rs:254-289 | what that says about two wired workspaces and about one being removed |
| Removal.HiddenExactly | src/daemon/registry.rs:105-125 | an entry of the index gets hidden from the running daemon in exactly two ways: a load misses it, or its teardown ends while the index still lists it |
| Removal.CompleteLoadsHideNothing | src/daemon/registry.rs:105-125 | so a load hides nothing exactly if it wires everything listed |
| Removal.NestFreeUnlessHidden | src/daemon/registry.rs:254-289 | an accepted `resolve` keeps workspaces from nesting exactly if no listed but unloaded one conflicts with it |
| Removal.LabelsApartUnlessHidden | src/daemon/registry.rs:254-289 | and keeps labels apart exactly if no listed but unloaded one has its label |
| Removal.SkippedFolderLetsOneNest | src/daemon/registry.rs:106-113 | a run in which a missing folder lets a nested one be wired, after which a load wires both |
| Removal.TeardownsSpareTheWired | src/daemon/registry.rs:275-289 | a teardown takes nothing of a wired workspace |
| Removal.FinishLeavesNothing | src/daemon/removal.rs:76-110 | when the mark goes, nothing of the workspace is left in Docker |
| Removal.NothingIsLeaked | src/daemon/removal.rs:1-12 | at every moment of such runs what is in Docker belongs to a workspace one of the two files lists |
| Reducer.InFlightExactlyWhileOpen | src/reducer/env.rs:15-25 | over every action sequence a create is in flight exactly from an accepted plan to the next create settle |
| Reducer.PlansAndSettlesAlternate | src/reducer/env.rs:15-25 | between two accepted plans a create was settled |
| Reducer.RefusedThroughoutACreate | src/reducer/env.rs:45-110 | starts, stops, deletes and plans are refused all the while |
| Reducer.DebugWaitRefusedExactly | src/reducer/env.rs:61-79 | a debug wait is refused exactly for a missing or marked node, not for a create |
| Reducer.DebugWaitAfterSettleExactly | src/reducer/env.rs:61-79 | with no other action naming the node between the request and the settle of a create: the settle always takes the mark, so nothing applies the wait; the flag stays on record exactly if the settle carries no state, for a node with a container, or one that says the same |
| Reducer.DebugWaitDuringACreateIsLost | src/reducer/env.rs:61-79 | two such settles: one with an older copy forgets the wait, one that only failed keeps it on record unapplied |
| Reducer.CreateSettlesClean | src/reducer/observation.rs:206-215 | a create settle leaves no create, no mark and no placeholder |
| Reducer.FailedCreateLeavesOthersAlone | src/reducer/observation.rs:108-112 | from a plan to a settle that only failed, a node nothing was said about is recorded as before, unmarked, and an entry without a container is gone |
| Reducer.RequestsAcceptedExactly | src/reducer/env.rs:45-158 | after any action sequence a start, stop or delete is accepted exactly if no create is open and its node is free; before the first create only a start is |
| Reducer.RecordsHoldTheLastWish | src/reducer/env.rs:61-158 | through any action sequence, for as long as one record lasts, it wants what the last accepted request wanted, and the rest of what it wants never changes |
| Reducer.RecordsHoldTheLastReading | src/reducer/observation.rs:15-53 | through any action sequence, for as long as one record lasts: its reading is that of the last observation that counts and was answered, it is unseen exactly after one that was not, and interrupted exactly from an answer that finds it down after a silence to the next that finds it up |
| Reducer.EnvironmentsStay | src/reducer/observation.rs:87-115 | there is an environment exactly once a plan was accepted: no report makes one, no action removes one |
| Reducer.MarkKeptExactly | src/reducer/observation.rs:55-134 | a Stop or Delete mark on a real container ends exactly with its own or an untagged settle, or with a create's report |
| Reducer.MarkedUntilItEnds | src/reducer/observation.rs:55-134 | and so stays through any sequence without one |
| Reducer.StopSupersedesStart | src/reducer/env.rs:133-158 | a Stop takes over from a start, whose late report changes nothing |
| Reducer.PlaceholdersMarkedExactly | src/reducer/observation.rs:77-81 | placeholders all have work under way until exactly a settle that failed on one, or a report of a nameless container |
| Reducer.FailedStartLeavesAPlaceholder | src/reducer/observation.rs:77-81 | a first start that fails leaves an unmarked placeholder, which reads as crashed |
| Reducer.StaleObservationsAreDropped | src/reducer/observation.rs:30-36 | of several observations taken against one reading only one can change it |
| Reducer.OthersUntouched | src/reducer/env.rs:10-158 | but for create settles an action changes only the node it names |
| Reducer.EnvironmentHoldsTheLastReports | src/reducer/observation.rs:136-177 | between two create settles the environment holds what was last reported of each volume, the network and the sidecar |
| Activities.ActivityLog.Tree | src/activity.rs:113-127 | terminates with exactly the job and its descendants, each once |
| Activities.ActivityLog.RemoveTree | src/activity.rs:129-132 | removes exactly that tree and keeps the forest |
| Activities.ActivityLog.Push | src/activity.rs:89-110 | appends one record with an id never used before |
| Activities.ActivityLog.Start | src/activity.rs:153-177 | joins a running job of that name, or replaces any other with its whole tree |
| Activities.ActivityLog.StartSuperseding | src/activity.rs:182-200 | never fails, and leaves what starting over a finished job leaves |
| Activities.ActivityLog.Append | src/activity.rs:248-256 | writes on the job's own log and exactly its ancestors', and this is what the transcripts record |
| Activities.ActivityLog.ChildOfKind | src/activity.rs:316-339 | a child in the parent's workspace; of a replaced job, none |
| Activities.ActivityLog.QueuedChildOfKind | src/activity.rs:288-294 | the same, waiting |
| Activities.ActivityLog.Begin | src/activity.rs:297-304 | only a waiting job begins |
| Activities.ActivityLog.Finish | src/activity.rs:356-376 | settles the open job, calls off what is open below, leaves nothing in the tree open, changes nothing else |
| Activities.PruningKeepsForest | src/activity.rs:129-132 | ids, parents and names stay in order when a tree goes |
| Activities.PruningForgetsTheFinish | src/activity.rs:189-197 | superseding and replacing leave the same records |
| Activities.EvolvesTransitive | src/activity.rs:153-376 | what every method keeps holds over any sequence of them: no record moves, loses text or reopens, no id comes back |
| Activities.AncestorsHear | src/activity.rs:246-256 | what was appended to a job is a subsequence of what was appended to every ancestor |
| Activities.AncestorsLogsHear | src/activity.rs:246-256 | and of its own and every ancestor's log, character by character, settled or not |
| Activities.OpenLogsNest | src/activity.rs:246-256 | so the whole log of an open job is a subsequence of every ancestor's |
| Dns.ParseQuery | src/dns/mod.rs:66-110 | in bounds on every buffer; computes `Parse` |
| Dns.ParseInvertsEncode | src/dns/mod.rs:66-110 | every query of section 4.1.2 of RFC 1035 is read as what it says, whatever follows it |
| Dns.ParsedIsEncoded | src/dns/mod.rs:66-110 | and nothing else is accepted |
| Dns.NamesRoundTrip | src/dns/mod.rs:81-97 | labels without dots come back from the name, for any decoder that undoes their encoding |
| Dns.BuildResponse | src/dns/mod.rs:112-150 | writes the encoding of the response described by `Respond`, which the next rows read back |
| Dns.ResponsesRoundTrip | src/dns/mod.rs:112-150 | a resolver that reads header, question and records as sections 4.1.1 to 4.1.4 of RFC 1035 say, and follows compressed names, gets back what was said |
| Dns.ResponseEchoesQuery | src/dns/mod.rs:112-150 | the response to an accepted query parses as that query again; a resolver reads its id, opcode, RD, labels, type and class, the right AA and RCODE, and the address as an A record of class IN with TTL 5 for the labels asked for exactly when it should; it has 12 + question + 16 per answer bytes |

## Left out

- StartRunTheorems.OutcomesAreFinal: like all run theorems but `ActsOnlyOnClearRequirements`, for targets each listed once; a Start on a graph with a cycle, which is reported as blocking, can list a node as requirement and as dependent.
- Reducer.DebugWaitAfterSettleExactly: a create's own report of the node in between replaces the record and the flag with it.
- StartRun.BringUp: which nodes are targets is an input, since flows, migrations and node lookup belong to the graph; so are the network and sidecar, progress reports, node events and the locks around each start.
- StartRunTheorems.DisturbancePropagates: for services that seed nothing and, after a Start, are not already being acted on; others may be skipped before their requirements are looked at.
- StartRunTheorems.BlockedAreTheDependents: for runs in which every target was down and none was skipped; an alive node behind a failure is left alone and not recorded as blocked.
- StartPaths.RestartNode: errors are the structured lines of `Outcomes`, not the formatted string.
- Outcomes.StartOutcomes.Error: the same; names, errors and victims are stated, not punctuation.
- `waited_on` and health waits, which decide only how long a start takes.
- Cycles.CheckCycles: the wording of the warnings.
- RawNetTheorems.AssignIsConflictFree: for distinct names, and while taken addresses plus ports do not exceed the 65534 slots; without room `pick_ip` falls back to a conflicting address, and `RawNetTheorems.PickIsFreeExactly` says when.
- Forward.Forwarder.Apply: new addresses are visited in any order rather than sorted; a listener whose task ended by itself, and the bytes it copies, are not modelled.
- Reconcile.DesiredLeadsHome: for port keys of one endpoint that parse to different numbers; `"80"` and `"080"` do not.
- Reconcile.RawZone.Reconcile: names and addresses are guaranteed to be served without collision only under the same capacity bound.
- ContextWalk.WalkSendsExactly: over a finite tree whose names contain no slash; symbolic links that form loops, unreadable entries, tar bytes and the inline Dockerfile entry are left out, and the archive's root entry without an ignore file is not a path of the tree.
- FanIn.NoWakeupIsLost: for histories in which no id is rewired between two passes; panics of supervised tasks and the shutdown of the registry are left out.
- Heal.Healer.Pick: assumes every container is recorded under its own node id; attempts are unbounded numbers where the source has 32 bits, which 8 attempts never reach.
- Heal.PassedOverExactly: with a clock that moves between calls.
- Heal.EveryoneGetsATurn: within a streak and with such a clock.
- Removal.WorkspaceRegistry.Resolve: one call at a time, and its checks and the insertion are one step; only the end of a teardown could come between them, and it takes nothing the checks allow away. Cloning, canonical paths, owners and actors are left out.
- Removal.WiredStayApart: for runs whose index saves work and whose loads wire everything listed; `Removal.GoneUntil`, `Removal.NestFreeUnlessHidden` and `Removal.LabelsApartUnlessHidden` say what happens otherwise.
- Removal.NothingIsLeaked: the same, and Docker objects appear only under a workspace whose `resolve` is over; a container that a cancelled start had already asked for can still appear during a teardown, which the source answers by listing again.
- Reducer.MarkKeptExactly: for Stop and Delete, which nothing supersedes.
- Reducer.RecordsHoldTheLastWish: until a settle with a result, a create's report of the node, a create's settle with a state, or a start called off before there was a container puts another record in its place.
- StartPaths.SwitchFlow: for records filed under their own nodes; for others `state.containers[&node_id]` can fail.
- Reducer: domains, routes, ports and source of a container are one opaque field, and messages are plain strings.
- Activities.ActivityLog.Start: each handle method is one step, as with the lock held throughout; `child_of_kind` followed by `Queued` and the two halves of superseding release it in between.
- Activities.OpenLogsNest: for an open job; the note added on settling is on the job's own log only, and `Activities.AncestorsLogsHear` says what holds of settled ones.
- Dns.NamesRoundTrip: UTF-8 itself; the decoder is a parameter that has to undo the encoder on the labels at hand.
- Dns.BuildResponse: addresses of any length are written as given; the round trip asks for four bytes.
- Zone matching, certificate eligibility, forwarding to another server and the socket loop around the codec.
- Docker, BuildKit, git, SQLite, the proxy, certificates, the command line and the web interface: input and output, or single steps without state of their own.
