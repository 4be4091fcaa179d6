# Verified model of the machine-management end-to-end suite

A Dafny 4.11 model of the stateful parts of the OpenShift cluster-api-actuator end-to-end suite, with proofs. Check it
with `dafny verify dfyconfig.toml`.

- **The event watcher** (`WatcherSpec`, `EventWatcher`, `WatcherProtocol`, `WatcherRuns`, `DispatchAtomicity`,
  `EnableDiscipline`, `OvertakingRun`, `CounterPolls`, `ScaleEvents`, `Counters`). `WatcherSpec` gives a sequential
  meaning to registering, enabling and visiting handlers and proves in closed form what every legal sequence of such
  steps leaves in each counter. `EventWatcher` holds the objects with the bodies they have inside the locks.
  `WatcherProtocol` is the same code as a transition system for any number of goroutines, one step per lock, unlock,
  field access, matcher entry, matcher return, callback and append; `WatcherRuns` proves that every interleaving
  refines the sequential meaning, conserves events, excludes overlapping matcher calls and, when no callback registers
  a handler, neither deadlocks nor runs for ever. `DispatchAtomicity` says exactly when a dispatch is atomic with
  respect to the enables inside it, `EnableDiscipline` that the repository's callers see only such dispatches, and
  `OvertakingRun` takes the protocol step by step through a dispatch that is not and through a callback that registers
  a handler.
- **The polling waits** (`ClusterReads`, `MachineWaits`, `MachineSetReady`, `NodeDraining`, `PodWaits`). The cluster
  is an arbitrary trace of states, requests fail at arbitrary instants, and each request looks at one instant no
  earlier than the one before. Assumptions about the cluster are predicates on the trace. Polling helpers are loops
  with a bounded number of attempts.
- **Labels and selectors** (`LabelSelectors`): Go maps as heap objects, so that sharing is visible.
- **Capacity and cleanup** (`MemoryRequest`, `RunCleanup`): binary32 rounding over the reals, a pigeonhole argument,
  and the registry of created objects for any number of MachineSets.

## What the code does that its comments or names do not say

- `matchGroup` can never mark a group: an event that passes its guard cannot have the other prefix
  (`ScaleEvents.MatchGroupIsStateless`).
- A dispatch is atomic with respect to registration, but each enable takes its place at its own handler's lock. A
  dispatch is an atomic delivery placed somewhere among the enables inside it if and only if no two handlers that were
  disabled at its begin, and that the event changes, were enabled so that the one visited first missed its visit and
  the other, enabled later, did not (`DispatchAtomicity.AtomicExactlyWhen`). It takes two handlers registered before
  either is enabled (`OvertakingRun.NotAtomicRun`); the repository's callers enable each handler before they register
  the next, so all their dispatches are atomic (`EnableDiscipline.DispatchesAreAtomic`).
- A callback that called `onEvent` would block every later registration and dispatch for ever
  (`WatcherRuns.NestedRegistrationBlocks`).
- The scale-down wait passes on a poll exactly when no scale-down event has been counted, up to a full turn of the
  counter (`CounterPolls.WaitForInitialValue`).
- The wait after deleting the workload uses `Should(BeZero())` on a closure that returns true when no workload pod is
  left, so it passes on the first listing that still shows one and times out if none does
  (`PodWaits.WaitForWorkload`).
- `WaitForMachineSetDelete` lists machines before it gets the set. Even if machines are only made while the set
  exists, and it is not recreated, a success proves the machines gone exactly when the set was gone already at that
  list; all a caller can check before the call is whether the set is gone then, and success is conclusive for every
  such call exactly when it is (`MachineWaits.ConclusiveExactlyWhenSetGone`). The callers wait right after an accepted
  delete, when the set may still be there and make a machine after the list
  (`MachineWaits.ListFirstCanLeaveAMachine`). The reads in the other order would be conclusive
  (`MachineWaits.SetFirstIsConclusive`).
- `WaitForMachineDelete` checks several machines one after another: that they were all missing at one instant follows,
  if names may be reused, exactly when they are one machine, as at every call in the repository
  (`MachineWaits.InstantExactlyForOneMachine`).
- `GetMachines` takes any number of selectors, but each list option replaces the one before: only the last selector
  constrains the listing (`ClusterReads.LastSelectorDecides`). Its callers pass at most one.
- The transient-node wait compares totals over all MachineSets, so two ready nodes of one set hide that another has
  none (`MachineSetReady.TotalsHideAnEmptySet`); they mean one node each exactly when no set shows more than one
  (`MachineSetReady.OneNodeEach`).
- `CreateMachineSet` stamps the caller's label map even when the creation fails (`LabelSelectors.CreateMachineSet`),
  and a health check built from params without labels selects every machine (`LabelSelectors.HealthCheckFor`).
- The scale-from-zero run registers its workload before creating it, so a refused creation leaves a registered object
  that does not exist (`RunCleanup.Suite.ScaleFromZero`) and the cleanup cannot succeed
  (`RunCleanup.Suite.AfterEach`).

## Model

| member | source | states |
|---|---|---|
| Counters.U32Counter.Increment | pkg/autoscaler/counter.go:9-11 | the atomic add of 1: one more, or 0 after the largest uint32; returns the new value |
| Counters.U32Counter.Decrement | pkg/autoscaler/counter.go:13-15 | the atomic add of ^0: one less, or the largest uint32 after 0; returns the new value |
| Counters.DecrementUndoesIncrement | pkg/autoscaler/counter.go:9-15 | the two adds are inverse on every 32-bit value |
| Counters.FireMoved | pkg/autoscaler/event.go:113-120 | k callbacks then one more is k + 1 callbacks, in the closed form over unbounded integers |
| Counters.SameReading | pkg/autoscaler/counter.go:9-19 | two readings agree if and only if the number of callbacks between them is a multiple of 2^32 |
| WatcherSpec.HandlerClosedForm | pkg/autoscaler/event.go:64-70 | after any legal sequence of registrations, enables and visits, a handler's enabled flag, captured state and counter are those of its matcher run in order over the events of its armed visits |
| WatcherSpec.SeenIsSuffixOfDispatched | pkg/autoscaler/event.go:61-94 | a handler is visited with all and only the events whose dispatch began after its registration, in order, once each; only a dispatch in progress may still owe its visit |
| WatcherSpec.ArmedIsSuffixOfSeen | pkg/autoscaler/event.go:66-103 | the visits made enabled are those left after the ones before the first enable |
| WatcherSpec.ArmedIsSuffixOfDispatched | pkg/autoscaler/event.go:61-103 | with no visit owed, the visits a handler was enabled for are a suffix of all the events dispatched |
| WatcherSpec.CounterIsExact | pkg/autoscaler/event.go:54-122 | with no visit owed, a counter is its initial value moved once per accepted event among those dispatched since registration less those missed before enable, modulo 2^32 |
| WatcherSpec.DispatchVisitsEachOnce | pkg/autoscaler/event.go:61-70 | a dispatch can end exactly when it has visited the handlers present at its begin, once each, in registration order, whatever is interleaved |
| WatcherSpec.DeliverIsABracket | pkg/autoscaler/event.go:55-71 | an undisturbed delivery of a fresh event is the legal sequence begin, every visit in order, end |
| EventWatcher.EventWatcher.constructor | pkg/autoscaler/event.go:46-51 | a new watcher has no handlers and keeps its start time |
| EventWatcher.EventHandler.Visit | pkg/autoscaler/event.go:65-69 | the loop body for one handler does the sequential visit: state and counter change only if enabled, the counter only if matched |
| EventWatcher.EventHandler.Enable | pkg/autoscaler/event.go:99-103 | sets enabled and nothing else |
| EventWatcher.EventWatcher.OnEvent | pkg/autoscaler/event.go:86-97 | appends a new disabled handler and changes no other |
| EventWatcher.EventWatcher.Add | pkg/autoscaler/event.go:55-71 | a stale event changes nothing; a fresh one visits every handler once, and handlers stay distinct |
| EventWatcher.EventCounter.constructor | pkg/autoscaler/event.go:109-122 | makes a counter with its initial value and registers one new disabled handler bound to it |
| EventWatcher.EventCounter.Enable | pkg/autoscaler/event.go:128-130 | enables exactly its handler |
| EventWatcher.CountBatch | pkg/autoscaler/event.go:54-130 | a counter made, enabled, fed any batch and then read with get gives its initial value moved once per fresh accepted event |
| WatcherProtocol.InvKept | pkg/autoscaler/event.go:61-103 | every protocol step keeps both lock invariants and every goroutine's local facts |
| WatcherProtocol.StepRefines | pkg/autoscaler/event.go:54-122 | every protocol step is invisible or is exactly one legal sequential step |
| WatcherRuns.RunRefines | pkg/autoscaler/event.go:54-122 | every run of the locked protocol is a legal sequential run with the same outcome |
| WatcherRuns.CallsConserved | pkg/autoscaler/event.go:55-103 | at every point of every run, the onEvent calls given a definition, the enable calls of a handler and the deliveries of a fresh event each number as many as took effect, just as asked for, plus those whose goroutine has yet to |
| WatcherRuns.EventsConserved | pkg/autoscaler/event.go:55-63 | so deliveries of each fresh event equal its dispatches plus its goroutines still short of the list lock |
| WatcherRuns.RegistrationsConserved | pkg/autoscaler/event.go:86-94 | and calls of onEvent with a definition equal the handlers registered with it plus the goroutines that have yet to append it |
| WatcherRuns.RegisteredInCallOrder | pkg/autoscaler/event.go:86-94 | when one goroutine makes all the calls of onEvent, the handlers have the definitions it gave, in the order of its calls, up to one it has yet to append |
| WatcherRuns.CounterInEveryInterleaving | pkg/autoscaler/event.go:54-122 | at every point of every interleaving each counter is its initial value moved once per accepted armed visit, and outside a dispatch those visits are a suffix of the dispatched events |
| WatcherRuns.MutualExclusion | pkg/autoscaler/event.go:61-69 | a matcher or callback runs only with both locks held, never two at a time and never overlapping an enable of its handler |
| WatcherRuns.InsideIsUndisturbed | pkg/autoscaler/autoscaler.go:162-172 | no other goroutine's step changes a handler, its captured state or counter while one is inside it |
| WatcherRuns.DeadlockNeedsNesting | pkg/autoscaler/event.go:61-103 | in every reachable state in which no callback waits in a nested onEvent, if some call is unfinished some call can step |
| WatcherRuns.NeverDeadlocked | pkg/autoscaler/event.go:61-103 | with callbacks that do not call onEvent, as all of the repository's, no reachable state is deadlocked |
| WatcherRuns.EveryCallReturns | pkg/autoscaler/event.go:61-103 | with such callbacks, from any reachable state without new calls, at most a fixed number of steps follow and they stop exactly when every call has returned |
| WatcherRuns.DispatchOwnStepsBounded | pkg/autoscaler/event.go:61-71 | a dispatch that has the list lock takes a bounded number of its own steps whatever other goroutines start |
| WatcherRuns.CallbackNests | pkg/autoscaler/event.go:64-94 | an accepted event takes a goroutine from the callback of a handler registered so into a nested onEvent |
| WatcherRuns.NestedRegistrationBlocks | pkg/autoscaler/event.go:61-94 | from every reachable state in which a callback has called onEvent, its goroutine never moves again, and in every continuation nothing is registered and no other dispatch begins |
| OvertakingRun.NestedRun | pkg/autoscaler/event.go:61-94 | a run of the protocol that reaches such a state |
| DispatchAtomicity.EachEnableAtItsOwnLock | pkg/autoscaler/event.go:64-103 | inside a dispatch each handler's outcome depends only on whether its own enable preceded its own visit |
| DispatchAtomicity.AtomicExactlyWhen | pkg/autoscaler/event.go:61-103 | a complete dispatch ends in the same handlers as the enables before some cut, one atomic delivery and the enables after it, if and only if no handler disabled at the begin and changed by the event was overtaken: enabled after its visit and before a later such handler that was enabled before its own |
| DispatchAtomicity.OvertakingShows | pkg/autoscaler/event.go:61-103 | once a handler was overtaken, no cut at all gives the handlers the dispatch ends in |
| DispatchAtomicity.AtomicWithOneDisabled | pkg/autoscaler/event.go:61-103 | a dispatch that begins with at most one handler disabled is atomic |
| DispatchAtomicity.AtomicWithOneEnabled | pkg/autoscaler/event.go:61-103 | a dispatch whose enables are all of one handler is atomic |
| DispatchAtomicity.AtomicWithoutEnables | pkg/autoscaler/event.go:61-70 | a dispatch with no enable inside is the atomic delivery itself |
| EnableDiscipline.OnlyTheNewestIsDisabled | pkg/autoscaler/autoscaler.go:352-371 | if one goroutine registers all handlers and enables each before it registers the next, then at every point of every run all but the newest are enabled |
| EnableDiscipline.DispatchesAreAtomic | pkg/autoscaler/autoscaler.go:352-371 | every complete dispatch of every such run is atomic |
| OvertakingRun.NotAtomicRun | pkg/autoscaler/event.go:61-103 | a run of an informer and a test goroutine that registers two counters before it enables either, whose dispatch no cut explains |
| CounterPolls.ReadIs | pkg/autoscaler/event.go:124-126 | a lock-free load at any point returns the initial value moved once per event counted so far |
| CounterPolls.CountedGrows | pkg/autoscaler/event.go:113-126 | later loads find the same handler with at least as many events counted |
| CounterPolls.ConsistentReadsCountNothing | pkg/autoscaler/autoscaler.go:400-405 | polls that all read one value, fewer than 2^32 counted events apart, have no counted event between first and last |
| CounterPolls.ReadFromZero | pkg/autoscaler/autoscaler.go:377-382 | a poll of the scale-up wait for k passes if and only if the number of events counted is k modulo 2^32 |
| CounterPolls.OvershootNeverRecovers | pkg/autoscaler/autoscaler.go:377-382 | once more than k events have been counted no later poll for k passes while fewer than 2^32 have been |
| CounterPolls.WaitForInitialValue | pkg/autoscaler/autoscaler.go:408-417 | a poll of the scale-down wait passes if and only if the number of counted events is a multiple of 2^32 |
| ScaleEvents.ScaleUpMatcher.Match | pkg/autoscaler/autoscaler.go:162-172 | the loop over scaledGroups, in any order, computes one result and one new map |
| ScaleEvents.PrefixesExclusive | pkg/autoscaler/autoscaler.go:159-167 | no message of a scale-up event has the group-size prefix, for any group name |
| ScaleEvents.SizeAnnouncement | pkg/autoscaler/autoscaler.go:162-172 | an event that announces a group's size is refused before the loop that would mark the group |
| ScaleEvents.MatchGroupIsStateless | pkg/autoscaler/autoscaler.go:155-172 | matchGroup says yes exactly to events of the cluster-autoscaler with reason ScaledUpGroup, kind ConfigMap and the scale-up prefix, and leaves scaledGroups unchanged |
| ScaleEvents.ScaleUpAnnouncement | pkg/autoscaler/autoscaler.go:154-204 | a scale-up announcement, for any group and size, is accepted by the scale-up counter and by neither other |
| ScaleEvents.ScaleDownAnnouncement | pkg/autoscaler/autoscaler.go:154-204 | a scale-down announcement is accepted by the scale-down counter and by neither other |
| ScaleEvents.MaxNodesAnnouncement | pkg/autoscaler/autoscaler.go:154-204 | an announcement that the cap is reached is accepted by the max-nodes counter and by neither other |
| ScaleEvents.OthersRefused | pkg/autoscaler/autoscaler.go:154-204 | another component, kind or reason is refused by all three |
| ScaleEvents.OtherMessagesRefused | pkg/autoscaler/autoscaler.go:154-204 | so is a message that does not begin with the text of its reason |
| ScaleEvents.PickedAreAccepted | pkg/autoscaler/autoscaler.go:154-204 | over any run of events a counter whose matcher keeps its state counts exactly the events the matcher accepts |
| ScaleEvents.ScaleUpCounterInEveryInterleaving | pkg/autoscaler/autoscaler.go:154-178 | at every point of every interleaving the scale-up counter reads its initial value plus the number of scale-up announcements among its armed visits, modulo 2^32, and outside a dispatch scaledGroups is what it was given |
| ScaleEvents.ScaleDownCounterInEveryInterleaving | pkg/autoscaler/autoscaler.go:180-191 | the same for the scale-down counter and its announcements |
| ScaleEvents.MaxNodesCounterInEveryInterleaving | pkg/autoscaler/autoscaler.go:193-204 | the same for the max-nodes counter and its announcements |
| ScaleEvents.ArmedBetween | pkg/autoscaler/event.go:61-103 | between two moments outside a dispatch, a handler already enabled is visited with exactly the events dispatched in between |
| ScaleEvents.ConsistentMeansNoScaleUp | pkg/autoscaler/autoscaler.go:400-405 | when the Consistently check passes for an enabled scale-up counter, with no dispatch in progress at its first and last poll and fewer than 2^32 events counted between polls, no scale-up event was dispatched in between |
| ScaleEvents.CountersShareNoEvent | pkg/autoscaler/autoscaler.go:154-204 | no event is counted by two of the three counters |
| ClusterReads.Client.ListMachines | pkg/framework/machines.go:49-78 | a listing shows each machine that the selector in force picks at one instant, once each |
| ClusterReads.ListingShows | pkg/framework/machines.go:49-78 | it shows exactly the machines of the machine API namespace that carry every label of the last selector given, or all of them if none is given |
| ClusterReads.LastSelectorDecides | pkg/framework/machines.go:56-65 | several selectors constrain the listing together, in every cluster, if and only if the last implies each of the others |
| MachineWaits.MachinesMissing | pkg/framework/machines.go:119-132 | one pass: true if every machine was read missing, false at the first one that was not; it succeeds in a settled cluster |
| MachineWaits.WaitForMachineDelete | pkg/framework/machines.go:118-133 | success means the last pass read every machine missing; a timeout means that one pass and then every retry was made, that each found some machine not reported missing, and that none began in a settled cluster |
| MachineWaits.MissingTogether | pkg/framework/machines.go:118-133 | if no name comes back after its read, success means all machines are missing at the one instant of return |
| MachineWaits.ReusedNamesDefeatThePass | pkg/framework/machines.go:119-132 | a trace in which a pass succeeds though some machine exists at every instant |
| MachineWaits.InstantExactlyForOneMachine | pkg/framework/machines.go:118-133 | whatever names are reused, a successful pass means one instant at which all machines were missing, in every trace, if and only if all the machines waited for are one |
| MachineWaits.MachineSetMissing | pkg/framework/machinesets.go:340-356 | one pass: true exactly when the list was empty and the later read of the set was not-found |
| MachineWaits.WaitForMachineSetDelete | pkg/framework/machinesets.go:338-358 | success means the last pass listed no machine and then found the set missing; a timeout means that every pass was made, that none saw that, and that none listed once set and machines were gone for good |
| MachineWaits.SetAndMachinesMissing | pkg/framework/machinesets.go:338-358 | success means set and machines are missing together at return if no machine starts to match after the list and the set is not recreated |
| MachineWaits.ListFirstCanLeaveAMachine | pkg/framework/machinesets.go:342-354 | from any cluster that still has the set, a trace where only the set makes machines, it is not recreated, and a pass succeeds with a machine left |
| MachineWaits.ConclusiveExactlyWhenSetGone | pkg/framework/machinesets.go:338-358 | where only the set makes machines and it is not recreated, success proves set and machines gone at return, in every trace, if and only if the set was gone already at the list, or, for what can be told before the call, if and only if it was gone when the wait was called |
| MachineWaits.LeftoversAppearedBetweenTheReads | pkg/framework/machinesets.go:342-354 | under that assumption a machine can be left at return only if one appeared between the two reads |
| MachineWaits.SetFirstIsConclusive | pkg/framework/machinesets.go:342-354 | under that assumption the opposite order of reads would make success conclusive |
| MachineSetReady.FilterRunningMachines | pkg/framework/machines.go:23-33 | the loop computes the filter |
| MachineSetReady.SameLengthMeansAllRunning | pkg/framework/machinesets.go:314-319 | the filter keeps the length if and only if all machines run, and then it is the identity |
| MachineSetReady.IsNodeReady | pkg/framework/nodes.go:115-122 | ready if and only if the first Ready condition exists and is True |
| MachineSetReady.NodesAreReady | pkg/framework/nodes.go:125-135 | true if and only if every node is ready |
| MachineSetReady.NodesOfMachinesReady | pkg/framework/machinesets.go:321-330 | the node loop passes exactly when each machine has a node that was read ready |
| MachineSetReady.MachinesReady | pkg/framework/machinesets.go:301-333 | an attempt passes exactly when the listed count is the replica count, all run and each node was read ready; every other outcome names the first check that failed |
| MachineSetReady.WaitForMachineSet | pkg/framework/machinesets.go:295-334 | the wait reads the set once and fails if it cannot; otherwise it succeeds exactly when its last attempt passed for the selector and replica count read there, and a timeout means that every attempt was made, that each listing failed or saw a wrong count, a machine not running or a machine without a ready node, and that none listed on a cluster ready for good |
| MachineSetReady.ReadyHasNoFault | pkg/framework/machinesets.go:301-333 | an attempt that lists once the set has its machines, all in phase Running on nodes whose first Ready condition is True, and keeps them, finds no fault |
| MachineSetReady.PassCountsTheCluster | pkg/framework/machinesets.go:301-319 | at the instant of the listing exactly the replica count of machines matched, all running |
| MachineSetReady.ReadyTogether | pkg/framework/machinesets.go:301-333 | if neither machines nor nodes fall back after the listing, at return the replica count of machines match, all running, each on a ready node, at that one instant |
| MachineSetReady.TransientNodesReady | pkg/autoscaler/autoscaler.go:305-317 | the attempt passes if and only if no listing failed, the total of nodes is the number of sets and all are ready |
| MachineSetReady.TotalsHideAnEmptySet | pkg/autoscaler/autoscaler.go:316 | two ready nodes of one set and none of the next make an attempt pass |
| MachineSetReady.OneNodeEach | pkg/autoscaler/autoscaler.go:316 | that total means one node for each set if and only if no set shows more than one |
| NodeDraining.CountPods | pkg/framework/nodes.go:177-186 | the counting loop gives the number of listed pods on the node that are not being deleted |
| NodeDraining.Drain.Attempt | pkg/framework/nodes.go:140-220 | one attempt: each request reads the cluster at an instant of its own, in the order of the code; the captured name follows the machine's node, and done and budget errors are exact |
| NodeDraining.VerifyNodeDraining | pkg/framework/nodes.go:137-223 | success returns the node read in the last attempt, seen unschedulable and then with at most two live selected pods; no attempt but the last saw the budget broken, and the budget error is returned exactly when the last did; a timeout means that every attempt was made and that none began on a drained node |
| NodeDraining.SettledIsDrained | pkg/framework/nodes.go:140-220 | an attempt that begins when the machine refers to an unschedulable node with at most two selected pods left on it that are not being deleted, and the controller misses at most one replica, all for good, reports the node drained |
| NodeDraining.DrainedAtReturn | pkg/framework/nodes.go:165-215 | if the node stays unschedulable after its read and selected pods are bound to schedulable nodes alone, then at return it is unschedulable with at most two live selected pods, at that one instant |
| NodeDraining.BudgetCheckMeaning | pkg/framework/nodes.go:206-209 | the exact range of shortfalls the check reports, the int32 difference wrapping outside it |
| PodWaits.Collector.Attempt | pkg/infra/spot.go:85-97 | one call of the closure appends the node's pods of that listing, or reports the error and appends nothing |
| PodWaits.CollectTerminationPods | pkg/infra/spot.go:84-97 | although the closure appends across attempts, on success pods is the filter of the last listing alone |
| PodWaits.OnNodeKeepsMultiplicity | pkg/infra/spot.go:91-95 | each pod of the node is kept as often as listed |
| PodWaits.WorkloadGone | pkg/autoscaler/autoscaler.go:423-429 | true if and only if no listed pod name contains the workload's name |
| PodWaits.ContainsMeans | pkg/autoscaler/autoscaler.go:424 | a name counts as the workload's exactly when it is some text, the workload's name and some text |
| PodWaits.WaitForWorkload | pkg/autoscaler/autoscaler.go:419-430 | the wait passes exactly on the first listing that still shows a workload pod, and so times out when none does; a failed listing fails the test |
| LabelSelectors.MergeInto | pkg/framework/machinesets.go:235-246 | a merge loop, in any order, adds the missing keys and overwrites none |
| LabelSelectors.NewMachineSet | pkg/framework/machinesets.go:194-249 | fresh separate maps with the exact selector and template; the input maps are not changed |
| LabelSelectors.ExtendedHas | pkg/framework/machinesets.go:213-246 | selector and template carry the cluster and MachineSet labels with the new values and every other label as it was |
| LabelSelectors.CloneSelectsItself | pkg/framework/machinesets.go:213-246 | the clone's selector picks its own template if and only if the source's did apart from the two identity keys |
| LabelSelectors.ClonesSelectThemselves | pkg/autoscaler/autoscaler.go:286-298 | along any chain of clones of clones the selector stays contained in the template |
| LabelSelectors.DistinctNamesExclude | pkg/framework/machinesets.go:213-246 | no label map satisfies the selectors of two sets with distinct names |
| LabelSelectors.SourceClaimsCloneExactlyWhen | pkg/framework/machinesets.go:213-246 | the source's selector also claims the clone's machines if and only if it leaves the MachineSet key open or names the clone, and agrees on the cluster |
| LabelSelectors.CreateMachineSet | pkg/framework/machinesets.go:64-108 | object labels, selector, template and spec labels are one map, the caller's if it gave one; it is stamped even if creation fails |
| LabelSelectors.WriteAll | pkg/framework/machinesets.go:82-95 | writes through the caller's map, the object's four label fields or a health check's selector, up to one that panics, all reach the one map |
| LabelSelectors.HealthCheckFor | pkg/machinehealthcheck/machinehealthcheck.go:94-106 | with labels in the params the health check's selector is the very map of the set's selector and template, whatever is written before or after; without, it selects everything |
| LabelSelectors.TemplateWriteKeepsSelection | pkg/autoscaler/autoscaler.go:289-298 | with separate maps a template write parts selector and template exactly when it changes a selected key |
| MemoryRequest.RoundTiesToEven | pkg/autoscaler/autoscaler.go:245 | binary32 rounding gives a binary32 value, none is nearer, and of two equally near it gives the one with an even significand |
| MemoryRequest.ProductRounds | pkg/autoscaler/autoscaler.go:245 | the product rounds the factor, the capacity and what they come to, each so |
| MemoryRequest.RoundingError | pkg/autoscaler/autoscaler.go:245 | binary32 rounding moves a value by at most one part in 2^24 |
| MemoryRequest.UlpUnique | pkg/autoscaler/autoscaler.go:245 | the rounding unit is the one power of two that leaves a 24-bit significand |
| MemoryRequest.RoundedIsFixed | pkg/autoscaler/autoscaler.go:245 | rounding leaves rounded values alone |
| MemoryRequest.SeventyPercent | pkg/autoscaler/autoscaler.go:239-245 | the request is 70% of the capacity to within three parts in ten million and one nano unit |
| MemoryRequest.RequestFillsANode | pkg/autoscaler/autoscaler.go:239-245 | for every positive capacity, and any factor from 0.6 to 0.9, the request is more than half and less than all of it, rounding, printing and parsing included |
| MemoryRequest.RequestExists | pkg/autoscaler/autoscaler.go:245 | every positive capacity has such a request, for any positive factor |
| MemoryRequest.OnePodPerNode | pkg/autoscaler/autoscaler.go:242-245 | when two requests exceed the measured capacity no node of at most that capacity holds two workload pods |
| MemoryRequest.SomeJobUnplaced | pkg/autoscaler/autoscaler.go:345-373 | with maxNodesTotal + 1 such jobs and at most maxNodesTotal such nodes some job is always unplaced |
| MemoryRequest.ExtraJobUnplaced | pkg/autoscaler/autoscaler.go:239-373 | the same for the request the code computes, with its factor 0.7, from any positive capacity |
| MemoryRequest.OneEachFits | pkg/autoscaler/autoscaler.go:345-373 | one job a node does fit when each node has room for one, so it is the cap on nodes that leaves a job unplaced |
| RunCleanup.DecimalParses | pkg/autoscaler/autoscaler.go:288 | an index prints as digits that read back as the index |
| RunCleanup.PrintedNames | pkg/autoscaler/autoscaler.go:288 | the names of the objects of a run, printed for an example prefix and any index below ten |
| RunCleanup.PrintedZeroNames | pkg/framework/machinesets.go:42-50 | the names of the other run's objects, printed for an example |
| RunCleanup.NamesDiffer | pkg/autoscaler/autoscaler.go:286-361 | no two objects of the "scale up and down" run share a name, given that the server does not repeat a generated name |
| RunCleanup.ZeroNamesDiffer | pkg/framework/machinesets.go:42-50 | no two objects of the "scales from/to zero" run share a name, whatever the infrastructure is called |
| RunCleanup.RegistersAllExactlyWhenDistinct | pkg/autoscaler/autoscaler.go:247-255 | a registry keyed by name keeps every entered object if and only if no two share a name |
| RunCleanup.Suite.CreateAndRegister | pkg/autoscaler/autoscaler.go:299-300 | create, expect, register keeps the registry equal to what is outstanding |
| RunCleanup.Suite.DeleteAndUnregister | pkg/autoscaler/autoscaler.go:409-410 | delete what is registered under the name, expect, unregister keeps it too and deletes that object |
| RunCleanup.Suite.CreateAll | pkg/autoscaler/autoscaler.go:257-375 | the run up to the created workload, for any number of MachineSets: it asks for its requests in the order of the code, goes on at each yes and stops at the first no |
| RunCleanup.Suite.DeleteAll | pkg/autoscaler/autoscaler.go:376-462 | the rest of the run, its deletions in the order of the code, in the same way |
| RunCleanup.Suite.ScaleUpAndDown | pkg/autoscaler/autoscaler.go:257-463 | the run finishes exactly when every request was granted, and otherwise its last was refused; wherever it aborts, the registry holds exactly the objects created and not yet accepted for deletion; a finished run leaves none |
| RunCleanup.Suite.ScaleFromZero | pkg/autoscaler/autoscaler.go:465-547 | the same script law; everything outstanding is registered wherever it aborts, and nothing else is unless the workload's creation was the request refused |
| RunCleanup.Suite.AfterEach | pkg/autoscaler/autoscaler.go:251-255 | a cleanup that succeeds has had a delete accepted for every registered object, so for every outstanding one, and can succeed only if all existed; one that fails stopped at a registered object whose delete was refused |
| RunCleanup.RunAndCleanUp | pkg/autoscaler/autoscaler.go:251-463 | a "scale up and down" run followed by a successful cleanup leaves nothing, wherever the run stopped |
| RunCleanup.RunFromZeroAndCleanUp | pkg/autoscaler/autoscaler.go:251-547 | the same for a "scales from/to zero" run, whose cleanup cannot succeed if the workload was refused |

## Left out

- The Kubernetes API client, informer factory, cache synchronisation, scale client and REST mapper: requests are reads
  of an arbitrary trace, and the informer is a source of arbitrary deliveries from any number of goroutines.
- Ginkgo, Gomega and wait.PollImmediate internals, wall-clock time, logging and reporters: a wait is a bounded number
  of attempts.
- The cluster autoscaler, machine controllers and scheduler appear only as named assumptions on traces.
- Matchers that call onEvent, and callbacks or matchers that call enable: the repository has none. Callbacks that call
  onEvent are modelled.
- A goroutine that enables a handler may do so from the moment it is appended, slightly before onEvent returns it;
  this only adds interleavings.
- WatcherRuns.EveryCallReturns: bounds the steps after the last new call; it does not say that a mutex is fair to a
  goroutine while others keep starting calls.
- MachineSetReady.ReadyTogether, NodeDraining.DrainedAtReturn and MachineWaits.MissingTogether rest on assumptions
  about what happens between a wait's reads and its return, each a named predicate on the trace.
- Equality-based selector requirements only; match expressions are not used by the modelled code.
- binary32 subnormals and overflow: a memory capacity is a positive 64-bit integer, far from both.
- The arithmetic of maxNodesTotal itself and its int32 conversion: the capacity results hold for any cap.
- Whether a health check's creation fails, its conditions and its unhealthy limit: none bears on what it selects.
- The random and time-based parts of names beyond their length, and the server's truncation of very long generated
  names.
- DeleteObjectsByLabels: it stores the address of its range variable, so it is not claimed to delete every listed
  object.
- GetMachinesFromMachineSet, GetNodesFromMachineSet and other getters and static object builders: no property beyond
  their fields.
- The container-readiness wait of the termination pod, the operator availability tests, provider-spec JSON rewriting
  and the shell scripts.
