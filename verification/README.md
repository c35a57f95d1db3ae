# EonTest: verified model of the runtime's control logic

EonTest is a test-bench runtime. This project models the parts of it that decide things (which resource opens
first, who holds a lease, which step runs next, which task is dispatched, what a formula or a frame means) and
proves what they promise. The models follow the C++ sources branch by branch; code that works in place is a
Dafny method or class, proved against a specification, and the promises are lemmas about the specification or
clauses of the methods.

| file | what it models |
|---|---|
| `Graphs.dfy` | dependency graphs, walks, reachability and cycles, shared by the next three |
| `Tarjan.dfy` | `strongConnect` and the component search |
| `DependencyAnalyzer.dfy` | `ResourceDependencyAnalyzer`: collection, transitive closure, Kahn's sort, `analyze` |
| `Preallocation.dfy` | `preallocateResources`: levels and layered opening |
| `Leases.dfy` | the resource manager's critical sections as a transition system, and its invariant |
| `ResourceManager.dfy` | the resource manager and `Lease` as objects that perform those sections, interleaved with other threads |
| `Deadlock.dfy` | `detectDeadlock` over the owner and wait maps |
| `GenuineDeadlocks.dfy` | who really waits for whom, when a deadlock on record is a real one and a real one on record, what ends a real one |
| `StaleWaits.dfy`, `DeadlockExamples.dfy` | runs into a false report, into missed deadlocks, and into one that outlasts preemption |
| `Workflow.dfy`, `WorkflowLaws.dfy`, `WorkflowEngine.dfy` | runs of the workflow interpreter, their laws, and the interpreter |
| `WorkflowExamples.dfy` | one whole run with everything it publishes |
| `TaskRuns.dfy` | runs of the orchestrator's task list as a transition system, and their laws |
| `Scheduler.dfy` | the orchestrator's task scheduler, whose every execution is such a run |
| `Formula.dfy`, `FormulaParser.dfy` | formulas, their texts and values, and the recursive-descent parser |
| `ModbusCrc.dfy`, `ModbusCoils.dfy` | the Modbus CRC-16 and coil packing |
| `Common.dfy` | a few notions shared by the models |
| `Doip.dfy` | DoIP headers, the TCP reassembler and the wait for a diagnostic answer |

`dfyconfig.toml` covers every file: `dafny verify dfyconfig.toml` checks the project.

## How the world is modelled

Plugins, users, analyzers, reporters, worker processes, opens and timeouts answer arbitrarily (nondeterministic
values), so every theorem holds whatever they do. Threads of the resource manager are an arbitrary interleaving of
critical sections; a parallel batch is its members' `runStep` calls in an arbitrary order. What the world answered is
recorded or an input, so that each method's contract says what it makes of which answer. The resource lookup of
the analyzer is a finite map from ids to dependency lists in which some entries are empty pointers.

## What the proofs show about the code

Where a promise does not hold of the code, the code is modelled as it is and the exact condition is proved.

- `ResourceDependencyAnalyzer::hasCircularDependency` is documented as the cycle test to call after `analyze`. It
  never becomes true (input: `UnflaggedCycle`): the self-reference test runs on the closed graph, fires on every cycle
  and returns first. Cycles are visible in the error text only, and there exactly (`Analyze`, `NoMutualPair`).
- Preallocation compares the number of opened resources with the number requested. For distinct requests the two
  agree exactly when there are as many unrequested registered dependencies as requested ids the lookup does not know; when
  it knows them all, exactly when every registered dependency of a request was requested too (`CountsAgreeIff`; input:
  `UnrequestedDependency`). With the lookup that ships, which finds nothing, they agree only for an empty request
  (`EmptyLookupFails`).
- `detectDeadlock` follows the exclusive owners only, over at most 33 threads. A real deadlock is a cycle of threads each
  of which holds a grant, of either mode, that keeps the one before it waiting. Unless a waiting thread is preempted such
  a cycle is on record exactly when it has 2 to 33 threads and everything waited for on it has an exclusive owner
  (`MissedIff`, `Manager.DetectAndPreempt`). Deadlocks through shared grants are never reported (input:
  `SharedDeadlockUnseen`), nor is a thread that waits for itself or a ring of 34 (inputs: `RingSeenIff`, any size).
- `acquire` opens a resource it finds closed, but does not wait for an open of another thread: after its opening part the
  resource is open exactly when it is registered and was not being opened when the acquire began (`OpenAfterIff`), and a
  lease can be granted of a resource whose open then fails (input: `GrantedUnopened`).
- A shared grant does not erase the thread's wait record, and then a deadlock can be reported that is none (input:
  `FalseDeadlock`). On every run, a thread on a recorded cycle is really deadlocked exactly when every thread of that
  cycle really waits (`GenuineIff`). On runs without a shared grant to a recorded waiter and without a preemption of one
  the reports are exactly the real deadlocks of the kind above (`RecordsAreReal`).
- Forced preemption erases wait records and wakes nobody: no recorded cycle is left, but every real one is
  (`PreemptionFreesNobody`; input: `PreemptedRing`). A real cycle ends exactly when one of its threads gives up or the
  last grant by which one of them keeps the one before waiting is released (`CycleEndsIff`).
- With stop-on-failure the main loop can get stuck with a pending task that is never dispatched (input: `StuckRun`). A
  run gets stuck exactly when a worker fails with attempts left after the halt (`StuckIff`); at a halt that can still
  happen exactly when a task that is running then has attempts left (`StuckAfterHaltIff`). Every other run makes finitely
  many steps and finishes every task (`RunEnds`, `NeverHalted`).
- A hard failure that meets the step's break condition ends the workflow as finished and compensates nothing, although
  the repository's `README.md:150` describes compensation as invoked on failure (`HardFailureHandled`,
  `BreakFinishesIff`; input: `BreakConditionFinishes`).
- When an analyzer or a reporter refuses, the leases have already been released: the compensations run after that, and
  leases are released and plugins notified a second time (`OneEnd`; input: `RefusedAfterRelease`).
- A skip chosen by a user is the one transition whose target is not checked before it is taken: the loop meets a missing
  step exactly after such a skip to a target that does not exist (`MissingIffUserSkip`; input: `SkipToMissing`).
- Reading coils over TCP refuses every correct answer for fewer than 17 coils, because the length test asks for twelve
  bytes (`WriteThenRead`), and reads past the end of a response that announces more bytes than it holds (`ReadCoils`;
  input: `AnnouncesTooMuch`).

## Model

| member | source | states |
|---|---|---|
| `Tarjan.StrongConnect` | Runtime/src/ResourceDependencyAnalyzer.cpp:94-143 | from any consistent search state, the recursion visits the node, keeps the search invariant (stack order, lowlinks, popped components are whole classes) and leaves its lowlink covering everything it reached on the stack |
| `Tarjan.PopComponent` | Runtime/src/ResourceDependencyAnalyzer.cpp:127-142 | when lowlink equals index, popping down to the node takes exactly its class of mutually reachable nodes and records it when it has two or more nodes |
| `Tarjan.OneClass` | Runtime/src/ResourceDependencyAnalyzer.cpp:127-142 | the nodes above a root on the stack are exactly those mutually reachable with each of them |
| `Tarjan.NoEscape` | Runtime/src/ResourceDependencyAnalyzer.cpp:108-124 | nothing reachable from the nodes above a root is still on the stack below it |
| `Tarjan.AssignedStays` | Runtime/src/ResourceDependencyAnalyzer.cpp:117-123 | a node already assigned to a component reaches no node on the stack |
| `Tarjan.FindComponents` | Runtime/src/ResourceDependencyAnalyzer.cpp:145-177 | for every finite graph the recorded components are exactly the classes of two or more mutually reachable nodes, disjoint and none missed; none is recorded iff no two distinct nodes reach each other |
| `DependencyAnalyzer.BuildTree` | Runtime/src/ResourceDependencyAnalyzer.cpp:13-47 | the depth-first collection terminates on every graph, visits exactly what the id reaches and appends nodes in post-order, once each, with their declared dependency lists |
| `DependencyAnalyzer.CollectAll` | Runtime/src/ResourceDependencyAnalyzer.cpp:188-195 | the collected nodes are exactly the registered resources reachable from the requested ids |
| `DependencyAnalyzer.CollectedIffReached` | Runtime/src/ResourceDependencyAnalyzer.cpp:13-47 | a finished collection holds a resource iff it is registered and reachable from a root |
| `DependencyAnalyzer.NamesMeaning` | Runtime/src/ResourceDependencyAnalyzer.cpp:31-43 | the declared dependencies are the non-null entries, in order and as often as they occur |
| `DependencyAnalyzer.EdgeMeaning` | Runtime/src/ResourceDependencyAnalyzer.cpp:31-43 | the graph has an edge iff a registered resource lists the other |
| `DependencyAnalyzer.TransitiveDeps` | Runtime/src/ResourceDependencyAnalyzer.cpp:58-80 | one pass over a node finds exactly the dependencies of its dependencies that are missing from it |
| `DependencyAnalyzer.ExpandTree` | Runtime/src/ResourceDependencyAnalyzer.cpp:53-89 | the fixpoint loop terminates on every graph, cyclic ones included, and every list then holds exactly the ids reachable by one or more edges |
| `DependencyAnalyzer.ClosedIsReach` | Runtime/src/ResourceDependencyAnalyzer.cpp:53-89 | a saturated expansion is exactly reachability by one or more original edges |
| `DependencyAnalyzer.CycleIffSelf` | Runtime/src/ResourceDependencyAnalyzer.cpp:198-210 | on the closed graph a node lists itself iff some collected resource lies on a dependency cycle |
| `DependencyAnalyzer.FindSelfReference` | Runtime/src/ResourceDependencyAnalyzer.cpp:201-210 | reports the first node that lists itself, and none exactly when there is none |
| `DependencyAnalyzer.NoMutualPair` | Runtime/src/ResourceDependencyAnalyzer.cpp:212-216 | past the self-reference test the component search has nothing to report |
| `DependencyAnalyzer.KahnSort` | Runtime/src/ResourceDependencyAnalyzer.cpp:219-282 | the sorted ids are distinct and each comes after everything its node lists; a node is sorted iff its list has no repetition and only sorted entries |
| `DependencyAnalyzer.KahnExit` | Runtime/src/ResourceDependencyAnalyzer.cpp:284-288 | Kahn's loop sorts all nodes iff no dependency list has a repeated or unregistered entry; otherwise the fallback is taken |
| `DependencyAnalyzer.DepthFirstOrdered` | Runtime/src/ResourceDependencyAnalyzer.cpp:286-288 | without cycles the fallback, depth-first post-order, puts every registered dependency before its dependents |
| `DependencyAnalyzer.Permuted` | Runtime/src/ResourceDependencyAnalyzer.cpp:290-302 | the nodes in Kahn's order are the collected nodes, once each, dependencies first |
| `DependencyAnalyzer.ResourceDependencyAnalyzer.TarjanScc` | Runtime/src/ResourceDependencyAnalyzer.cpp:145-177 | sets the cycle flag, and describes exactly the components, iff two distinct nodes depend on each other |
| `DependencyAnalyzer.CycleTextMeaning` | Runtime/src/ResourceDependencyAnalyzer.cpp:162-176 | how the description joins the members of a component and the components |
| `DependencyAnalyzer.ResourceDependencyAnalyzer.Analyze` | Runtime/src/ResourceDependencyAnalyzer.cpp:182-303 | with an error output an error is written iff a collected resource lies on a cycle; the result is the collected resources, once each, with complete dependency lists, and without cycles dependencies come first on both exits; the cycle flag stays clear |
| `DependencyAnalyzer.SortNodes` | Runtime/src/ResourceDependencyAnalyzer.cpp:253-302 | both exits of the sorting return the same nodes, dependencies first; the given order when some list has a repeated or unregistered entry |
| `DependencyAnalyzer.UnflaggedCycle` | Runtime/src/ResourceDependencyAnalyzer.cpp:198-210 | two resources that depend on each other: the error is written and names a cycle, the cycle flag and its description stay clear |
| `Preallocation.ComputeLevels` | Runtime/src/WorkflowEngine.cpp:187-203 | every node's level is one above the highest level among its dependencies placed before it |
| `Preallocation.LevelIsLongestChain` | Runtime/src/WorkflowEngine.cpp:187-203 | on the analyzer's order the level is the length of the longest registered dependency chain below the node, and every dependency is strictly lower |
| `Preallocation.OpenLayers` | Runtime/src/WorkflowEngine.cpp:205-249 | a group is handed out only when everything of a lower level was handed out before and opened; all are opened iff all can be |
| `Preallocation.PreallocateResources` | Runtime/src/WorkflowEngine.cpp:155-256 | without cycles no resource is handed out before all its registered dependencies were opened; success iff nothing was requested, or everything needed opens and the needed and requested counts agree |
| `Preallocation.CountsAgreeIff` | Runtime/src/WorkflowEngine.cpp:250-256 | for distinct requests the numbers of needed and requested resources agree iff there are as many unrequested registered dependencies as requested ids the lookup does not know; when it knows all of them, iff every registered dependency of a request was requested |
| `Preallocation.UnrequestedDependency` | Runtime/src/WorkflowEngine.cpp:250-256 | a request whose only dependency was not requested fails, though everything it needs can be opened |
| `Preallocation.EmptyLookupFails` | Runtime/src/WorkflowEngine.cpp:164-172 | with the lookup that ships the counts agree only for an empty request |
| `Leases.NextInv` | Runtime/src/ResourceManager.cpp:145-348 | every critical section of register, unregister, acquire, release, expiry and preemption keeps the invariant: counters and owner map describe the grants not yet fully released |
| `Leases.RunInv` | Runtime/src/ResourceManager.cpp:145-479 | in every interleaving of the critical sections the invariant holds |
| `Leases.InitialInv` | SDK/include/eon/sdk/ResourceManager.h:192-230 | the empty manager satisfies the invariant |
| `Leases.MutualExclusion` | Runtime/src/ResourceManager.cpp:265-286 | an exclusive grant is the only grant of its resource |
| `Leases.InferredModeIsGranted` | Runtime/src/ResourceManager.cpp:449-467 | the mode that release infers from the entry is the granted one, for every grant not yet fully released |
| `Leases.GrantMeaning` | Runtime/src/ResourceManager.cpp:265-286 | what a grant writes: an exclusive one the flag and the owner and no wait record, a shared one the count |
| `Leases.GrantableIff` | Runtime/src/ResourceManager.cpp:266-286 | the grant test succeeds iff no grant of the resource is in the way: there is none, or the test and all of them are shared |
| `Leases.SharedTogether` | Runtime/src/ResourceManager.cpp:277-282 | a shared grant is added to any number of shared grants of the same resource |
| `Leases.LeaseIsLive` | Runtime/src/ResourceManager.cpp:439-447 | a lease in the table belongs to a registered resource that accounts for it |
| `Leases.RetiredNext` | Runtime/src/ResourceManager.cpp:432-447 | a lease that left the table never comes back, and taking it again changes nothing |
| `Leases.StaleHandleHarmless` | Runtime/src/ResourceManager.cpp:110-121 | whatever happens after a lease was reclaimed, releasing its stale handle changes nothing, so no later lease is released by it |
| `Leases.WaitsStayExact` | Runtime/src/ResourceManager.cpp:265-316 | a section keeps the wait map equal to the threads that wait, iff it is neither a shared grant to a recorded waiter nor a preemption of one |
| `ResourceManager.Manager.constructor` | SDK/include/eon/sdk/ResourceManager.h:192-230 | a new manager is in the initial state |
| `ResourceManager.Manager.RegisterResource` | Runtime/src/ResourceManager.cpp:145-160 | performs the register section; refused iff the resource is null or the id registered; a new entry is closed and free |
| `ResourceManager.Manager.UnregisterResource` | Runtime/src/ResourceManager.cpp:199-218 | succeeds iff the resource is registered and nobody holds a grant of it |
| `ResourceManager.NobodyHolds` | Runtime/src/ResourceManager.cpp:205-209 | the counters that guard unregistering are clear exactly when no grant of the resource exists |
| `ResourceManager.Manager.SetOpening` | Runtime/src/ResourceManager.cpp:236-239 | begins an open iff the resource is registered and closed, and then marks it as opening |
| `ResourceManager.Manager.SetOpened` | Runtime/src/ResourceManager.cpp:243-257 | ends an open: open after success, closed after failure, holders untouched |
| `ResourceManager.Manager.CloseResource` | Runtime/src/ResourceManager.cpp:534-549 | performs the monitor's forced close |
| `ResourceManager.Manager.TryToGrant` | Runtime/src/ResourceManager.cpp:265-286 | grants iff the resource is registered and free for the mode, and records the grant |
| `ResourceManager.Manager.Wait` | Runtime/src/ResourceManager.cpp:306-315 | performs the section that records a waiting thread with its resource; holders and entries untouched |
| `ResourceManager.Manager.StopWaiting` | Runtime/src/ResourceManager.cpp:288-304 | leaves no wait record of the thread |
| `ResourceManager.Manager.Record` | Runtime/src/ResourceManager.cpp:320-338 | turns the thread's grant into a lease of the same resource and mode with the next number, entered in both tables |
| `ResourceManager.ForeignRun` | Runtime/src/ResourceManager.cpp:220-348 | sections of other threads neither take away nor create a thread's own pending grant, nor finish its release |
| `ResourceManager.Manager.Acquire` | Runtime/src/ResourceManager.cpp:220-348 | with other threads interleaved anywhere, its own sections are: begin an open; if the resource was closed, end that open, and stop there if it failed; then the wait loop. A returned lease is in the table and held by the caller with the requested resource and mode; an unregistered id fails without any step; no grant is left behind |
| `ResourceManager.Manager.EnsureOpen` | Runtime/src/ResourceManager.cpp:236-261 | a resource found closed is opened by the thread itself; a failing open is its last section |
| `ResourceManager.Manager.AwaitGrant` | Runtime/src/ResourceManager.cpp:263-338 | the wait loop: grant tests that find the resource taken, the wait recorded once after the first, at most one test more than there are wake-ups; then the test that grants, and the lease, or after the last one the thread gives up |
| `ResourceManager.OpenedFirst` | Runtime/src/ResourceManager.cpp:237-286 | a lease of a resource that its acquire found closed was granted after that acquire had opened it |
| `ResourceManager.FailedOpenEnds` | Runtime/src/ResourceManager.cpp:243-248 | after an own open that failed there is no grant test of the thread and the acquire fails |
| `ResourceManager.OpenAfterIff` | Runtime/src/ResourceManager.cpp:236-261 | after the opening part the resource is open iff it is registered and was not being opened by another thread when the acquire began |
| `ResourceManager.GrantedUnopened` | Runtime/src/ResourceManager.cpp:236-286 | an acquire that is granted a resource while another thread opens it; the open fails and the lease stays |
| `ResourceManager.Manager.Take` | Runtime/src/ResourceManager.cpp:432-447 | takes the lease out of both tables, found iff it was in the lease table, and touches no entry |
| `ResourceManager.Manager.Finish` | Runtime/src/ResourceManager.cpp:449-478 | updates the entry with the inferred mode, which is the granted one: the owner goes or the count falls by one; removes exactly this grant |
| `ResourceManager.Manager.ReleaseLease` | Runtime/src/ResourceManager.cpp:432-479 | its own sections are taking the lease from the table and, if it was there, finishing its release, with sections of other threads between them; afterwards the lease is retired; an unknown number changes neither holders nor entries |
| `ResourceManager.RetiredLater` | Runtime/src/ResourceManager.cpp:432-447 | a retired lease stays retired however the history goes on |
| `ResourceManager.NumbersGrow` | Runtime/src/ResourceManager.cpp:321-321 | the lease counter never decreases |
| `ResourceManager.NumbersFresh` | Runtime/src/ResourceManager.cpp:320-326 | a lease number handed out is larger than every one handed out before, so none is handed out twice |
| `ResourceManager.Manager.Reclaim` | Runtime/src/ResourceManager.cpp:520-555 | after the monitor's pass none of the expired leases is in the table, and each one's resource was closed unless another thread had released the lease before its turn |
| `ResourceManager.Manager.ReclaimOne` | Runtime/src/ResourceManager.cpp:521-555 | reclaiming a lease retires it, whoever released it meanwhile, and ends with closing the resource its heartbeat named |
| `ResourceManager.LeaseHandle.Release` | Runtime/src/ResourceManager.cpp:110-121 | releases iff the handle is valid and its lease still in the table; otherwise neither holders nor entries change; the handle is invalid afterwards |
| `ResourceManager.Manager.DetectAndPreempt` | Runtime/src/ResourceManager.cpp:573-627 | the detector run on the manager's own maps: reports deadlocks on record, all of them without preemption; forced preemption erases one record of each and leaves none on record; every real cycle stays as it was; without preemption and unless a waiting thread was preempted before, the threads of a real cycle are reported iff it has 2 to 33 threads and only exclusively held resources, and on runs that never spoil the wait map the reports are exactly the threads of such cycles |
| `GenuineDeadlocks.CoverNext` | Runtime/src/ResourceManager.cpp:272-312 | a section keeps every waiting thread on record, iff it is not a preemption of one |
| `GenuineDeadlocks.CoverRun` | Runtime/src/ResourceManager.cpp:265-316 | on every run that preempts no waiting thread, every waiting thread has its wait record |
| `GenuineDeadlocks.UnpreemptedRun` | Runtime/src/ResourceManager.cpp:613-618 | runs without preemption are such runs |
| `GenuineDeadlocks.OwnerInTheWay` | Runtime/src/ResourceManager.cpp:582-587 | a thread that waits for an exclusively held resource really waits for the recorded owner and for nobody else |
| `GenuineDeadlocks.StartsIff` | Runtime/src/ResourceManager.cpp:263-312 | a thread starts to wait iff some grant is in the way of what it wants, and then it waits for that grant's thread |
| `GenuineDeadlocks.MissedIff` | Runtime/src/ResourceManager.cpp:573-627 | on such a run every thread of a real cycle (distinct threads each kept waiting by a grant, of either mode, of the next) is on a recorded cycle of 2 to 33 threads iff the real cycle has 2 to 33 threads and everything waited for on it has an exclusive owner |
| `GenuineDeadlocks.GenuineIff` | Runtime/src/ResourceManager.cpp:581-625 | on every run a thread on a recorded cycle is really deadlocked iff every thread of that cycle really waits |
| `GenuineDeadlocks.ExactRun` | Runtime/src/ResourceManager.cpp:265-316 | on every run without a shared grant to a recorded waiter and without a preemption of one, the wait map is exactly the threads that wait |
| `GenuineDeadlocks.RecordsAreReal` | Runtime/src/ResourceManager.cpp:573-627 | on such a run the deadlocks on record are exactly the real ones of 2 to 33 threads through exclusively held resources |
| `GenuineDeadlocks.CycleEndsIff` | Runtime/src/ResourceManager.cpp:432-479 | a real cycle ends with a section iff one of its threads gives up, or the last grant is released by which a thread of it keeps the one before waiting |
| `GenuineDeadlocks.DeadlockEndsIff` | Runtime/src/ResourceManager.cpp:432-479 | a really deadlocked thread stays deadlocked over a section iff one of its cycles does not break |
| `GenuineDeadlocks.DeadlockLasts` | Runtime/src/ResourceManager.cpp:265-316 | on every run on which none of its waits is freed so, a real cycle lasts |
| `GenuineDeadlocks.PreemptionFreesNobody` | Runtime/src/ResourceManager.cpp:613-618 | erasing wait records neither makes nor ends a real cycle |
| `Deadlock.Scan` | Runtime/src/ResourceManager.cpp:581-625 | the walk from a waiter finds a cycle iff the waiter lies on a wait-for cycle of 2 to 33 threads, and names the thread before it |
| `Deadlock.DetectDeadlock` | Runtime/src/ResourceManager.cpp:573-627 | without forced preemption exactly the threads on wait-for cycles of 2 to 33 threads are reported and nothing changes; with it no such cycle is left, each lost exactly one wait record and no other record is lost |
| `Deadlock.CycleBroken` | Runtime/src/ResourceManager.cpp:613-619 | deleting the wait record of the last thread of a waiter's cycle takes the waiter off every cycle |
| `Deadlock.CyclesCut` | Runtime/src/ResourceManager.cpp:613-619 | when no cycle is left every original cycle has lost a record, and no two lost records belong to one cycle |
| `StaleWaits.FalseDeadlock` | Runtime/src/ResourceManager.cpp:279-285 | a run after which threads 1 and 2 are deadlocked on record though only thread 1 waits and nobody is really deadlocked |
| `DeadlockExamples.RingSeenIff` | Runtime/src/ResourceManager.cpp:581-625 | for every n a run without preemption and without a spoilt record leads n threads into a real cycle; they are on record iff n is 2 to 33, in these numbers |
| `DeadlockExamples.SharedDeadlockUnseen` | Runtime/src/ResourceManager.cpp:576-588 | a run without preemption and without a spoilt record leads two threads into a deadlock through shared grants, and no thread is on record |
| `DeadlockExamples.PreemptedRing` | Runtime/src/ResourceManager.cpp:613-618 | reachable deadlocks of 2 to 33 threads that are still real after one record was erased, with none left on record |
| `Workflow.UniqueStep` | Runtime/src/WorkflowEngine.cpp:371-387 | in an accepted definition a step id names one step |
| `WorkflowEngine.Engine.Validate` | Runtime/src/WorkflowEngine.cpp:364-400 | accepts exactly the definitions with steps, non-empty distinct ids and an existing entry, and indexes their steps |
| `WorkflowEngine.Engine.RunStep` | Runtime/src/WorkflowEngine.cpp:562-794 | skipped iff the condition does not match; otherwise publishes started and retry for each failed attempt, then finished, failed or nothing by outcome; all maxRetries + 1 attempts fail unless one succeeds; an attempt succeeds iff the plugin did and was in time; the step joins the executed ones iff it succeeded or its failure is tolerated |
| `WorkflowEngine.Engine.RunBatch` | Runtime/src/WorkflowEngine.cpp:893-914 | every member of the group runs once, in any order; the batch hard-fails iff a member does |
| `WorkflowEngine.Engine.OfferBreak` | Runtime/src/WorkflowEngine.cpp:966-1021 | the user's answer decides; a pause publishes paused and ends in a published resume, a skip or an abort as the user says |
| `WorkflowEngine.Engine.Apply` | Runtime/src/WorkflowEngine.cpp:1092-1106 | a transition target that does not exist fails, an empty one ends the loop |
| `WorkflowEngine.Engine.StartBatch` | Runtime/src/WorkflowEngine.cpp:839-920 | the batch visit publishes its start, the user's decision, its members' runs and its end |
| `WorkflowEngine.Engine.VisitGroup` | Runtime/src/WorkflowEngine.cpp:829-964 | a step of a group is an allowed visit (a batch only for a new group) and the loop goes where the step graph says |
| `WorkflowEngine.Engine.StartStep` | Runtime/src/WorkflowEngine.cpp:966-1046 | the visit of a single step publishes the user's decision, its run and the break condition it met |
| `WorkflowEngine.Engine.VisitStep` | Runtime/src/WorkflowEngine.cpp:966-1107 | a single step is an allowed visit and the loop goes where the step graph says: break condition, failure target, skip target or success target |
| `WorkflowEngine.Engine.Iterate` | Runtime/src/WorkflowEngine.cpp:800-1107 | a turn of the loop extends the path by one possible visit, or fails because the path may not go on: after 1024 transitions, at a missing step, after 100 visits, or at a failing route |
| `WorkflowEngine.Engine.Rollback` | Runtime/src/WorkflowEngine.cpp:479-529 | one compensation attempt: failed at once when its step or plugin is missing, else started and then finished or failed as the plugin did |
| `WorkflowEngine.Engine.RunCompensation` | Runtime/src/WorkflowEngine.cpp:467-532 | the attempts are exactly the plan for the executed steps |
| `WorkflowEngine.Engine.FailWorkflow` | Runtime/src/WorkflowEngine.cpp:534-553 | a failing exit publishes failed, compensates, releases the leases, then notifies the plugins |
| `WorkflowEngine.Engine.RunAnalyzers` | Runtime/src/WorkflowEngine.cpp:1122-1195 | analyzers run in order up to the first that refuses, each asked once |
| `WorkflowEngine.Engine.RunReporters` | Runtime/src/WorkflowEngine.cpp:1199-1225 | reporters run in order up to the first that refuses, each asked once |
| `WorkflowEngine.Engine.Conclude` | Runtime/src/WorkflowEngine.cpp:1109-1231 | after the loop: clean-up, verdict, analyzers, reporters, and finished iff none refused, else the failing exit |
| `WorkflowEngine.Engine.Execute` | Runtime/src/WorkflowEngine.cpp:354-1231 | terminates for every step graph; a refused definition publishes nothing; a failed preallocation publishes started and failed; every other execution is a run, its bus events are the run's trace, and it returns true iff the run completed |
| `WorkflowEngine.PlanStep` | Runtime/src/WorkflowEngine.cpp:469-476 | what is still due when the newest remaining executed step is looked at |
| `WorkflowLaws.TransitionBound` | Runtime/src/WorkflowEngine.cpp:799-827 | a path has at most 1024 transitions and at most 100 visits of a step |
| `WorkflowLaws.RefusedIff` | Runtime/src/WorkflowEngine.cpp:799-827 | the loop gives up iff there were 1024 transitions, there is no such step, or it was visited 100 times |
| `WorkflowLaws.FirstVisit` | Runtime/src/WorkflowEngine.cpp:389-400 | the first visit is to the entry step, or to the first step when none is named |
| `WorkflowLaws.AcceptedIff` | Runtime/src/WorkflowEngine.cpp:364-400 | a definition is accepted iff it has steps, as many different ids as steps, no empty id, and its entry among them |
| `WorkflowLaws.OneBatch` | Runtime/src/WorkflowEngine.cpp:829-831 | a parallel group gets at most one batch |
| `WorkflowLaws.ExecutionBound` | Runtime/src/WorkflowEngine.cpp:599-617 | in a whole run a step outside groups starts at most 100 times maxRetries + 1 attempts, a member of a group at most maxRetries + 1 |
| `WorkflowLaws.LogStarts` | Runtime/src/WorkflowEngine.cpp:599-617 | attempts are bounded by maxRetries + 1 times the visits, or times the batches for a group member |
| `WorkflowLaws.AttemptsMeaning` | Runtime/src/WorkflowEngine.cpp:590-794 | one call executes a step maxRetries + 1 times when every attempt fails, between once and that often when one succeeds, and never when it is skipped or its plugin is not loaded |
| `WorkflowLaws.RunEvents` | Runtime/src/WorkflowEngine.cpp:617-794 | one call publishes started and retry for each failed attempt, numbered from one, then finished, failed or nothing |
| `WorkflowLaws.DecisionEvents` | Runtime/src/WorkflowEngine.cpp:839-1021 | what skips and aborts of the user publish, with and without a pause |
| `WorkflowLaws.BreakEvent` | Runtime/src/WorkflowEngine.cpp:1023-1046 | a met break condition is announced iff the step breaks on an error and hard-failed, or breaks on a failure and failed at all |
| `WorkflowLaws.RunAccountsFor` | Runtime/src/WorkflowEngine.cpp:615-793 | in every trace started = finished + retry, and the executed steps are exactly the finished and tolerated ones, in order, so their number is finished + failed |
| `WorkflowLaws.OneEnd` | Runtime/src/WorkflowEngine.cpp:447-461 | started is published once and first, then exactly one of finished (iff the run completes) or failed; leases are released and plugins notified once, but twice when an analyzer or reporter refuses |
| `WorkflowLaws.RefusedAfterRelease` | Runtime/src/WorkflowEngine.cpp:1109-1195 | a run an analyzer refuses, with its whole trace: leases are released before the compensation and again after it |
| `WorkflowLaws.PlanMeaning` | Runtime/src/WorkflowEngine.cpp:467-532 | the plan holds exactly, for each non-empty compensation id of an executed step, the step that used it last, newest first |
| `WorkflowLaws.PlanCovers` | Runtime/src/WorkflowEngine.cpp:467-532 | a compensation is planned iff an executed step names it, and never twice |
| `WorkflowLaws.CompensationMeaning` | Runtime/src/WorkflowEngine.cpp:469-476 | the compensation of an executed step is the one the step names |
| `WorkflowLaws.RollbackEvents` | Runtime/src/WorkflowEngine.cpp:479-529 | a compensation is started, and then finished or failed, iff it names a step whose plugin is loaded, and fails at once otherwise |
| `WorkflowLaws.CompensatedOnce` | Runtime/src/WorkflowEngine.cpp:466-553 | on a failing run each compensation of a step the trace marks as carried out is attempted exactly once and no other; a step that only hard-failed or was skipped is not compensated; a completed run compensates nothing |
| `WorkflowLaws.HardFailureHandled` | Runtime/src/WorkflowEngine.cpp:1023-1070 | when the loop ends normally every hard failure either met its break condition and was the last visit, or was followed by its failure target |
| `WorkflowLaws.BreakFinishesIff` | Runtime/src/WorkflowEngine.cpp:1023-1070 | a run whose last visit hard-failed gets past the loop iff that visit met its break condition |
| `WorkflowLaws.SingleRoutes` | Runtime/src/WorkflowEngine.cpp:1023-1107 | where the loop goes after a single step, by its outcome, its break conditions and its named targets |
| `WorkflowLaws.OtherRoutes` | Runtime/src/WorkflowEngine.cpp:845-1001 | where the loop goes after a group and after what the user decides |
| `WorkflowExamples.SampleRun` | Runtime/src/WorkflowEngine.cpp:354-1231 | a run with a retried step, a group with a tolerated failure, a skipped step, a pause, an analyzer and a reporter, with its whole trace and executed list |
| `WorkflowLaws.BreakConditionFinishes` | Runtime/src/WorkflowEngine.cpp:1038-1046 | a run that hard-fails, compensates nothing and is published as finished |
| `WorkflowLaws.MissingIffUserSkip` | Runtime/src/WorkflowEngine.cpp:810-818 | the loop meets a missing step iff the last visit was a user's skip whose target is not empty and does not exist |
| `WorkflowLaws.SkipToMissing` | Runtime/src/WorkflowEngine.cpp:982-985 | a path on which that happens, though the same target is checked after a skip by condition |
| `Scheduler.Scheduler.Start` | Orchestrator/src/main.cpp:798-801 | fresh tasks give consistent books |
| `Scheduler.Scheduler.Resume` | Orchestrator/src/main.cpp:696-710 | any saved task list, with tasks added, gives consistent books; a task is kept when it succeeded or failed with its attempts used up, and pending otherwise |
| `Scheduler.LoadTasks` | Orchestrator/src/main.cpp:696-710 | a saved task is kept when it succeeded or failed with its attempts used up, and made pending otherwise; the counters are the numbers of succeeded and failed tasks |
| `Scheduler.Dispatched` | Orchestrator/src/main.cpp:922-932 | dispatching a runnable task keeps running tasks' locks disjoint and heldLocks their union |
| `Scheduler.Finished` | Orchestrator/src/main.cpp:1066-1070 | removing a finished task's locks and slot frees no lock of another running task |
| `Scheduler.BooksSpawned` | Orchestrator/src/main.cpp:866-932 | a started worker keeps the books and costs one attempt |
| `Scheduler.BooksNotStarted` | Orchestrator/src/main.cpp:872-903 | a worker that does not start keeps the books, with a retry or a counted failure |
| `Scheduler.BooksFinished` | Orchestrator/src/main.cpp:1018-1070 | an exited worker keeps the books, with success, retry or a counted failure |
| `Scheduler.BooksSkipped` | Orchestrator/src/main.cpp:814-832 | halting counts each pending task as failed once |
| `Scheduler.Scheduler.HaltPendingTasksAfterFailure` | Orchestrator/src/main.cpp:802-833 | only the first failure under stop-on-failure halts, and it fails exactly the pending tasks |
| `Scheduler.Scheduler.SelectRunnableTaskIndex` | Orchestrator/src/main.cpp:225-252 | returns some runnable task, or none when none is runnable |
| `Scheduler.Scheduler.Dispatch` | Orchestrator/src/main.cpp:846-932 | keeps the books (disjoint locks, held locks, slots, counters, attempts); a started worker costs an attempt and holds exactly its task's locks in addition; a failed start leaves the task pending with its back-off while it has attempts left, failed otherwise |
| `Scheduler.Scheduler.StartRunnableTasks` | Orchestrator/src/main.cpp:835-959 | terminates with all cells busy or nothing runnable, books kept; its spawns are steps of a run, none once halted; with no worker running it spawns a task that is due |
| `Scheduler.Scheduler.FindTaskIndexById` | Orchestrator/src/main.cpp:787-796 | finds the task with the id, or none when there is none |
| `Scheduler.Scheduler.Complete` | Orchestrator/src/main.cpp:1005-1070 | settles exactly the slot's task by its exit, as a step of a run: succeeded, pending with its back-off while attemptsMade is at most maxRetries, else failed; keeps the books and every final task |
| `Scheduler.Scheduler.CompleteAt` | Orchestrator/src/main.cpp:1005-1070 | the same for a slot, naming the task by its place at the start of the run |
| `Scheduler.Scheduler.CompleteSuccess` | Orchestrator/src/main.cpp:1018-1024 | a normal exit with code zero makes the task succeeded and counts it once |
| `Scheduler.Scheduler.CompleteFailure` | Orchestrator/src/main.cpp:1025-1050 | any other exit makes the task pending again with its back-off while attemptsMade is at most maxRetries, else failed, counted, and halting if configured |
| `Scheduler.Scheduler.CompleteExitedWorkers` | Orchestrator/src/main.cpp:998-1084 | books exactly the workers that exited, each with its own exit, and leaves the other slots in their order; keeps the books and every final task |
| `Scheduler.Scheduler.Round` | Orchestrator/src/main.cpp:972-1089 | a round is a run; it books every worker that exited and ends halted, with all cells busy or with nothing runnable; it makes a step if a worker exits, or if none runs and a pending task is due |
| `Scheduler.Scheduler.Run` | Orchestrator/src/main.cpp:970-1091 | the main loop is a run of at most as many steps as there is work; it exits iff every task is final, and then succeeded and failed sum to all tasks and success holds iff every task succeeded; a task that failed has used up its attempts or was skipped by a halt; where nothing can happen any more it exits iff no worker failed with attempts left after the halt |
| `Scheduler.StuckRun` | Orchestrator/src/main.cpp:1031-1050 | an execution with stop-on-failure that is halted with a pending task |
| `Scheduler.NoneHeld` | Orchestrator/src/main.cpp:183-187 | with no worker running no lock is held, so a pending task that cannot run is not due |
| `TaskRuns.StepFalls` | Orchestrator/src/main.cpp:866-1050 | every dispatch and every exit uses up work: attempts left and running workers |
| `TaskRuns.RunBound` | Orchestrator/src/main.cpp:866-1050 | no run makes more steps than there is work at its start |
| `TaskRuns.SpawnMeaning` | Orchestrator/src/main.cpp:177-190 | a worker is spawned iff its task is pending, due and shares no lock with a running one, a cell is free and nothing has halted |
| `TaskRuns.StartMeaning` | Orchestrator/src/main.cpp:866-872 | a started worker costs its task one attempt |
| `TaskRuns.SuccessMeaning` | Orchestrator/src/main.cpp:1018-1024 | a successful exit makes the task succeeded and touches no other |
| `TaskRuns.FailureMeaning` | Orchestrator/src/main.cpp:1025-1050 | after a failed exit or start a task with attemptsMade at most maxRetries is pending with its attempts and a back-off proportional to them; any other is failed and, with stop-on-failure, the pending ones with it |
| `TaskRuns.FailedForGood` | Orchestrator/src/main.cpp:173-175 | a task that failed in a run has made maxRetries + 1 attempts, unless a halt skipped it while it was pending |
| `TaskRuns.FailedTasks` | Orchestrator/src/main.cpp:802-833 | the same for all tasks of a run: only stop-on-failure skips |
| `TaskRuns.BackoffKept` | Orchestrator/src/main.cpp:177-182 | a retried task is not spawned again before its back-off has passed |
| `TaskRuns.StuckIff` | Orchestrator/src/main.cpp:1031-1050 | a run ends stuck (halted with a pending task) iff it started stuck or a worker failed with attempts left after the halt |
| `TaskRuns.QuietIff` | Orchestrator/src/main.cpp:835-844 | with a cell, a run can go on until no worker runs and, unless halted, nothing is pending |
| `TaskRuns.RunEnds` | Orchestrator/src/main.cpp:970-1091 | a run that cannot go on has finished every task iff it did not start stuck and no worker failed with attempts left after the halt |
| `TaskRuns.NeverHalted` | Orchestrator/src/main.cpp:802-806 | without stop-on-failure nothing is halted, and every run that cannot go on has finished every task |
| `TaskRuns.StuckAfterHaltIff` | Orchestrator/src/main.cpp:802-833 | at a halt some continuation gets stuck iff a task that is running then has attempts left |
| `Scheduler.AllFinal` | Orchestrator/src/main.cpp:1091-1096 | when every task is final the two counts sum to all tasks, and no failure means all succeeded |
| `Scheduler.FreshDispatchBound` | Orchestrator/src/main.cpp:866-903 | a fresh run spawns at most the sum of maxRetries + 1 workers, and at most maxRetries + 1 for a task |
| `Scheduler.AttemptsAfterResumes` | Orchestrator/src/main.cpp:172-174 | after R resumes a task has made at most maxRetries + 1 + R attempts, or R + 1 more than it was saved with |
| `Formula.RoundingMeaning` | Infrastructure/src/ResponseDecoder.cpp:160-164 | abs, floor and ceil are the magnitude and the neighbouring whole numbers, round is the nearest one with ties away from zero |
| `Formula.ExtremaMeaning` | Infrastructure/src/ResponseDecoder.cpp:172-172 | min and max are the smaller and the larger argument |
| `Formula.RemainderMeaning` | Infrastructure/src/ResponseDecoder.cpp:102-105 | the remainder belongs to the quotient truncated towards zero, is smaller than the divisor and has the dividend's sign |
| `Formula.FormulaRead` | Infrastructure/src/ResponseDecoder.cpp:58-180 | every grammatical formula, with any spaces, redundant parentheses and spelling of names, is read to its end and gives the value of its tree, or that tree's error |
| `Formula.ExpressionRead` | Infrastructure/src/ResponseDecoder.cpp:74-90 | sums are read with the usual precedence and left associativity, up to what follows |
| `Formula.TermRead` | Infrastructure/src/ResponseDecoder.cpp:92-111 | products are read with left associativity, up to what follows |
| `Formula.FactorRead` | Infrastructure/src/ResponseDecoder.cpp:113-180 | numbers, x, signs, parentheses and calls are read whole, leaving exactly what follows |
| `Formula.ProductTyped` | Infrastructure/src/ResponseDecoder.cpp:97-97 | two operands with * between them give their product |
| `Formula.QuotientTyped` | Infrastructure/src/ResponseDecoder.cpp:98-101 | with / their quotient, or the division error iff the second is zero |
| `Formula.RemainderTyped` | Infrastructure/src/ResponseDecoder.cpp:102-105 | with % their remainder, or the modulo error iff the second is zero |
| `Formula.SumTyped` | Infrastructure/src/ResponseDecoder.cpp:79-84 | with + and - their sum and difference |
| `Formula.SignTyped` | Infrastructure/src/ResponseDecoder.cpp:115-116 | a leading - negates and a leading + does not |
| `Formula.GroupTyped` | Infrastructure/src/ResponseDecoder.cpp:117-123 | parentheses keep the value |
| `Formula.AtomTyped` | Infrastructure/src/ResponseDecoder.cpp:124-149 | x and X are the input, a number token its number |
| `Formula.CallTyped` | Infrastructure/src/ResponseDecoder.cpp:153-166 | abs, floor, ceil and round, as typed |
| `Formula.PairTyped` | Infrastructure/src/ResponseDecoder.cpp:167-174 | min and max, as typed |
| `Formula.QuarterOfInput` | Workflows/DecodeProfiles/DoIP_DID_F105.json:16-16 | the formula of a profile gives a quarter of the input |
| `Formula.LexemeIff` | Infrastructure/src/ResponseDecoder.cpp:127-144 | a text that does not end in an exponent letter is scanned whole iff it is digits and points with at most one exponent letter, perhaps signed, among them |
| `Formula.SpellingMeaning` | Infrastructure/src/ResponseDecoder.cpp:153-158 | a name may be spelt in any mixture of cases |
| `Formula.SpaceMeaning` | Infrastructure/src/ResponseDecoder.cpp:187-187 | the code points that are skipped as spaces |
| `Formula.AcceptedTexts` | Infrastructure/src/ResponseDecoder.cpp:58-180 | a text has a value iff it is a grammatical formula of that value: nothing else is accepted |
| `Formula.RenderedRead` | Infrastructure/src/ResponseDecoder.cpp:58-180 | every expression tree, written with only the parentheses it needs, is read back to its own value |
| `Formula.Rendered` | Infrastructure/src/ResponseDecoder.cpp:74-131 | the minimal rendering of a tree is grammatical and stands for that tree |
| `Formula.FailsOnZeroDivisor` | Infrastructure/src/ResponseDecoder.cpp:97-105 | with convertible numbers, reading a formula fails, however it is written, iff a quotient or remainder in it has a zero divisor |
| `FormulaParsing.FormulaParser.Parse` | Infrastructure/src/ResponseDecoder.cpp:63-71 | succeeds with the formula's value having consumed all of it, or keeps the first error message |
| `FormulaParsing.FormulaParser.Expression` | Infrastructure/src/ResponseDecoder.cpp:74-90 | terminates on every text and leaves position, result and error as the reading of a sum does |
| `FormulaParsing.FormulaParser.Term` | Infrastructure/src/ResponseDecoder.cpp:92-111 | the same for a product, including the zero-divisor errors |
| `FormulaParsing.FormulaParser.Factor` | Infrastructure/src/ResponseDecoder.cpp:113-126 | the same for signs and parentheses |
| `FormulaParsing.FormulaParser.Atom` | Infrastructure/src/ResponseDecoder.cpp:127-180 | the same for numbers, x and calls |
| `FormulaParsing.FormulaParser.Scan` | Infrastructure/src/ResponseDecoder.cpp:127-144 | moves over the longest run of digits, points and one signed exponent |
| `FormulaParsing.FormulaParser.Call` | Infrastructure/src/ResponseDecoder.cpp:153-166 | reads the parenthesis and the first argument, and applies a one-argument function |
| `FormulaParsing.FormulaParser.Second` | Infrastructure/src/ResponseDecoder.cpp:167-174 | reads the comma, the second argument and the parenthesis, and applies min or max |
| `FormulaParsing.FormulaParser.Match` | Infrastructure/src/ResponseDecoder.cpp:182-186 | skips spaces and takes the character iff it comes next |
| `FormulaParsing.FormulaParser.SkipSpaces` | Infrastructure/src/ResponseDecoder.cpp:187-187 | moves to the first character that is no space |
| `FormulaParsing.FormulaParser.FailWith` | Infrastructure/src/ResponseDecoder.cpp:188-188 | keeps the first message |
| `ModbusCrc.Crc16Modbus` | Plugins/ModbusMaster/src/Transports.cpp:12-22 | the nested loops compute the CRC as the composition of eight shifts a byte |
| `ModbusCrc.RegisterMeaning` | Plugins/ModbusMaster/src/Transports.cpp:12-22 | the register starts with all bits set, shifts right and feeds back 0xA001 when a set bit leaves |
| `ModbusCrc.StandardExample` | Plugins/ModbusMaster/src/Transports.cpp:12-22 | the worked example of the serial line standard |
| `ModbusCrc.AppendCrc` | Plugins/ModbusMaster/src/Transports.cpp:24-30 | the CRC over an extended frame is zero, and every extended non-empty frame is accepted |
| `ModbusCrc.VerifyCrc` | Plugins/ModbusMaster/src/Transports.cpp:32-38 | accepts a frame iff it has three or more bytes and the CRC over all of it is zero |
| `ModbusCrc.ResidueZero` | Plugins/ModbusMaster/src/Transports.cpp:32-38 | the CRC of a whole frame is zero iff its last two bytes are the CRC of the rest, low byte first |
| `ModbusCrc.ShiftNLinear` | Plugins/ModbusMaster/src/Transports.cpp:16-19 | the shift step is linear over exclusive or |
| `ModbusCrc.ShiftNInjective` | Plugins/ModbusMaster/src/Transports.cpp:16-19 | the shift step is invertible |
| `ModbusCrc.CrcDifference` | Plugins/ModbusMaster/src/Transports.cpp:12-22 | two frames' CRCs differ by the CRC, from zero, of their bytewise difference |
| `ModbusCrc.BurstRejected` | Plugins/ModbusMaster/src/Transports.cpp:32-38 | no burst error of up to 16 bits turns an accepted frame into an accepted one |
| `ModbusCrc.AdjacentBytesRejected` | Plugins/ModbusMaster/src/Transports.cpp:32-38 | every corruption of an accepted frame confined to one byte or two adjacent bytes is rejected |
| `ModbusCoils.PackCoils` | Plugins/ModbusMaster/src/ModbusMasterPlugin.cpp:402-409 | the packing loop emits (count + 7) / 8 bytes that hold the coils, low bit first, with zero padding |
| `ModbusCoils.CoilMeaning` | Plugins/ModbusMaster/src/ModbusMasterPlugin.cpp:402-409 | coil j of a byte is its bit of weight 2 to the j |
| `ModbusCoils.StandardExample` | Plugins/ModbusMaster/src/ModbusMasterPlugin.cpp:402-409 | the worked example of the application protocol: ten coils are packed into CD 01 |
| `ModbusCoils.WriteMultipleCoilsPdu` | Plugins/ModbusMaster/src/ModbusMasterPlugin.cpp:394-410 | function code 0x0F, address and count with the high byte first, byte count and the packed coils, for the first 2000 coils |
| `ModbusCoils.ReadCoils` | Plugins/ModbusMaster/src/ModbusMasterPlugin.cpp:264-286 | no response, too short, exception, reading past the end iff the response holds fewer bytes than it announces, or the coils in its data bytes, at most count of them |
| `ModbusCoils.AnnouncesTooMuch` | Plugins/ModbusMaster/src/ModbusMasterPlugin.cpp:278-281 | a response of twelve bytes that announces sixteen coil bytes is read past its end |
| `ModbusCoils.UnpackByte` | Plugins/ModbusMaster/src/ModbusMasterPlugin.cpp:281-283 | the inner loop appends the byte's coils, low bit first, up to count coils in all |
| `ModbusCoils.PackedUnpack` | Plugins/ModbusMaster/src/ModbusMasterPlugin.cpp:280-284 | unpacking packed coils gives the original list |
| `ModbusCoils.WriteThenRead` | Plugins/ModbusMaster/src/ModbusMasterPlugin.cpp:264-286 | coils written and read back over TCP are the original list when there are 17 or more, and refused as too short when there are fewer |
| `Doip.ParseBuilt` | Infrastructure/src/Protocols/DoipProtocolLayer.cpp:441-452 | parsing a built header gives back every 16-bit type and 32-bit length |
| `Doip.BuildParsed` | Infrastructure/src/Protocols/DoipProtocolLayer.cpp:518-543 | building from the fields of an accepted header gives back its bytes |
| `Doip.HeaderBytes` | Infrastructure/src/Protocols/DoipProtocolLayer.cpp:441-452 | a header is 02 FD, the type and the length, high byte first |
| `Doip.HeaderMeaning` | Infrastructure/src/Protocols/DoipProtocolLayer.cpp:518-543 | eight bytes are a header iff they begin 02 FD; type and length have the high byte first |
| `Doip.FrameMeaning` | Infrastructure/src/Protocols/DoipProtocolLayer.cpp:646-672 | a stream starts with a frame iff it holds the header and the bytes its length announces |
| `Doip.MessageBytes` | Infrastructure/src/Protocols/DoipProtocolLayer.cpp:491-508 | a diagnostic message is 02 FD 80 01, its length, source and target address high byte first, and the service bytes |
| `Doip.FramesOfMessages` | Infrastructure/src/Protocols/DoipProtocolLayer.cpp:646-672 | the frames of a stream of encoded messages are those messages, in order |
| `Doip.DoipProtocolLayer.ReceiveTcpFrame` | Infrastructure/src/Protocols/DoipProtocolLayer.cpp:646-672 | hands out the first whole frame of the pending bytes however they are split into chunks, or keeps all of them; nothing is lost |
| `Doip.DoipProtocolLayer.ReceiveAll` | Infrastructure/src/Protocols/DoipProtocolLayer.cpp:646-672 | repeated receives return all whole frames of the pending bytes in order and keep the rest |
| `Doip.DoipProtocolLayer.SendTcpFrame` | Infrastructure/src/Protocols/DoipProtocolLayer.cpp:633-644 | sends exactly the frame and remembers it iff the bus took it |
| `Doip.React` | Infrastructure/src/Protocols/DoipProtocolLayer.cpp:346-396 | a frame lets the wait go on iff it is an acceptable acknowledgement or a pending response, and answers iff it is any other diagnostic message |
| `Doip.ReactMeaning` | Infrastructure/src/Protocols/DoipProtocolLayer.cpp:346-396 | by the bytes of a frame: 80 01 carries the answer unless it says 7F, the service and 78; 80 02 and 80 03 acknowledge, the latter only with code zero; nothing else is expected |
| `Doip.AwaitAnswers` | Infrastructure/src/Protocols/DoipProtocolLayer.cpp:340-398 | waiting yields an answer iff the first frame that is neither acknowledgement nor pending is a diagnostic message with it |
| `Doip.TimedOutIff` | Infrastructure/src/Protocols/DoipProtocolLayer.cpp:364-389 | a wait times out iff the time is up at one of the interim frames that come first, and otherwise ends as if there were no deadline |
| `Doip.DoipProtocolLayer.WaitForAnswer` | Infrastructure/src/Protocols/DoipProtocolLayer.cpp:334-398 | the outcome and the bytes consumed depend only on the pending byte stream and on when the time is up |
| `Doip.DoipProtocolLayer.SendDiagnosticMessage` | Infrastructure/src/Protocols/DoipProtocolLayer.cpp:319-399 | refused without routing; otherwise sends exactly one diagnostic message, whose bytes are given, and returns what waiting on the pending frames yields, independent of segmentation |

## Left out

- ModbusCoils.ReadCoils: reading past the end of a response (Plugins/ModbusMaster/src/ModbusMasterPlugin.cpp:280-281) is an outcome of its own; what the code does then is undefined and not modelled.
- Scheduler.Scheduler.Run: observed for the rounds whose times and worker exits it is given, because under stop-on-failure the loop need not end; that workers exit and clocks advance is the hypothesis of the laws of runs.
- Scheduler.Scheduler.SelectRunnableTaskIndex: returns any runnable task; the scheduling policies' preferences are not modelled, since `SchedulingPolicy` is not part of this model.
- WorkflowEngine.Engine.RunBatch: members run one after the other in any order; interleavings inside two `runStep` calls of one batch, which race on the context data and the executed steps, are not modelled.
- WorkflowEngine.Engine.RunStep: the context data keeps only what conditions read; plugins change it arbitrarily, and payloads, timers, analyzer polling and result files of a step are left out.
- WorkflowEngine.Engine.OfferBreak: how long a pause lasts; a timeout counts as a resume.
- Formula.FormulaRead: arithmetic is over reals, so rounding and the test for a finite result are left out; the conversion of number texts is a parameter.
- Formula.AcceptedTexts: assumes that the conversion refuses empty texts and texts ending in the exponent letter; digits and letters outside ASCII are not modelled.
- ResourceManager.Manager.Acquire: deadlines are a number of wake-ups; the grant is guarded by the entry still being registered, because the code looks it up before it locks it (Runtime/src/ResourceManager.cpp:224-234), and what a dangling entry pointer does is not modelled.
- Doip.DoipProtocolLayer.WaitForAnswer: whether the time is up after an interim frame is an input; deadline arithmetic is not modelled.
- DependencyAnalyzer.BuildTree: weak dependencies and resource pointers of a node are not modelled, since nothing here reads them.
- Verdict merging, retry and scheduling policies, whose headers are not part of this model.
- Error texts other than those of the analyzer and the formula parser; event payloads, telemetry and metrics.
- The scheduler's SQLite persistence and the order tasks are reloaded in: a saved state is a task list.
- Wrap-around of 32-bit counters (lease numbers, attempts, transitions).
- RTU response offsets, the other Modbus functions, and the serial, TCP, UDP, VISA, CAN and Python back ends.
- The rest of the response decoder (byte order, bit fields, floating-point layouts) and of the DoIP layer (discovery, routing activation, alive checks).
- Studio, reporters, plugin loading, `JobScheduler`, `MatrixManager`, `CellWorker`, `AlertManager` and `CapabilityRegistry`, which would add only easy members.
