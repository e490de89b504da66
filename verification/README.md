# Verified model of the task runner's core

This project models the parts of the task runner whose correctness is not visible in one function:
how a query becomes an execution graph, how blocks of memory move between threads, how a client and a
server meet over named pipes, how the task graph loads itself on demand, what clients may report, what
the cache key records of the environment, and a few algorithmic cores around paths, workspaces and the
interactive selector. `dafny verify dfyconfig.toml` checks all of it.

Code that changes state in place is modelled by methods and classes with the same loops and fields, proved
against specification functions and predicates; code that several threads or processes run at once is
modelled as a machine whose steps are single atomic accesses, system calls or suspension points, and
proved for every run of that machine. Foreign code is a parameter: glob and fuzzy matching, hashing,
serialization, the command parser, the kernel's answers. A parameter is constrained only where a contract
says so.

## Modules

- `Digraph`: walks, reachability, contraction of nodes, renaming.
- `ExecutionGraph`, `TopologicalOrder`: the depth-first cycle search and the two-pass topological sort of
  petgraph 0.8, written out event by event, since the guarantees rest on their order.
- `TaskSelection`: from selected packages to tasks, with packages that lack the task bridged and `dependsOn` followed.
- `QueryGraph`, `Planner`: from selected tasks to a validated graph, with the expanding task pruned, and
  the mutual recursion between queries, tasks and hooks.
- `ChunkPool`, `PoolCalls`: the chunk pool as interleaved atomic steps, and one call at a time.
- `Paging`: page rounding, the page-size probe, size routing.
- `Handshake`, `LiveHandshake`: clients and the server over FIFOs, any of which may die between two system calls, and
  what a server that stays up does for them.
- `LazyGraph`, `TaskLoader`: the graph that loads partitions on first access, and its loader.
- `Framing`, `Recorder`, `Driver`, `Server`: request frames, what the handler records, the server's event loop, and
  the three together.
- `Casefold`, `EnvFingerprint`: environment names, and the environment a cached task is keyed by.
- `RelativePath`, `Workspace`, `Selector`: portable paths, workspace membership, the task selector.
- `Wrappers`: `Option`, `Result`, bytes.

## Where the code falls short of a plain statement

- A client whose ready byte arrives after it polled and before it probes may be refused if the server closes its
  listener or dies in between: the probe never looks at the byte (`ReadyByteCanComeTooLate`). The probe still succeeds,
  and the next poll sees the byte, if another client announces itself just then (`AnotherAnnouncementSavesAWaiter`).
  `WaiterConnectsExactlyIfItSeesTheByte` is the exact condition for every run: of the clients still waiting when the
  server is gone, those about to poll with the byte buffered connect, those about to probe with it buffered connect
  exactly if that probe succeeds, and the others are refused. From a state in which nobody can announce any more,
  `WaiterConnectsExactlyIfAboutToPoll` reads it off the state alone.
- A server whose own call fails for a client that is alive, say for want of descriptors, skips its announcement for good,
  and the client waits as long as the server listens (`SkippedClientWaitsForEver`); `ServedClientConnects` is what holds
  if no call for the client fails.
- An environment variable `VP_RUN` that a task fingerprints is hashed with the caller's value, but the
  process always sees `1` unless the command line assigns it (`MarkerHashIsStale`). `FingerprintsMatchChild` says
  exactly when the recorded hash is the hash of what the process sees, `MatchingVariablesAreFingerprinted` exactly
  when a matching variable of the process is recorded at all, and `EqualFingerprintsMeanEqualValues` exactly when
  equal fingerprints mean equal values; `AssignedMarkerLooksInherited` is a pair of commands for which they do not.
- A workspace pattern such as `./!x` is walked as a glob beginning with `!` but read back as an exclusion, so
  the two ways of deciding membership differ: `PlainNameDisagrees` is that pattern under any globs that take plain
  names literally. `ReadsAlike` is the exact condition over arbitrary relations of globs to paths: `BothWaysAgree`
  proves agreement under it for all of them, and `MisreadPatternsDisagree` builds a relation and files that disagree
  for every list that violates it. A particular glob language may let a misread list pass unnoticed.
- If the chunk size is not a whole number of pages, freeing a fresh chunk with its full length takes it for a
  pass-through block; `SizeTellsChunksApart` proves that this is the only condition.
- A page of one row hides the selected item behind its group's header if the item is the first of a named group
  and was reached by moving up, or is on top after typing or at the start; moving down never hides it. `Run`
  proves that of every frame of every session, `ScrolledShows` of every scroll, and `UpHidesAHead` is an example
  whose list begins without a header. A page of no rows shows nothing, and one of two rows or more always shows
  the selection.
- A description that gets no room at all is still shortened to an ellipsis of one character
  (`TruncatedFits`).
- Under a rule that ignores case, the reports spell a variable as the first tracked request for it did, so they
  depend on who asked first. `OnlySpellingsDependOnOrder` proves that two orders give equal reports exactly if
  they spell every variable alike first, and `PathIsSpelledTwoWays` that `Path` and `PATH` give different ones.

## Model

| member | source | states |
|---|---|---|
| `ExecutionGraph.FindCyclePath` | crates/vt_plan/src/execution_graph.rs:207-233 | the cycle search is sound and complete on every finite digraph: a reported path is a closed walk of length at least two along edges, and none is reported exactly when no node reaches itself |
| `ExecutionGraph.CycleSearch.CloseCycle` | crates/vt_plan/src/execution_graph.rs:217-227 | at a back edge the predecessor chain leads from the source back to the target, so the loop ends and the path closes |
| `ExecutionGraph.CycleSearch.Visit` | crates/vt_plan/src/execution_graph.rs:210-230 | a visit either returns a real cycle or finishes the node with everything it reaches, and finished nodes are on no cycle |
| `TopologicalOrder.Toposort` | crates/vt_plan/src/execution_graph.rs:121-124 | on every finite digraph the sort either lists each node once, with every edge running forward in the list, or fails, and it fails exactly if there is a cycle |
| `TopologicalOrder.ComputeTopologicalOrder` | crates/vt_plan/src/execution_graph.rs:107-124 | on a validated graph the sort never fails, so the panic attached to its error cannot happen |
| `TopologicalOrder.Sorter.PushTargets` | crates/vt_plan/src/execution_graph.rs:121-124 | discovering a node reports a cycle exactly for a self-loop; without cycles every unfinished target is then above it on the stack |
| `TopologicalOrder.Sorter.Confirm` | crates/vt_plan/src/execution_graph.rs:121-124 | the second pass over the reversed graph finds a cycle exactly if some edge runs against the order |
| `Digraph.ContractPreservesJoined` | crates/vt_plan/src/plan.rs:891-909 | removing a node and wiring its predecessors to its successors leaves reachability between all other nodes as it was, self-loops and cycles included |
| `Digraph.ContractAllPreservesJoined` | crates/vt_graph/src/query/mod.rs:204-222 | the same for any sequence of removed nodes, each contracted in the graph the earlier ones left |
| `TaskSelection.BridgeLacking` | crates/vt_graph/src/query/mod.rs:204-222 | the loop over the live graph leaves the packages without the task contracted one after another, and edges between packages with the task only |
| `TaskSelection.MapSubgraphToTasks` | crates/vt_graph/src/query/mod.rs:189-243 | one requested task for each selected package that has it, all lookups succeed, and two of them are ordered exactly if their packages are in the selected subgraph, however many packages without the task lie between; fails exactly if a selected package cannot be loaded |
| `TaskSelection.AddDependencies` | crates/vt_graph/src/query/mod.rs:251-290 | adds exactly the tasks reached over `dependsOn`, none of them requested, each with its own and its listed dependencies; ends on cycles, and fails exactly if some reached task cannot be listed |
| `TaskSelection.QueryTasks` | crates/vt_graph/src/query/mod.rs:146-173 | both stages: the result has exactly the selected tasks, and with explicit dependencies those they reach, is closed under dependencies and marks the selected ones as requested; it fails exactly if a selected package cannot be loaded or a reached task cannot be listed |
| `TaskSelection.QueryIsTaskMap` | crates/vt_graph/src/query/mod.rs:34-48 | the result is the task map planning takes, with the same dependencies |
| `QueryGraph.AddDependencyEdges` | crates/vt_plan/src/plan.rs:874-889 | an edge is added for exactly the dependencies that do not involve the pruned task |
| `QueryGraph.AddBridgeEdges` | crates/vt_plan/src/plan.rs:891-909 | exactly the pairs of a predecessor and a successor of the pruned task are bridged, the pruned task itself excluded |
| `QueryGraph.Connect` | crates/vt_plan/src/plan.rs:847-909 | an edge of the built graph stands for exactly one dependency of the contracted task map |
| `QueryGraph.OrderIsKept` | crates/vt_plan/src/plan.rs:841-909 | two planned tasks are joined by a path in the graph exactly if they are in the original map |
| `QueryGraph.CyclesAreKept` | crates/vt_plan/src/plan.rs:841-938 | the graph is acyclic exactly if no task outside the pruned one depends on itself |
| `Planner.Workspace.Hook` | crates/vt_graph/src/lib.rs:280-294 | only a script has a hook, and exactly the script of that name in its package is it |
| `Planner.PlanQuery` | crates/vt_plan/src/plan.rs:749-941 | for every finite task graph and every behaviour of the command parser planning ends; it fails exactly if a selected task other than the one being expanded has no plan or, without `--parallel`, depends on itself, and then no planned graph exists; else it yields one: an acyclic graph that orders tasks as their dependencies do, gives extra arguments to requested tasks only and never expands a task inside itself; a reported cycle is a closed walk of dependencies |
| `Planner.GraphIsUnique` | crates/vt_plan/src/plan.rs:88-941 | the tasks, the query and the answers of the command parser determine the planned graph, nested graphs included, up to which edges express the order |
| `Planner.PlanIsUnique` | crates/vt_plan/src/plan.rs:88-434 | the same for the plan of one task: the same items in the same order with the same arguments |
| `Planner.OnlyRepeatsAreMissing` | crates/vt_plan/src/plan.rs:160-265 | a part of a planned task lacks an item exactly if it is a `cd` or its own answer is a run of the query being expanded |
| `Planner.NestedRunSkipsItsOwnTask` | crates/vt_plan/src/plan.rs:836-872 | a query run by a command plans exactly the tasks it selects but the one whose command that is, the innermost on the call stack |
| `Planner.PlannedIsPlannable` | crates/vt_plan/src/plan.rs:836-940 | what has a planned graph has a plan for every selected task but the one being expanded, and no cycle among them unless run in parallel |
| `Planner.OutermostRunSkipsNothing` | crates/vt_plan/src/context.rs:200-204 | a query run by the user plans exactly the tasks it selects |
| `Planner.NodesAreInKeyOrder` | crates/vt_plan/src/plan.rs:854-872 | the planned tasks come in the order of the selection, each once |
| `Planner.LastPartGetsTheArguments` | crates/vt_plan/src/plan.rs:149-159 | the extra arguments of a run reach the last part of the last command of each task it asked for, and no other part, hook or dependency |
| `Planner.OnlyOtherRunsAreExpanded` | crates/vt_plan/src/plan.rs:160-347 | an item is expanded exactly if its part runs another query, to the plan of the run it asks for; `cd` has no item, `echo` and any other program a leaf |
| `Planner.CdTakesOneDirectory` | crates/vt_plan/src/plan.rs:162-176 | every `cd` of a planned task is given one directory, extra arguments included, or none where there is a home directory |
| `Planner.Validate` | crates/vt_plan/src/plan.rs:911-940 | planning reports a cycle exactly if edges are kept and some unpruned task depends on itself; with `--parallel` never |
| `Planner.NameCycle` | crates/vt_plan/src/plan.rs:919-938 | every node of a reported cycle has a task, and the named cycle is one of dependencies |
| `Planner.PlannedGraphRulesOutCycles` | crates/vt_plan/src/plan.rs:916-940 | an accepted graph proves that no unpruned task is on a cycle |
| `Planner.ReportedCycleIsReal` | crates/vt_plan/src/plan.rs:919-938 | a reported cycle is one of the original dependencies, bridges over the pruned task included |
| `Planner.NestingIsBounded` | crates/vt_plan/src/plan.rs:88-94 | nested runs go no deeper than there are tasks outside the call stack, however commands are parsed |
| `Planner.PlanTask` | crates/vt_plan/src/plan.rs:88-434 | a task on the call stack is a recursion error; otherwise its items are its hooks' around its own, hooks one level deep; an error means that no plan exists |
| `Planner.PlanHook` | crates/vt_plan/src/plan.rs:105-123 | a hook is planned without hooks and without extra arguments, and no item of it gets any; an error means that the task around it has no plan |
| `Planner.PlanOwnCommands` | crates/vt_plan/src/plan.rs:128-416 | items follow commands and parts in order, one at most for a part, and a part without one is a `cd` or repeats the query by its own answer; an error means that some part has no plan |
| `Planner.PlanCommand` | crates/vt_plan/src/plan.rs:130-416 | the same for one command; the last part alone gets the extra arguments |
| `Planner.PlanPart` | crates/vt_plan/src/plan.rs:137-347 | `cd` and a run that repeats the query around it yield nothing, `echo` and other programs a leaf, another query its plan, made with the task on the call stack; an empty plan passes only if no package was selected, and an error means that nothing else was possible |
| `Planner.PlanContext.CheckRecursion` | crates/vt_plan/src/context.rs:119-125 | finds the first position of a task on the stack, or that it is not there |
| `Planner.PlanContext.Duplicate` | crates/vt_plan/src/context.rs:206-220 | a duplicate has the same frames and is changed independently |
| `Planner.PushKeepsDistinct` | crates/vt_plan/src/plan.rs:94-141 | pushing a checked task keeps the ids on the stack distinct and leaves fewer tasks outside it, the measure of termination |
| `ChunkPool.TransferIsRight` | crates/fspy_nostd_alloc/src/pool.rs:106-164 | each atomic step moves at most one chunk, from exactly one place to another |
| `ChunkPool.StepKeepsHeldOnce` | crates/fspy_nostd_alloc/src/pool.rs:106-164 | every step of every thread keeps each chunk in use in exactly one place: a slot, an operation, an owner or stranded |
| `ChunkPool.StepConserves` | crates/fspy_nostd_alloc/src/pool.rs:106-164 | chunks obtained minus returned stay equal to the cached, carried, owned and stranded ones; a vanishing thread strands at most one |
| `ChunkPool.CallsAreWaitFree` | crates/fspy_nostd_alloc/src/pool.rs:113-164 | a started call can always step, comes closer to its end with each own step, and no other thread sets it back |
| `ChunkPool.EveryRunIsSafe` | crates/fspy_nostd_alloc/src/pool.rs:106-164 | for every interleaving of any number of threads: one place for each chunk, conservation, the cache within its slots, at most two atomic accesses for each slot in a call, and no call turns to the underlying allocator before it has looked at every slot, one after the other |
| `ChunkPool.HandedOutChunkIsExclusive` | crates/fspy_nostd_alloc/src/pool.rs:118-126 | a chunk about to be returned is with no other thread, owner or slot |
| `PoolCalls.Pool.Allocate` | crates/fspy_nostd_alloc/src/pool.rs:106-128 | refuses empty and over-aligned requests, passes big ones on, serves the others from the first full slot or with one fresh chunk |
| `PoolCalls.Pool.Deallocate` | crates/fspy_nostd_alloc/src/pool.rs:130-164 | caches a chunk in the first empty slot, gives it back if there is none, and passes big blocks on untouched |
| `PoolCalls.Pool.Drop` | crates/fspy_nostd_alloc/src/pool.rs:170-180 | gives back every cached chunk once and leaves the slots empty |
| `PoolCalls.TakeEmptiesOneSlot` | crates/fspy_nostd_alloc/src/pool.rs:113-125 | a request is served from the cache exactly if something is cached, and takes one chunk out |
| `PoolCalls.FirstFull` | crates/fspy_nostd_alloc/src/pool.rs:113-125 | the scan takes the first full slot and leaves all others alone |
| `PoolCalls.FirstEmpty` | crates/fspy_nostd_alloc/src/pool.rs:143-158 | the scan fills the first empty slot and leaves all others alone |
| `PoolCalls.PutIsRecycled` | crates/fspy_nostd_alloc/src/pool.rs:143-158 | a freed chunk is cached exactly if there is room, and the next request is then served from the cache |
| `PoolCalls.UndisturbedScanTakes` | crates/fspy_nostd_alloc/src/pool.rs:113-127 | the stepwise machine, undisturbed and with accurate loads, takes the chunk the sequential scan takes |
| `PoolCalls.UndisturbedAllocate` | crates/fspy_nostd_alloc/src/pool.rs:113-127 | a whole undisturbed call of the stepwise machine takes the first chunk in the cache, or asks the underlying allocator if there is none |
| `PoolCalls.UndisturbedDeallocate` | crates/fspy_nostd_alloc/src/pool.rs:143-163 | and a chunk goes to the first empty slot, or out if there is none |
| `Paging.RoundUpIsLeast` | crates/fspy_nostd_alloc/src/mmap.rs:75 | rounding yields the least multiple of the page size that is large enough |
| `Paging.FitsIfAnyMultipleDoes` | crates/fspy_nostd_alloc/src/mmap.rs:71-75 | rounding succeeds exactly if the page size is known and some multiple of it fits a `usize` |
| `Paging.UnmapsWhatWasMapped` | crates/fspy_nostd_alloc/src/mmap.rs:99-111 | every size a block may legally be freed with unmaps exactly the mapped length |
| `Paging.OnlyOddRequestsAreRefused` | crates/fspy_nostd_alloc/src/mmap.rs:65-75 | rounding never overflows for a legal layout, so a request is refused exactly if it is empty, over-aligned for the page size found, or refused by the kernel |
| `Paging.SizeTellsChunksApart` | crates/fspy_nostd_alloc/src/pool.rs:130-139 | the freed size separates chunks from pass-through blocks for every request exactly if the chunk size is whole pages |
| `Paging.ProbePageSize` | crates/fspy_nostd/src/param.rs:79-121 | the probe finds the page size, trying each power of two from 4 KiB on once, and every probed range stays in the scratch mapping |
| `Paging.ProbeIsExact` | crates/fspy_nostd/src/param.rs:79-121 | the probe is right exactly for page sizes from 4 KiB to 1 MiB |
| `Paging.PageSizeCache.PageSize` | crates/fspy_nostd/src/param.rs:48-61 | once found the page size is kept; a failed probe is tried again |
| `Handshake.InvariantStays` | crates/vt_socket_ipc/src/unix.rs:98-303 | every system call, closed connection and death, and the dropped listener, which closes no connection, keep the invariant that descriptors, names, announcements and replies match |
| `Handshake.HandshakeIsSafe` | crates/vt_socket_ipc/src/unix.rs:98-303 | in every reachable state the rendezvous holds whole ids; a connected client's own id was read, its own pair opened and given a ready byte; no two clients share a pair; none is killed by SIGPIPE or sees a wrong ready byte |
| `Handshake.OneReadyByte` | crates/vt_socket_ipc/src/unix.rs:114-116 | a pair gets its ready byte only once, into an empty FIFO |
| `Handshake.ReadTakesOneAnnouncement` | crates/vt_socket_ipc/src/unix.rs:100-102 | one read takes exactly the oldest announcement |
| `Handshake.CancellingAcceptIsHarmless` | crates/vt_socket_ipc/src/unix.rs:98-102 | dropping `accept` while it waits changes nothing |
| `Handshake.ClientWritesHaveAReader` | crates/vt_socket_ipc/src/unix.rs:191-238 | whenever a client writes, its FIFO has an open read end |
| `Handshake.AcceptNeverWaitsOnAClient` | crates/vt_socket_ipc/src/unix.rs:98-127 | `accept` consumes one announcement an iteration and is back after at most three calls, dead clients included |
| `Handshake.DeadServerReleasesWaiters` | crates/vt_socket_ipc/src/unix.rs:240-286 | once the server has dropped its listener or died no call of a waiting client blocks; a probe refuses it, or sends it back to polling exactly if another client's announcement descriptor is open |
| `Handshake.WaiterLeavesItsLoop` | crates/vt_socket_ipc/src/unix.rs:240-286 | in every run from there on a waiting client has left its loop after two calls, and two more for each of its probes that succeeded |
| `Handshake.WaiterConnectsExactlyIfItSeesTheByte` | crates/vt_socket_ipc/src/unix.rs:240-302 | in every run from there on a client that was waiting is connected only if it was about to poll with the ready byte buffered, or about to probe with it buffered and the probe succeeded, and refused only if neither; unless it dies or fails itself, it ends in one of the two |
| `Handshake.WaiterConnectsExactlyIfAboutToPoll` | crates/vt_socket_ipc/src/unix.rs:240-302 | if moreover the rendezvous is removed, or no client is between its first look at it and the end of its announcement, every run releases a waiter within two calls: connected exactly if it was about to poll with the byte buffered |
| `Handshake.ReadyByteOutlivesServer` | crates/vt_socket_ipc/src/unix.rs:287-302 | a client whose poll saw the ready byte connects even if the server has died since |
| `Handshake.ReadyByteCanComeTooLate` | crates/vt_socket_ipc/src/unix.rs:256-285 | a reachable state with the server dead and the ready byte buffered in which every further call of the client ends in refusal |
| `Handshake.AnotherAnnouncementSavesAWaiter` | crates/vt_socket_ipc/src/unix.rs:224-286 | with the server dead, a client about to probe with the byte buffered goes back to a poll that sees it, if another client opens its announcement descriptor first |
| `Handshake.ConnectedClientSeesEndOfFile` | crates/vt_socket_ipc/src/unix.rs:214-226 | a connected client finds nothing buffered beyond the handshake, and end of file exactly if the server died or closed that connection; a dropped listener alone does not end it |
| `LiveHandshake.RefusedExactlyWithoutServer` | crates/vt_socket_ipc/src/unix.rs:177-286 | exactly when a call of a client reports that the server is gone: the first open finds no reader of the rendezvous, a poll without news reports the error of a rendezvous without a reader, or a probe finds no reader or no directory |
| `LiveHandshake.OnlyOwnCallsRefuse` | crates/vt_socket_ipc/src/unix.rs:177-286 | nobody else's step refuses a client |
| `LiveHandshake.FailsExactlyWithoutDirectory` | crates/vt_socket_ipc/src/unix.rs:169-226 | exactly when a call fails for another reason: the directory is gone, or the name drawn is taken; no later open ever finds a FIFO missing |
| `LiveHandshake.AnybodyMayFail` | crates/vt_socket_ipc/src/unix.rs:104-108 | whatever else happens, a client in `connect` can always make its next call, fail or die, and the server can die; a connected one can have its connection closed |
| `LiveHandshake.ReadsNeverEnd` | crates/vt_socket_ipc/src/unix.rs:85-90 | while the server or a client is there, the rendezvous and the client's requests have a writer, so reading them never meets an end of file |
| `LiveHandshake.CallGoesOn` | crates/vt_socket_ipc/src/unix.rs:169-238 | while the server listens, each call of a client up to its announcement takes it one step further, and the announcement queues its id last |
| `LiveHandshake.WaitingCallGoesOn` | crates/vt_socket_ipc/src/unix.rs:240-302 | while the server listens, a poll without news is followed by a probe that succeeds and by another poll, a poll with the byte buffered by the connection |
| `LiveHandshake.ServerGetsOn` | crates/vt_socket_ipc/src/unix.rs:98-127 | the opens and the write of the server for a client that is alive find what they need, and the byte is then buffered |
| `LiveHandshake.UpServerRefusesNobody` | crates/vt_socket_ipc/src/unix.rs:160-302 | in every run in which the server goes on listening, a client that does not die is never refused, however slow the server is, and comes to wait |
| `LiveHandshake.AnnouncementIsExpected` | crates/vt_socket_ipc/src/unix.rs:224-238 | an announcement to a server that listens is expected, behind those that came before it |
| `LiveHandshake.AnnouncedIsServed` | crates/vt_socket_ipc/src/unix.rs:98-127 | in every such run an announcement that the server has not skipped gets its ready byte within four calls of the server for it and for each one ahead of it, if the calls for it do not fail |
| `LiveHandshake.ReadyClientConnects` | crates/vt_socket_ipc/src/unix.rs:240-302 | in every such run a client whose ready byte is written connects by exactly its next one, two or three calls |
| `LiveHandshake.ServedClientConnects` | crates/vt_socket_ipc/src/unix.rs:98-302 | the three together: an announced client that is served and does not die is connected once the server and then the client have made their calls, whatever others do |
| `LiveHandshake.SkippedClientWaitsForEver` | crates/vt_socket_ipc/src/unix.rs:104-116 | a call of the server that fails for a client that is alive loses its announcement: it never connects, and waits as long as the server listens |
| `LazyGraph.LazyRefinesEager` | crates/vt_graph/src/lazy_graph.rs:117-193 | for a loader that meets its contract, after any history of calls, failures, drops and interleavings every answer is the fully loaded graph's, each partition loaded at most once, and no assertion fired |
| `LazyGraph.LazyAnswersWhatEagerAnswers` | crates/vt_graph/src/lazy_graph.rs:117-193 | wherever the fully loaded graph has an answer the lazy one does: in every run, a call that is not dropped and whose own steps succeed does not fail, and has the answer after two own steps, or for neighbors five, three for each question of the resolver and three for each key |
| `LazyGraph.CallsFailForAReason` | crates/vt_graph/src/lazy_graph.rs:117-193 | in every run a call fails only if it is dropped, a step of its own fails, or the full graph resolves its edges to an error |
| `LazyGraph.OwnStepsAreBounded` | crates/vt_graph/src/lazy_graph.rs:117-193 | in every run each step of a call brings it closer to its end, and nobody sets it back |
| `LazyGraph.EveryCallCanFinish` | crates/vt_graph/src/lazy_graph.rs:142-188 | however the next call to go on is chosen, steps that succeed run out after a bounded number, and then no call is left waiting |
| `LazyGraph.EachPartitionLoadsOnce` | crates/vt_graph/src/lazy_graph.rs:154-171 | in every run at most one load of a partition succeeds, and the graph has exactly the nodes of those for which one did |
| `LazyGraph.SomeCallCanGoOn` | crates/vt_graph/src/lazy_graph.rs:142-188 | while a call is unfinished some call can step, even if edges cycle across partitions |
| `LazyGraph.InvariantStays` | crates/vt_graph/src/lazy_graph.rs:154-193 | every step of every call keeps cells, nodes and edges true to the full graph |
| `LazyGraph.ResolutionIsUnique` | crates/vt_graph/src/lazy_graph.rs:173-188 | however often the edges of a node are resolved, they are the same |
| `LazyGraph.PartitionListsItself` | crates/vt_graph/src/lazy_graph.rs:127-134 | a loaded partition lists its nodes in load order, and no lookup fails |
| `LazyGraph.Dedup` | crates/vt_graph/src/lazy_graph.rs:173-188 | each target once, none lost |
| `LazyGraph.DedupKeepsOrder` | crates/vt_graph/src/lazy_graph.rs:173-188 | and in the order of first occurrence |
| `TaskLoader.Load` | crates/vt_graph/src/task_loader.rs:128-245 | a package loads exactly under the listed conditions, and then yields every configured task and script once, under its own id |
| `TaskLoader.LoadConfigTasks` | crates/vt_graph/src/task_loader.rs:178-220 | configured tasks load exactly if none shares a script's name and all resolve |
| `TaskLoader.LoadScripts` | crates/vt_graph/src/task_loader.rs:222-241 | scripts are added in whatever order, each once |
| `TaskLoader.SpecifierRoundTrip` | crates/vt_graph/src/specifier.rs:27-33 | `package#task` names that task for every package name, and a name without `#` names itself |
| `TaskLoader.WalkKeepsFound` | crates/vt_graph/src/task_loader.rs:251-306 | every resolved target was asked for and found |
| `TaskLoader.EdgesAreWhatEntriesSelect` | crates/vt_graph/src/task_loader.rs:251-306 | `dependsOn` resolves exactly if every task it names exists, and then to exactly what its entries select: the task named, alone in the own package or after the one package of that name, and the task in every direct dependency of the right types that has it |
| `TaskLoader.EntriesResolveInOrder` | crates/vt_graph/src/task_loader.rs:257-303 | what earlier entries select comes first |
| `TaskLoader.ParseFindsNamed` | crates/vt_graph/src/specifier.rs:27-33 | parsing and looking up the package finds exactly the task a specifier names |
| `TaskLoader.TaskLoaderSettles` | crates/vt_graph/src/task_loader.rs:251-306 | resolving ends, so no call on the task graph waits for ever |
| `TaskLoader.TaskLoaderMeetsContract` | crates/vt_graph/src/task_loader.rs:128-306 | for every workspace whose packages `Load` has loaded, the loader returns distinct nodes of the package asked for, asks only about existing packages, and resolves only to keys the graph can find |
| `TaskLoader.DependsOnAsConfigured` | crates/vt_graph/src/task_loader.rs:178-241 | a loaded task depends on what its configuration lists, a script on nothing |
| `Framing.LengthRoundTrip` | crates/vt_client/src/lib.rs:150-158 | the little-endian prefix and the length determine each other |
| `Framing.LightestByteFirst` | crates/vt_client/src/lib.rs:150-158 | a prefix is a length exactly if its bytes weigh up to it, the lightest first |
| `Framing.ReadsFirstFrame` | crates/vt_server/src/lib.rs:406-414 | reading the first frame gives its payload and leaves the rest |
| `Framing.PartialFrameIsNoFrame` | crates/vt_server/src/lib.rs:406-414 | no proper prefix of a frame is taken for one |
| `Framing.HandleStream` | crates/vt_server/src/lib.rs:321-388 | the read loop serves a stream as specified |
| `Framing.PrefixServesCompleteRequests` | crates/vt_server/src/lib.rs:321-388 | for any byte prefix of what a client sent the server processes exactly the whole requests in order, up to the first it refuses, and a torn frame ends cleanly |
| `Framing.StepKeepsInvariant` | crates/vt_client/src/lib.rs:110-160 | every write of any length, also one after the server stopped reading, and every death, read and reply keeps the bytes, frames and requests in step |
| `Framing.NoWholeRequestIsLost` | crates/vt_server/src/lib.rs:353-362 | in every run a stream that ended cleanly, at end of file or at a broken reply, had processed every whole request; a failed one stopped at a refused request |
| `Framing.ServerNeverSticks` | crates/vt_server/src/lib.rs:321-331 | the server can go on exactly if an unprocessed request or the end of file is there |
| `Framing.WaitingClientIsServedLast` | crates/vt_client/src/lib.rs:110-118 | while a reply is due nothing further has been sent |
| `Framing.ClientNeverSticks` | crates/vt_client/src/lib.rs:58-160 | a client can send when it is ready and write as much as it likes; while it waits, its reply is there, or the server can go on, or has refused a request |
| `Framing.OnlyEnvRequestsAreAnswered` | crates/vt_server/src/lib.rs:333-386 | after a request for environment variables the client waits and the server replies, after any other neither does; a reply ends a stream exactly if it breaks |
| `Framing.ExchangeGoesThrough` | crates/vt_client/src/lib.rs:58-160 | from rest, any request the handler takes goes through, and both sides are at rest again |
| `Casefold.FoldIsIdempotent` | crates/vt_casefold/src/lib.rs:33-52 | folding twice changes nothing, and the exact rule changes nothing at all |
| `Casefold.FoldsAlike` | crates/vt_casefold/src/lib.rs:33-52 | two names fold alike exactly if they have the same characters, or without case the same up to the case of ASCII letters |
| `Casefold.StartsWithSameName` | crates/vt_casefold/src/lib.rs:122-126 | a name starts with a prefix exactly if it begins with the same name |
| `Recorder.Recorder.GetEnv` | crates/vt_server/src/lib.rs:147-153 | the reply is the environment's value, and a first tracked request is recorded for good, as it was spelled |
| `Recorder.Recorder.GetEnvs` | crates/vt_server/src/lib.rs:155-192 | the reply is the direct evaluation of the query whether or not it comes from the record; an invalid glob changes nothing |
| `Recorder.ReplyIsTheVariable` | crates/vt_server/src/lib.rs:147-153 | the reply is the value of the one variable with the same name under the case rule, or that there is none |
| `Recorder.QueryListsWhatMatches` | crates/vt_server/src/lib.rs:155-192 | the reply lists exactly the variables with text names that match the glob, or begin with the prefix under the case rule, unchanged |
| `Recorder.ReportsHoldTheReplies` | crates/vt_server/src/lib.rs:147-192 | what a tracked request was told is what the reports say |
| `Recorder.Recorder.Handle` | crates/vt_server/src/lib.rs:333-386 | exactly the well-formed requests are taken, each answered from the environment alone |
| `Recorder.Serve` | crates/vt_server/src/lib.rs:321-388 | a sequence of requests is served exactly if all are well formed, and the reports are then those of the set of requests, with each variable spelled as it was first asked for |
| `Recorder.RequestsDetermineReports` | crates/vt_server/src/lib.rs:85-93 | the set of requests and the environment determine the reports, up to the spelling of names |
| `Recorder.MergeKeepsRequests` | crates/vt_server/src/lib.rs:273-302 | interleaving neither loses nor invents requests |
| `Recorder.InterleavingDoesNotMatter` | crates/vt_server/src/lib.rs:134-194 | any two interleavings of the same clients both succeed or both fail, with agreeing reports, equal ones under the exact rule |
| `Recorder.OnlySpellingsDependOnOrder` | crates/vt_server/src/lib.rs:134-194 | two interleavings of the same clients give equal reports exactly if they first ask for every variable in the same spelling |
| `Recorder.SpellingFollowsTheFirst` | crates/vt_server/src/lib.rs:147-153 | for two clients that spell a variable differently both orders are possible, and each records the spelling of whoever asks first |
| `Recorder.PathIsSpelledTwoWays` | crates/vt_server/src/lib.rs:147-153 | without case, `Path` and `PATH` give different reports in the two orders |
| `Driver.Run` | crates/vt_server/src/lib.rs:273-319 | in every schedule each accepted client finishes at most once and accepted are finished and in flight together; the loop closes at the first chance after a signal or failure and accepts nobody later; it returns only with none in flight, the first error in completion order, and the handler exactly if every client succeeded |
| `Driver.AcceptPhase` | crates/vt_server/src/lib.rs:280-302 | every connection before closing is accepted, and no client that ended stays in flight |
| `Driver.DrainPhase` | crates/vt_server/src/lib.rs:307-316 | draining only finishes clients |
| `Driver.FirstError` | crates/vt_server/src/lib.rs:294-299 | the error kept is that of the earliest failure in completion order |
| `Driver.DrainedMeansAllFinished` | crates/vt_server/src/lib.rs:262-263 | the handler comes back exactly if no accepted client failed |
| `Server.StepKeepsInvariant` | crates/vt_server/src/lib.rs:321-388 | every step of every client and of the task that serves it keeps the requests the handler took a merge of those processed for each client |
| `Server.ReturnedHandlerHasEveryRequest` | crates/vt_server/src/lib.rs:246-388 | for every interleaving, every point at which clients die and every order in which the driver sees them end: the handler comes back exactly if every whole request of every client is well formed, and then took the whole requests of all clients, each client's in order, and reports exactly those |
| `Server.BytesAreWholeRequests` | crates/vt_client/src/lib.rs:110-160 | the bytes a client got out are the frames of its whole requests and less than one more frame |
| `Server.RunsAgree` | crates/vt_server/src/lib.rs:246-388 | two runs in which the clients got the same requests out report the same, to the letter under the exact rule |
| `EnvFingerprint.Resolve` | crates/vt_plan/src/envs.rs:107-157 | what is passed on, the fallback to colored output, and one hash under its exact name for each matching entry; it fails exactly for a bad glob or a matching value that is not text |
| `EnvFingerprint.Fingerprint` | crates/vt_plan/src/envs.rs:130-148 | in whatever order the map is read, the same hashes result |
| `EnvFingerprint.RecordAssignments` | crates/vt_plan/src/plan.rs:641-649 | assignments replace a differently spelled entry of the same variable |
| `EnvFingerprint.ApplyAssignments` | crates/vt_plan/src/plan.rs:707-722 | the process sees its assignment, else the marker, else what was passed on, with the spelling recorded |
| `EnvFingerprint.PlanSpawn` | crates/vt_plan/src/plan.rs:619-733 | both halves for one spawned command, cached or not |
| `EnvFingerprint.CachedChildGetsWhatIsLetThrough` | crates/vt_plan/src/envs.rs:107-174 | the process of a cached task has its assignments, the last of each variable; the marker; every variable of the caller that an include pattern of either list matches and no exclude pattern of either does, as it was; the color fallback; and nothing else |
| `EnvFingerprint.UncachedChildGetsEverything` | crates/vt_plan/src/plan.rs:707-733 | the process of an uncached task has everything around it, with its assignments and the marker |
| `EnvFingerprint.FingerprintRecordsWhatIsTracked` | crates/vt_plan/src/envs.rs:130-157 | the hashes recorded are those of the last assignment of each assigned variable, and of the others those that the fingerprinted patterns let through of what was passed on or fell back, under their exact names |
| `EnvFingerprint.PlannableUnlessBadValue` | crates/vt_plan/src/envs.rs:107-174 | a cached task can be planned exactly if every pattern is a glob and no variable to be hashed has a value that is not text |
| `EnvFingerprint.MatchesWhatIsLetThrough` | crates/vt_glob/src/env.rs:76-97 | a set of patterns matches a name exactly if some pattern without `!` does and none does behind its `!` |
| `EnvFingerprint.FingerprintsMatchChild` | crates/vt_plan/src/plan.rs:632-722 | every fingerprinted variable is in the process's environment, spelled as recorded, with a value of the recorded hash, exactly but for an unassigned marker of another hash |
| `EnvFingerprint.MarkerHashIsStale` | crates/vt_plan/src/plan.rs:632-722 | with `VP_RUN=x` and the pattern `VP_RUN`, the hash of `x` is recorded while the process sees `1` |
| `EnvFingerprint.OneSpellingEach` | crates/vt_plan/src/plan.rs:641-649 | no two fingerprinted names are one variable |
| `EnvFingerprint.MatchingVariablesAreFingerprinted` | crates/vt_plan/src/envs.rs:130-148 | a variable of the process whose name is to be hashed is recorded, except exactly a marker that is neither assigned nor passed on |
| `EnvFingerprint.NothingElseInfluences` | crates/vt_plan/src/envs.rs:107-157 | environments that agree on the names to be hashed are fingerprinted alike |
| `EnvFingerprint.NothingElseBlocks` | crates/vt_plan/src/envs.rs:107-157 | and one is plannable exactly if the other is |
| `EnvFingerprint.EqualFingerprintsMeanEqualValues` | crates/vt_plan/src/plan.rs:632-722 | with an injective hash, equal fingerprints, even of different configurations, mean equal fingerprinted values in the processes, exactly unless just one command line assigns the marker, and not to `1` |
| `EnvFingerprint.AssignedMarkerLooksInherited` | crates/vt_plan/src/plan.rs:632-722 | `tool` and `VP_RUN=x tool`, run with `VP_RUN=x` around and the pattern `VP_RUN`, have one fingerprint, and their processes see `1` and `x` |
| `RelativePath.New` | crates/vt_path/src/relative.rs:210-239 | parsing refuses a rooted path or the first bad component, and else prints the kept components |
| `RelativePath.AcceptsWhatIsPortable` | crates/vt_path/src/relative.rs:210-239 | whatever is written between the slashes: refused exactly for a slash in front or a name that is not text or holds a backslash, with the error of the first one; empty parts and dots are dropped from the rest |
| `RelativePath.NoiseIsDropped` | crates/vt_path/src/relative.rs:210-239 | the components kept are the parts other than empty ones and dots, in order |
| `RelativePath.SplitOfPrint` | crates/vt_path/src/relative.rs:210-239 | splitting undoes printing |
| `RelativePath.PortableIsFixed` | crates/vt_path/src/relative.rs:15-24 | parsing leaves exactly the printed portable component lists alone |
| `RelativePath.ParseIsIdempotent` | crates/vt_path/src/relative.rs:210-239 | `new(p.as_str())` is `p` |
| `RelativePath.RelativePathBuf.Push` | crates/vt_path/src/relative.rs:191-200 | pushing is joining |
| `RelativePath.JoinConcatenates` | crates/vt_path/src/relative.rs:60-64 | joining concatenates components |
| `RelativePath.ParentDropsLast` | crates/vt_path/src/relative.rs:69-77 | the parent drops the last component, and only the empty path has none |
| `RelativePath.ParentOfJoin` | crates/vt_path/src/relative.rs:69-77 | the parent of a join is the join with the parent |
| `RelativePath.StripPrefix` | crates/vt_path/src/relative.rs:108-113 | compares component by component |
| `RelativePath.StripUndoesJoin` | crates/vt_path/src/relative.rs:101-113 | `a.join(b).strip_prefix(a)` is `b` |
| `RelativePath.JoinUndoesStrip` | crates/vt_path/src/relative.rs:101-113 | stripping succeeds exactly if the base is a prefix of components, and its result is the one path that joins back |
| `RelativePath.StringPrefixIsNoPrefix` | crates/vt_path/src/relative.rs:101-113 | a prefix of characters is not enough |
| `Workspace.NewGlobSet` | crates/vt_glob/src/path.rs:31-51 | a set is built exactly if every pattern is a glob, and knows whether any is negated |
| `Workspace.BangKeepsOut` | crates/vt_glob/src/path.rs:31-51 | a pattern with an exclamation mark in front keeps out what the rest matches, any other lets in what it matches |
| `Workspace.IsMatch` | crates/vt_glob/src/path.rs:60-72 | in both modes the answer is the polarity of the last matching rule |
| `Workspace.LastRuleDecides` | crates/vt_glob/src/path.rs:60-72 | the last matching rule decides; without negated rules, any match does |
| `Workspace.BangFlips` | crates/vt_workspace/src/lib.rs:112-138 | one more exclamation mark flips a pattern and changes nothing else |
| `Workspace.RootPrefixIsDropped` | crates/vt_workspace/src/lib.rs:118-124 | `/`, `//` and `./` in front do not count |
| `Workspace.OnlyRootPrefixesAreDropped` | crates/vt_workspace/src/lib.rs:118-124 | slashes in front are dropped, with a dot before them or not, and nothing else is |
| `Workspace.PlainMember` | crates/vt_workspace/src/lib.rs:112-138 | any other member stands for the `package.json` right below what it matches |
| `Workspace.RootMember` | crates/vt_workspace/src/lib.rs:112-138 | the empty member, `/` and `./` stand for the `package.json` of the root |
| `Workspace.NodeModulesIsAComponent` | crates/vt_workspace/src/lib.rs:141-145 | a path is excluded exactly if some component is `node_modules` |
| `Workspace.Includes` | crates/vt_workspace/src/lib.rs:141-149 | membership from the path alone |
| `Workspace.GetPackageJsonPaths` | crates/vt_workspace/src/lib.rs:151-194 | membership by walking the inclusions, filtered if some pattern is negated |
| `Workspace.BothWaysAgree` | crates/vt_workspace/src/lib.rs:141-194 | both ways agree on every package whose `package.json` exists, unless a pattern is misread |
| `Workspace.MisreadPatternsDisagree` | crates/vt_workspace/src/lib.rs:112-194 | for every misread list some relation of globs to paths and some files make both ways disagree |
| `Workspace.PlainNameDisagrees` | crates/vt_workspace/src/lib.rs:112-194 | under any globs that take plain names literally, the member `./!x` finds the package `!x` by walking and excludes it by its path |
| `Workspace.DotSlashBangIsMisread` | crates/vt_workspace/src/lib.rs:112-138 | `./!x` is such a list |
| `Selector.GroupFiltered` | crates/vt_select/src/interactive.rs:76-101 | collects matches group by group, in first-seen order with the current package first |
| `Selector.GroupingIsStable` | crates/vt_select/src/interactive.rs:76-101 | grouping is a permutation, stable within each group, with groups contiguous and the current package first |
| `Selector.BuildDisplayRows` | crates/vt_select/src/interactive.rs:51-69 | the rows of the grouped matches |
| `Selector.DisplayRowsAreHeaded` | crates/vt_select/src/interactive.rs:51-69 | every named group has exactly one header, right above its items, and every header has items |
| `Selector.HeadsAreUnderHeaders` | crates/vt_select/src/interactive.rs:51-69 | the rows right below headers are exactly the first items of named groups |
| `Selector.State.DisplayRowOfSelected` | crates/vt_select/src/interactive.rs:150-161 | finds the one row of the selected item |
| `Selector.State.SelectedItemIndex` | crates/vt_select/src/interactive.rs:164-170 | the item shown in that row is the selected match |
| `Selector.State.EnsureSelectedVisible` | crates/vt_select/src/interactive.rs:173-189 | scrolls to where `ScrolledShows` and `ScrolledIsNearest` say |
| `Selector.ScrolledShows` | crates/vt_select/src/interactive.rs:173-189 | for every page size: the selected row is then on the page, except that a page of one row coming from below goes to the header of a group's first item, which is visible, and a page of no rows shows nothing |
| `Selector.ScrolledIsNearest` | crates/vt_select/src/interactive.rs:173-189 | no page that shows the row, and its header when coming from below, is nearer |
| `Selector.State.MoveUp` | crates/vt_select/src/interactive.rs:191-196 | keeps indices in range and the selection visible; a page of one row hides it exactly if it is the first below a header |
| `Selector.State.MoveDown` | crates/vt_select/src/interactive.rs:198-203 | keeps indices in range and the selection visible, on a page of one row too |
| `Selector.State.VisibleRows` | crates/vt_select/src/interactive.rs:205-214 | the page is in range and as full as can be, and the hidden count is that of the items after it |
| `Selector.State.Refilter` | crates/vt_select/src/interactive.rs:142-147 | starts over at the top with the rows of the query |
| `Selector.Run` | crates/vt_select/src/interactive.rs:484-551 | after any key sequence the session ends as the model without rows and scrolling does; with a page of two rows or more every frame shows the selected item, and with one row exactly those that the keys so far do not hide, the others showing its header |
| `Selector.OnlyHeadsAreHidden` | crates/vt_select/src/interactive.rs:173-203 | what a page of one row hides is always the first item of a named group |
| `Selector.SelectsAMatch` | crates/vt_select/src/interactive.rs:517-527 | only an item that matches what was typed is selected |
| `Selector.UpHidesAHead` | crates/vt_select/src/interactive.rs:173-189 | an item without a group and two of one group: a page of one row moved down twice and up once hides the selected item |
| `Selector.Layout` | crates/vt_select/src/interactive.rs:302-420 | no name padding is negative, all descriptions start right after the longest prefix and the widest name of all rows, and exactly the selected item is highlighted |
| `Selector.Measure` | crates/vt_select/src/interactive.rs:302-326 | whether there are headers, the width of the widest name, and the items before the page |
| `Selector.TruncatedFits` | crates/vt_select/src/interactive.rs:245-257 | a shortened description fits exactly if there is room for the ellipsis |

## Left out

- Planner: working directories, prefix environments, display spans, cache configuration and cache keys, remote
  cache and concurrency limits, which no modelled property depends on; their failures are one reply of the outside.
- Planner: a frame of the call stack records which part of which command it is, and whether the task runs as a hook,
  instead of a range of characters; the outside answers once for each chain of frames.
- Planner: the order of planned tasks is that of the selection, whatever it is; the warnings for unmatched filters
  and `--fail-if-no-match` are part of what a lookup may answer.
- TaskSelection: which packages a filter selects, and the edges between them, are the input; the task node an id
  finds and its package are one. The planner takes any task map closed under dependencies, of which this is one.
- ChunkPool: memory orderings. A relaxed load may see any value, swaps and exchanges are atomic, and what the
  release and acquire pairs publish about a chunk's contents is not modelled.
- PoolCalls: a chunk layout that is invalid for every request, and the alignment of addresses.
- Handshake: interrupted system calls, short writes of 16 bytes and descriptor limits are one failure step; the
  poll timeout is the free choice between waiting and probing; traffic after the handshake is in `Framing`.
- Handshake: the server removes its directory in one step; states in which only some of the names are gone, or in which
  a pair made meanwhile keeps the directory, are not modelled.
- Handshake: `uuid` collisions are resolved by the file system: a pair that exists is an error for its second creator.
- LazyGraph: a resolver is a function from the replies so far to its next question, so it asks one at a time.
- TaskLoader: resolving a command's configuration is one bit, and the root settings that a root load records are not modelled.
- Framing: replies are delivered whole or not at all; their encoding is the same framing.
- Server: which client connected when is in `Driver`; a stream before its connection is one that has done nothing yet.
- Driver: fairness is not assumed, so nothing is said about when the loop notices that it was cancelled.
- EnvFingerprint: the sorted list of untracked names in the fingerprint, which depends on the configuration only; the
  name in the error for a value that is not text is any of those that match.
- RelativePath: Windows prefixes and separators, and `clean`, which a third-party crate does.
- Workspace: reading manifests and building the package graph; the walk is assumed to yield exactly the matching
  files outside `node_modules`, and the order of its result is not modelled.
- Selector: fuzzy scoring, keys that do nothing, and the escape sequences around each line.
- Windows transports and allocators, process spawning, the shared-memory channel, the remote cache client, the
  terminal and every serialization format are not part of this model.
