# Shard coordinator: lifecycle bookkeeping

This project models the shard coordinator of NadekoBot, `ShardsCoordinator`.
The coordinator starts N worker processes ("shards"), records their status
reports and restarts the shards that go down or stop reporting. The model is
sequential: every message handler and every pass of a background loop is one
atomic step over integer shard ids and integer times in seconds.

- `shard_com.dfy` (module `ShardCom`) holds the values: the status record
  (`ShardStatus`: shard id, connection state, guild count, time), the four
  connection states, and the process handle `Handle`. A handle stands for
  the source's `Process` object: a spawn number that tells this spawn apart
  from every other one, together with the shard id it was started for. Spawn
  numbers are not operating-system process ids.
- `start_queue.dfy` (module `StartQueue`) holds the deduplicating start queue
  `ShardsCoordinatorQueue`: a queue of ids paired with the set of ids in it.
  Its object invariant says that the set is the queue's elements and that no id
  occurs twice.
- `lifecycle.dfy` (module `Lifecycle`) describes the coordinator's whole state
  as one value, `Coord`: queue, waiting list, process table, store, shared
  placeholder record, initial-fill flag and next spawn number. It gives one
  function per transition. `Inv` is the invariant that every transition keeps.
- `lifecycle_properties.dfy` (module `LifecycleProperties`) holds the lemmas
  about those transitions: the two-strike escalation, stop, restart, the start
  loop and the staleness sweep.
- `coordinator.dfy` (module `Coordinator`) holds the class `ShardsCoordinator`.
  Its fields are the queue object, the process table (an array), the store (a
  sequence), the waiting set, the placeholder record, the flag and the process
  counter. Each message handler and each loop pass is proved to keep
  `Valid()` and to carry out exactly the matching `Lifecycle` transition on
  `Abs()`, the value of its fields. The crash check `EnqueueDead` is the
  no-stale branch of `Lifecycle.Sweep`. `StartShard` only hands out the next
  spawn number.

Points where the model follows the code closely:

- **Store writes behave like Redis indexed list writes.** A negative index
  counts from the tail. An out-of-range index is an error, and the
  fire-and-forget write drops it, so nothing is written (`StoreIndex`).
- **The process table access can throw.** When a shard id is outside the
  table, the table access throws after the store write has already happened.
  The affected operations return `ok = false` together with those partial
  effects. `OnStop` is the basic case, and `OnRestart`, the second strike and
  the sweep inherit it. During a sweep, that record ends the pass.
- **The placeholder record is one shared object.** `OnStop` sets its shard id
  and writes it out. Its time stays where construction left it: the time of
  the last startup record.
- **A stale record is written back with its own contents.** The sweep writes
  back the record it read, with only the time moved forward. This comes after
  the stop's placeholder, so it overwrites it.
- **The start loop does not stop the previous occupant.** It overwrites the
  shard's process slot. `RestartWhileQueuedOrphans` shows the consequence: a
  restart request for a shard that is still queued leaves a live process that
  no slot refers to.

Further facts about the code that the model keeps (line numbers refer to
`NadekoBot.Core/Services/ShardsCoordinator.cs`):

- The initial-fill flag is set by the first start-loop pass that finds the
  queue empty (line 230). That is one pass after the N-th start
  (`BootstrapStartsEveryShard`).
- A failing sweep pass rethrows (line 279). In the model the failing record
  ends the pass with `ok = false`.
- Each store slot i holds a record of shard i (`ConsistentIds`) after
  construction (`InitialConsistent`). Every transition keeps this while its id
  lies in 0..N-1. That covers stop and restart requests
  (`StopKeepsConsistent`), reports (`ReportKeepsConsistent`), start-loop passes
  (`ThrottleStepKeepsStore`) and health-loop passes (`SweepKeepsConsistent`).
  An out-of-range id can break it. A stop or restart request with a negative
  id writes a placeholder carrying that id into a slot counted from the tail
  (lines 141-146, `NegativeStopBreaksConsistency`). A report with a negative id
  does the same with the report itself. `SweepClearsStaleness` requires this
  property.

## Model

| member | source | states |
|---|---|---|
| `StartQueue.Enqueued` | NadekoBot.Core/Services/ShardsCoordinator.cs:25-32 | after an enqueue, x is pending and nothing else changes; a pending x leaves the queue unchanged; the old queue stays in front; no duplicates are created |
| `StartQueue.EnqueueAllFacts` | NadekoBot.Core/Services/ShardsCoordinator.cs:256-261 | enqueueing a batch of ids in turn adds exactly the ids of the batch, keeps the earlier queue as a prefix and keeps the queue free of duplicates |
| `StartQueue.ShardsCoordinatorQueue.constructor` | NadekoBot.Core/Services/ShardsCoordinator.cs:20-22 | a new queue is empty and valid |
| `StartQueue.ShardsCoordinatorQueue.Count` | NadekoBot.Core/Services/ShardsCoordinator.cs:23 | the count is the queue length, which equals the size of the membership set |
| `StartQueue.ShardsCoordinatorQueue.Enqueue` | NadekoBot.Core/Services/ShardsCoordinator.cs:25-32 | keeps set = elements with no duplicates; adds i at the back only when it is not pending, otherwise leaves queue and set unchanged |
| `StartQueue.ShardsCoordinatorQueue.TryDequeue` | NadekoBot.Core/Services/ShardsCoordinator.cs:34-45 | on a non-empty queue returns true and the front id, removes it from queue and set, and keeps the rest in order; on an empty queue returns false and id 0 and changes nothing |
| `Lifecycle.StoreIndex` | NadekoBot.Core/Services/ShardsCoordinator.cs:142-145 | an indexed store write lands in a slot exactly when -n <= id < n: slot id from the head, or slot n + id from the tail |
| `Lifecycle.WriteStore` | NadekoBot.Core/Services/ShardsCoordinator.cs:166-169 | an indexed write keeps the store's length and changes only the addressed slot, if there is one |
| `Lifecycle.IdRange` | NadekoBot.Core/Services/ShardsCoordinator.cs:87-95 | the ids enqueued at startup are lo, lo+1, ..., hi-1 in order |
| `Lifecycle.StartupRecords` | NadekoBot.Core/Services/ShardsCoordinator.cs:96-104 | the startup push writes n records, and record i is shard i's Disconnected placeholder with time now + 20*i |
| `Lifecycle.Initial` | NadekoBot.Core/Services/ShardsCoordinator.cs:76-104 | the state after construction satisfies the invariant |
| `Lifecycle.DeadSlots` | NadekoBot.Core/Services/ShardsCoordinator.cs:256-261 | the crash check selects exactly the slots that are null or hold an exited process, in increasing order |
| `Lifecycle.StaleRecords` | NadekoBot.Core/Services/ShardsCoordinator.cs:248-251 | exactly the store records with time < now - 30 are selected |
| `Lifecycle.OnStop` | NadekoBot.Core/Services/ShardsCoordinator.cs:138-150 | stopping keeps the invariant and completes exactly when the id indexes the process table |
| `Lifecycle.OnRestart` | NadekoBot.Core/Services/ShardsCoordinator.cs:152-157 | a restart keeps the invariant and completes exactly for in-range ids |
| `Lifecycle.OnShardUnavailable` | NadekoBot.Core/Services/ShardsCoordinator.cs:186-199 | the escalation keeps the invariant; it fails only when its stop is reached (shard already listed) with an id outside the table |
| `Lifecycle.OnDataReceived` | NadekoBot.Core/Services/ShardsCoordinator.cs:159-184 | a report keeps the invariant; a payload that does not decode changes nothing |
| `Lifecycle.ThrottleStep` | NadekoBot.Core/Services/ShardsCoordinator.cs:212-230 | a start-loop pass keeps the invariant; afterwards the flag is set iff it was set before or the queue was empty, so it only goes from false to true |
| `Lifecycle.SweepOne` | NadekoBot.Core/Services/ShardsCoordinator.cs:268-274 | handling one stale record keeps the invariant and completes exactly for an in-range shard id |
| `Lifecycle.SweepStale` | NadekoBot.Core/Services/ShardsCoordinator.cs:264-277 | the pass over the stale records keeps the invariant |
| `Lifecycle.Sweep` | NadekoBot.Core/Services/ShardsCoordinator.cs:241-277 | a health-loop pass, which runs only once the initial fill is done, keeps the invariant |
| `LifecycleProperties.InitialState` | NadekoBot.Core/Services/ShardsCoordinator.cs:86-104 | after construction the queue is exactly [0..N-1] (debug build: [1..N-1]); the store has N records, record i being (i, Disconnected, 0, now + 20*i); every process slot is empty; the waiting list is empty; the flag is false |
| `LifecycleProperties.ThrottleSteps` | NadekoBot.Core/Services/ShardsCoordinator.cs:209-233 | any number of start-loop passes keep the invariant |
| `LifecycleProperties.StartLoopDrains` | NadekoBot.Core/Services/ShardsCoordinator.cs:212-230 | with lo..hi-1 queued, hi-lo passes start exactly those shards in id order with consecutive spawn numbers and drain the queue; the flag is set only by the next pass |
| `LifecycleProperties.BootstrapStartsEveryShard` | NadekoBot.Core/Services/ShardsCoordinator.cs:206-230 | from construction, N passes start every shard i with spawn number i while the flag stays false; the following pass sets it |
| `LifecycleProperties.StopResetsSlot` | NadekoBot.Core/Services/ShardsCoordinator.cs:138-150 | stopping an in-range shard sets its store slot to (id, Disconnected, 0, placeholder time) and its process slot to null; no other slot of either changes; queue, waiting list and flag are unchanged |
| `LifecycleProperties.StopIdempotent` | NadekoBot.Core/Services/ShardsCoordinator.cs:138-150 | stopping twice has the same result as stopping once |
| `LifecycleProperties.RestartInstallsFresh` | NadekoBot.Core/Services/ShardsCoordinator.cs:152-157 | a restart replaces exactly the shard's store slot, with the placeholder, and its process slot, with a freshly spawned process whose spawn number no other slot holds; every other slot of both, the queue, the waiting list and the flag are unchanged |
| `LifecycleProperties.HealthyReportClearsProbation` | NadekoBot.Core/Services/ShardsCoordinator.cs:166-182 | a report in a state other than Disconnected or Disconnecting overwrites the shard's store slot and removes the shard from the waiting list; queue and process table are unchanged |
| `LifecycleProperties.FirstStrikeOnlyLists` | NadekoBot.Core/Services/ShardsCoordinator.cs:170-176 | a first unhealthy report stores the record and adds the shard to the waiting list, with no stop and no enqueue |
| `LifecycleProperties.SecondStrikeRestarts` | NadekoBot.Core/Services/ShardsCoordinator.cs:186-199 | an unhealthy report for a listed in-range shard stops it, enqueues it and removes it from the list |
| `LifecycleProperties.TwoStrikes` | NadekoBot.Core/Services/ShardsCoordinator.cs:170-199 | two consecutive unhealthy reports: the first stops and enqueues nothing; the second stops the shard, enqueues it once and restores the waiting list |
| `LifecycleProperties.RecoveryBetweenStrikes` | NadekoBot.Core/Services/ShardsCoordinator.cs:170-182 | an unhealthy report followed by a healthy one leaves the waiting list, queue and process table as they were |
| `LifecycleProperties.ThrottleStepStartsFront` | NadekoBot.Core/Services/ShardsCoordinator.cs:212-227 | with a non-empty queue a pass dequeues the front id, removes it from the waiting list and installs a process in its slot whose id no other slot holds; other slots and the store are unchanged |
| `LifecycleProperties.ThrottleStepFills` | NadekoBot.Core/Services/ShardsCoordinator.cs:230 | with an empty queue a pass only sets the initial-fill flag |
| `LifecycleProperties.RestartWhileQueuedOrphans` | NadekoBot.Core/Services/ShardsCoordinator.cs:225-227 | a restart request for the front queued shard, followed by a start-loop pass, leaves the restart's process in no slot, although it was never stopped |
| `LifecycleProperties.SweepOneRestarts` | NadekoBot.Core/Services/ShardsCoordinator.cs:268-274 | a stale record of an in-range shard stops and enqueues it; its store slot becomes the record with time now + 30*Count, Count taken after the enqueue, which is not stale at now |
| `LifecycleProperties.SweepStaleRestartsAll` | NadekoBot.Core/Services/ShardsCoordinator.cs:266-277 | a completed pass queues the shard of every stale record, empties its process slot and leaves its store slot not stale; nothing queued, empty or fresh before is undone |
| `LifecycleProperties.SweepWithoutStaleQueuesDead` | NadekoBot.Core/Services/ShardsCoordinator.cs:253-263 | with no stale record, the pass appends to the queue exactly the null or exited process slots (nothing in a debug build) and changes nothing else |
| `LifecycleProperties.SweepRestartsEveryStale` | NadekoBot.Core/Services/ShardsCoordinator.cs:250-277 | after a completed pass, the shard named by every record stale at now is queued, its process slot is empty and its store slot is no longer stale |
| `LifecycleProperties.SweepClearsStaleness` | NadekoBot.Core/Services/ShardsCoordinator.cs:250-277 | when every record sits at its own shard's index, the pass completes and leaves no stale record in the store |
| `LifecycleProperties.InitialConsistent` | NadekoBot.Core/Services/ShardsCoordinator.cs:96-104 | after construction store slot i holds a record of shard i |
| `LifecycleProperties.StopKeepsConsistent` | NadekoBot.Core/Services/ShardsCoordinator.cs:138-157 | a stop or restart request for an in-range id keeps every store slot i holding a record of shard i |
| `LifecycleProperties.NegativeStopBreaksConsistency` | NadekoBot.Core/Services/ShardsCoordinator.cs:141-146 | a stop request with id -1 fails at the table access after writing a placeholder with shard id -1 into the last store slot, so slot and record no longer match |
| `LifecycleProperties.ReportKeepsConsistent` | NadekoBot.Core/Services/ShardsCoordinator.cs:159-199 | a report for an in-range shard keeps every store slot i holding a record of shard i, through the escalation as well |
| `LifecycleProperties.ThrottleStepKeepsStore` | NadekoBot.Core/Services/ShardsCoordinator.cs:212-230 | a start-loop pass leaves the store unchanged |
| `LifecycleProperties.SweepStaleKeepsConsistent` | NadekoBot.Core/Services/ShardsCoordinator.cs:266-277 | handling records that name in-range shards keeps every store slot i holding a record of shard i, since each record is written back at its own id |
| `LifecycleProperties.SweepKeepsConsistent` | NadekoBot.Core/Services/ShardsCoordinator.cs:246-277 | a health-loop pass keeps every store slot i holding a record of shard i |
| `LifecycleProperties.FillStaysDone` | NadekoBot.Core/Services/ShardsCoordinator.cs:230 | once the initial fill is done, every transition leaves it done |
| `Coordinator.ShardsCoordinator.constructor` | NadekoBot.Core/Services/ShardsCoordinator.cs:63-104 | the constructed object is valid and its state is `Lifecycle.Initial` for the shard count, the time and the build kind |
| `Coordinator.ShardsCoordinator.StartShard` | NadekoBot.Core/Services/ShardsCoordinator.cs:291-300 | spawning returns a handle with the next spawn number for the shard and changes nothing else |
| `Coordinator.ShardsCoordinator.OnStop` | NadekoBot.Core/Services/ShardsCoordinator.cs:138-150 | keeps the object valid and performs `Lifecycle.OnStop` |
| `Coordinator.ShardsCoordinator.OnRestart` | NadekoBot.Core/Services/ShardsCoordinator.cs:152-157 | keeps the object valid and performs `Lifecycle.OnRestart` |
| `Coordinator.ShardsCoordinator.OnShardUnavailable` | NadekoBot.Core/Services/ShardsCoordinator.cs:186-199 | keeps the object valid and performs `Lifecycle.OnShardUnavailable` |
| `Coordinator.ShardsCoordinator.OnDataReceived` | NadekoBot.Core/Services/ShardsCoordinator.cs:159-184 | keeps the object valid and performs `Lifecycle.OnDataReceived` |
| `Coordinator.ShardsCoordinator.ThrottleStep` | NadekoBot.Core/Services/ShardsCoordinator.cs:212-230 | performs `Lifecycle.ThrottleStep`; returns the started shard (the old front) or none, and reports an auto-restart exactly when a shard started after the initial fill |
| `Coordinator.ShardsCoordinator.Sweep` | NadekoBot.Core/Services/ShardsCoordinator.cs:246-277 | keeps the object valid and performs `Lifecycle.Sweep` with the object's build kind |
| `Coordinator.ShardsCoordinator.EnqueueDead` | NadekoBot.Core/Services/ShardsCoordinator.cs:256-261 | the loop over the process table enqueues exactly `DeadSlots` in slot order and changes nothing else |
| `Coordinator.ShardsCoordinator.RestartStale` | NadekoBot.Core/Services/ShardsCoordinator.cs:266-277 | the loop over the stale records performs `Lifecycle.SweepStale` and stops at the first failing record |
| `Coordinator.ShardsCoordinator.RestartOne` | NadekoBot.Core/Services/ShardsCoordinator.cs:268-275 | the body of that loop performs `Lifecycle.SweepOne` |

## Left out

- The Redis connection, the key prefix and the pub/sub subscriptions (lines 73, 82-84, 109-129) are not modelled. The store is an in-memory sequence, and each handler is a method that a caller invokes.
- JSON decoding is not modelled. A report payload that decodes to null or fails to decode is `None` and is dropped. For restart and stop requests, the shard id is taken as already decoded; a payload that fails to decode throws before anything happens.
- `Process.Start`, `Kill`, `Dispose` and `HasExited` are operating-system calls. Spawning returns a fresh abstract handle and always succeeds. Stop always empties the slot, since the source swallows kill errors. `HasExited` is the `exited` set of spawn numbers passed to the sweep. The command line built from the credentials and the coordinator's own process id is not modelled.
- Locks, `Task.Run`, `Task.Delay` and the `TaskCompletionSource` are concurrency and timing. Each loop pass and each handler is one atomic step, and the 6 s and 10 s pauses are not modelled. The health loop's wait for the initial fill is the precondition `initialFillDone` of `Sweep`.
- The clock is the parameter `now`. The constructor's separate clock reads (lines 80 and 100) use one `now`. The stale filter reads the clock again each time it is enumerated; the model evaluates it once.
- The die channel's `Environment.Exit(0)`, logging, credentials loading and the crash cleanup in `RunAndBlockAsync` (302-320) are not modelled. Logging survives only as the `autoRestart` result of `ThrottleStep`.
- After a failed sweep pass, the rethrow at line 279 ends the health loop for good. The model ends only that pass (`ok = false`) and does not model the loop's lifetime.
- Lifecycle.StaleRecords: its contract states which records are selected, not that they stay in store order. Its body keeps that order, and the class's sweep uses the same function.
