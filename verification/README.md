# A verified model of billiard's coordination core

billiard is a process pool together with the shared-memory allocator, the semaphore-based
synchronisation and the message layers underneath it. This project models the parts of it
whose correctness depends on every interleaving, or on every sequence of calls, and proves
what they are for.

| module | what it models |
|---|---|
| `ConditionVariable`, `ConditionCalls` | `Condition.wait`, `notify` and `notify_all` over one lock and three counting semaphores; what whole calls promise |
| `RecursiveLock` | the recursive lock: a semaphore shared by all processes and a count kept by each of them |
| `Rounding`, `Blocks`, `FreeIndex`, `SharedHeap` | the best-fit allocator with its four free-list indexes and its deferred frees |
| `ResultCredit`, `ApplyJobs`, `ResultHandling`, `PoolProtocol` | ACK and READY handling, crediting of workers, the life of an apply job, and the handler object over whole runs of a pool |
| `IMapIterators`, `MapChunks` | ordered and unordered reassembly in `imap`, chunked reassembly in `map` |
| `PoolTables`, `RestartLimiter` | the tables of workers, repopulation, and the limit on restarts |
| `FeederQueue`, `JoinableQueue` | the bounded queue with a feeder thread per process; `put`, `task_done` and `join` |
| `Framing` | length-prefixed messages over partial writes, partial reads and interruptions |
| `ManagerRefs` | reference counting between a manager's server and its proxies |
| `Tally`, `Optional` | sizes of sets, counting and adding up over maps; the option type |

`dafny verify dfyconfig.toml` checks the whole project.

## How to read the model

Concurrent code is a step system: a state, the actions of threads or processes, `Enabled`, `Do`,
and a predicate `Run` for an arbitrary interleaving. Each such module proves that every step
keeps an invariant, and then states what holds at every moment of every run. Where a state keeps
history, it is proved to be what the events of the run say. Objects whose
methods run under one lock are classes; each method is proved to do to the fields what a
specification function says, and the theorems are about those functions.

- A semaphore operation is one step. In `ConditionVariable` the lock is a mutex with an owner;
  that the recursive lock is one, and that `wait` leaves and re-enters it k deep, is proved in
  `RecursiveLock` (`WaitRestoresDepth`). `JoinableQueue` contains a whole `ConditionVariable`
  state and takes its steps, so the theorems about the condition apply to it.
- `SharedHeap`: the garbage collector may call `free` while the lock is held. Such a call only
  appends to the pending list, so it is equivalent to one that comes before or after the
  operation under way; `DoFree` has it as a call that does not get the lock. A block that has
  not been put back by `DrainAll` counts as live.
- `ResultCredit`: messages of one worker arrive in the order sent, messages of different
  workers in any order. This admits at least the interleavings of the shared result queue.
- `Framing`: what the system does to each read and write is an argument of the operation. If
  these answers run out, the operation is still blocked, and its contract bounds how many
  answers that can have been.

## Where the code says something else than expected

- A `chunksize` below one is accepted by `map`. The result is then ready at once and full of
  `None`, so it is right exactly if the input is empty (`MapChunks.BadChunksize`,
  `MapChunks.MapAsyncCorrect`). A negative one also raises ValueError in the task handler when
  it asks for the first batch; the result is the same.
- `_ensure_messages_consumed` can find everything consumed although a result is unhandled: a
  signal that raises between a worker's READY and its counting of the task makes it compare with
  a count that is one too small. That is the only way (`ResultCredit.ConsumedIffCounted`,
  `ResultCredit.StoppedBeforeCounting`).
- `EOFError` does not mean that the stream ended between two messages: an end right after the
  header of a non-empty message raises it as well, and these are the only two cases
  (`Framing.Truncated`).
- A limit of maxR restarts in maxT seconds lets up to 2 * maxR - 1 restarts pass within maxT
  seconds, and no more (`RestartLimiter.RestartBound`, `RestartLimiter.BoundIsTight`).
- `shrink(n)` with n < 1 shrinks by one, and a `shrink` that raises because too few workers are
  idle has lowered the target size all the same (`PoolTables.Pool.Shrink`).

## Model

| member | source | states |
|---|---|---|
| `ConditionVariable.StepInv` | billiard/synchronize.py:268-329 | Every step of `wait`, `notify` and `notify_all`, and every timeout, keeps mutual exclusion and the accounting: sleeping_count minus woken_count, corrected by the notifier's phase, is the number of threads between going to sleep and reporting awake |
| `ConditionVariable.AssertsHold` | billiard/synchronize.py:291-329 | In every run, with any number of waiters and timeouts at any moment, no assert of `notify` or `notify_all` fails, and wait_semaphore is zero whenever no notifier is active |
| `ConditionVariable.QuietCounts` | billiard/synchronize.py:268-310 | While no notifier is at work, sleeping_count - woken_count is exactly the number of sleepers |
| `ConditionVariable.NotifyAllReturns` | billiard/synchronize.py:308-329 | The step by which `notify_all` returns leaves all three semaphores at zero and nobody asleep or waking |
| `ConditionCalls.NotifyAllWakesEverybody` | billiard/synchronize.py:308-329 | In every run, a call of `notify_all`, followed from the call to its return, comes back only when everybody who was asleep at the call has been woken or has timed out, and has reported so; all three semaphores are back at zero; without timeouts as many waits return True as were asleep |
| `ConditionVariable.NotifierNotStuck` | billiard/synchronize.py:301-325 | While a notifier blocks on woken_count, some thread inside `wait` can take a step: no deadlock |
| `ConditionVariable.VariantOwn` | billiard/synchronize.py:297-329 | Every step of the notifier lowers a bound on the steps it has left |
| `ConditionVariable.VariantOther` | billiard/synchronize.py:268-329 | No step of another thread raises that bound |
| `ConditionVariable.NotifierTerminates` | billiard/synchronize.py:291-329 | In any run a notifier takes at most as many steps as its bound says: the draining and counting loops terminate, whatever the others do |
| `ConditionVariable.ExactStep` | billiard/synchronize.py:268-306 | Without timeouts every step keeps the exact number of sleepers: what it was at the call, less the one released |
| `ConditionCalls.NotifyWakesOne` | billiard/synchronize.py:291-306 | In every run without timeouts, a call of `notify`, followed from the call to its return, wakes exactly one of the threads asleep at the call, whose `wait` returns True, or none if there was none |
| `ConditionVariable.TakenWhileNotifying` | billiard/synchronize.py:280-285 | A `wait` takes a token of wait_semaphore, and so returns True, only while a notifier is at work |
| `ConditionCalls.NotifyAtMostOneTrue` | billiard/synchronize.py:280-306 | In every run, with timeouts at any moment, a call of `notify` makes at most one `wait` return True |
| `ConditionCalls.WaitReturns` | billiard/synchronize.py:268-289 | In every run, a call of `wait` comes back owning the lock and only after a sleep; it returns True exactly if it was woken, taking a token, and False exactly if it gave up |
| `ConditionCalls.SomebodyMoves` | billiard/synchronize.py:268-329 | No deadlock: whenever a thread is inside a call and not asleep, or owns the lock, some thread can take a step |
| `ConditionCalls.AnytimeTimeout` | billiard/synchronize.py:280-282 | A timeout may strike at every moment of a sleep, and the owner of the lock may make any call |
| `RecursiveLock.StepInv` | Modules/_billiard/semaphore.c:276-402 | Acquiring, booking, posting, unbooking, forking and the after-fork hook keep semaphore value plus owners at 1, although taking the semaphore and counting are separate steps |
| `RecursiveLock.MutualExclusion` | Modules/_billiard/semaphore.c:276-402 | In every run, over all threads of all processes, at most one owns the lock |
| `RecursiveLock.FreeIffUnowned` | Modules/_billiard/semaphore.c:276-402 | The semaphore is 1 exactly when nobody owns the lock or has its token |
| `RecursiveLock.StepDepth` | Modules/_billiard/semaphore.c:276-402 | Each step changes only the depth of the thread that takes it |
| `RecursiveLock.RunDepth` | Modules/_billiard/semaphore.c:569-574 | Along any run a thread's depth is what it was plus what its own calls gained; so a forked child never inherits ownership |
| `RecursiveLock.RefusedIffNotOwner` | Modules/_billiard/semaphore.c:345-358 | A release is refused exactly when the caller does not own the lock |
| `RecursiveLock.ReleasesSucceed` | billiard/synchronize.py:275-278 | As many releases as the thread is deep all succeed, whatever the others do in between |
| `RecursiveLock.AcquireAnswers` | Modules/_billiard/semaphore.c:276-342 | A call of acquire comes back one level deeper, with the semaphore at zero, or empty-handed and changing nobody's depth |
| `RecursiveLock.ForkGivesNothing` | Modules/_billiard/semaphore.c:569-574 | The copy of a thread in a forked child does not own the lock, neither before nor after the hook, and its parent loses nothing |
| `RecursiveLock.NobodyKept` | Modules/_billiard/semaphore.c:276-342 | A thread can acquire, going deeper exactly if it owns the lock; one that waits can give up at any time, and gets the lock exactly when the semaphore is free |
| `RecursiveLock.WaitRestoresDepth` | billiard/synchronize.py:275-289 | `Condition.wait` entered k deep, anywhere in a run and whatever the others do meanwhile: none of its k releases is refused, while asleep the thread neither owns the lock nor has its token, and after k acquires it owns it k deep |
| `Rounding.RoundUpIsCeiling` | billiard/heap.py:135-139 | The bit-mask formula gives the smallest multiple of the alignment that is at least n |
| `Blocks.TilesMerge` | billiard/heap.py:163-182 | Replacing two adjacent blocks by their union keeps the tiling of the arenas |
| `Blocks.TilesSplit` | billiard/heap.py:251-256 | Cutting a block in two keeps the tiling of the arenas |
| `Blocks.FreeIffGap` | billiard/heap.py:163-191 | If blocks tile the arenas and no two free blocks touch, a block is free exactly if it is a maximal gap between live blocks |
| `SharedHeap.Canonical` | billiard/heap.py:163-206 | Arenas and live blocks determine the free set, the sorted lengths and all indexes (up to the order within one length) |
| `SharedHeap.DrainOkIff` | billiard/heap.py:208-216 | Draining the pending list succeeds exactly if its blocks are live and distinct, and then takes away exactly those |
| `SharedHeap.DrainStopsAt` | billiard/heap.py:208-216 | Where draining fails it has freed blocks off the end of the list, up to and including one that is not live, and keeps the rest |
| `SharedHeap.DeferredInOrder` | billiard/heap.py:230-233 | Frees that do not get the lock are kept in the order in which they come |
| `SharedHeap.FreeRunEffect` | billiard/heap.py:218-241 | Any series of proper frees, each immediate or deferred, succeeds, and what is live and not pending is what it was less the freed blocks |
| `SharedHeap.OrderIndependent` | billiard/heap.py:208-241 | Freeing the same blocks in any two orders, immediately or deferred, ends with the same free set, sorted lengths and indexes |
| `SharedHeap.FreeSeries` | billiard/heap.py:218-241 | The `Heap` object itself, under any series of calls of `free`, stays valid and follows that specification |
| `SharedHeap.FreeEitherWay` | billiard/heap.py:208-241 | Two `Heap` objects with the same arenas and live blocks that free the same blocks, each in its own order, now or later, end with the same live blocks, free blocks and indexes once both have drained their pending lists |
| `SharedHeap.Heap.constructor` | billiard/heap.py:122-133 | A new heap is valid and empty |
| `SharedHeap.Heap.Absorb` | billiard/heap.py:193-206 | Taking a free block out of all four indexes: no lookup or removal fails, and they then describe the free set without it |
| `SharedHeap.Heap.FreeBlock` | billiard/heap.py:163-191 | Giving back a block restores a well-kept heap: tiled, aligned, no two free blocks touching, indexes in agreement |
| `SharedHeap.Heap.FreePendingBlocks` | billiard/heap.py:208-216 | The loop drains the pending list as specified and keeps the heap valid |
| `SharedHeap.Heap.Free` | billiard/heap.py:218-241 | Refused in another process; otherwise frees now or defers as specified; KeyError exactly if a block is not live |
| `SharedHeap.Heap.TakeBlock` | billiard/heap.py:141-161 | Takes out a free block of the smallest sufficient length and leaves `_size` alone, or if none is long enough makes one new arena and doubles `_size` |
| `SharedHeap.Heap.Malloc` | billiard/heap.py:243-257 | Returns a block of exactly max(n, 1) rounded up to 8, aligned, inside its arena, overlapping no live block, at the start of a smallest gap it fits in; a new arena, and a doubled `_size`, only if it fits in none; a forked heap starts afresh; refused exactly outside 0..sys.maxsize-1 |
| `SharedHeap.ViewsDisjoint` | billiard/heap.py:264-285 | The memory views of two buffers alive at once lie inside their arenas and share no byte |
| `ResultCredit.AckedNotes` | billiard/pool.py:875-882 | After an ACK the task is noted for its sender and for nobody else |
| `ResultCredit.ReadiedNotes` | billiard/pool.py:889-897 | A READY raises at most the counter of the worker its task is noted for |
| `ResultCredit.StepInv` | billiard/pool.py:875-923 | Every step of workers, result handler and pool keeps the two tables inverse and each live worker's messages creditable to it |
| `ResultCredit.CounterExact` | billiard/pool.py:889-923 | In every run a worker's on_ready_counter is the number of its READY messages that the handler has taken, counted from the events |
| `ResultCredit.WorkerIsEvents` | billiard/pool.py:356-440 | In every run a worker is at the task it took last and has not left, has counted the tasks it has booked, and lives unless it has died |
| `ResultCredit.WorkerGoesOn` | billiard/pool.py:356-440 | A living worker can always go on: count what it has sent, finish or refuse what it is at, or take any new task |
| `ResultCredit.ConsumedIffCounted` | billiard/pool.py:451-465 | `_ensure_messages_consumed` finds its condition true exactly when no result of the worker is unhandled, unless the worker was stopped between sending a READY and counting it and just that READY is unhandled; in that case, and in no other, it is wrong |
| `ResultCredit.ConsumedUpTo` | billiard/pool.py:416-465 | It finds its condition true exactly when no more READY messages are unhandled than are sent and not counted |
| `ResultCredit.StoppedBeforeCounting` | billiard/pool.py:416-465 | A run in which it is wrong: a worker stopped right after its READY finds everything consumed |
| `ApplyJobs.StepInv` | billiard/pool.py:1926-1961 | Every handler keeps: in the cache exactly while not both accepted and resolved; resolved at most once |
| `ApplyJobs.JobLifeCycle` | billiard/pool.py:1279-1333 | In every run of submit, ACK, READY, hard timeout, reaping and lost marking each job is resolved at most once, is cached exactly while not both accepted and resolved, and gets WorkerLostError only if its worker has left the pool |
| `ApplyJobs.OutcomeFinal` | billiard/pool.py:1926-1945 | A job's outcome never changes once it is set |
| `ApplyJobs.StepVerdict` | billiard/pool.py:739-747 | Every event resolves an unresolved job exactly as the source promises, whatever the cache holds: READY by what it brought, a hard timeout by TimeLimitExceeded, reaping by Terminated if the worker was terminated for it and else by marking it as lost, the end of the grace by WorkerLostError if it is marked |
| `ApplyJobs.OutcomeHasCause` | billiard/pool.py:1279-1333 | In every run the outcome of a job is the verdict of an event that found it unresolved: no result but the one that READY brought, no time limit that has not struck, no lost or terminated worker without cause |
| `ApplyJobs.VerdictFinal` | billiard/pool.py:1926-1945 | Conversely, the first such event gives the job its outcome for good |
| `ApplyJobs.WorkerAcked` | billiard/pool.py:1947-1961 | In every run the worker noted for a job is the one whose ACK was handled |
| `ResultHandling.ResultHandler.OnAck` | billiard/pool.py:875-887 | The handler does to credit tables and jobs what one ACK step says |
| `ResultHandling.ResultHandler.Submit` | billiard/pool.py:1825-1862 | A new job enters the cache, neither accepted nor resolved |
| `ResultHandling.ResultHandler.OnWorkerUp` | billiard/pool.py:1240-1264 | A new worker gets a counter at zero |
| `ResultHandling.ResultHandler.OnReady` | billiard/pool.py:889-910 | The handler does to credit tables and jobs what one READY step says, also for a job no longer cached |
| `ResultHandling.ResultHandler.OnWorkerExit` | billiard/pool.py:919-923 | Forgets the task and the counter of a reaped worker |
| `ResultHandling.ResultHandler.OnHardTimeout` | billiard/pool.py:739-747 | Resolves the job by TimeLimitExceeded unless it is resolved |
| `ResultHandling.ResultHandler.OnLostTimeout` | billiard/pool.py:1279-1284 | Resolves by WorkerLostError a cached, unresolved job that is marked as lost |
| `ResultHandling.ResultHandler.ReapJobs` | billiard/pool.py:1314-1333 | The loop over the cache marks or terminates exactly the unresolved jobs acknowledged by workers that are gone, whatever the order of the loop |
| `PoolProtocol.JobsEnabled` | billiard/pool.py:356-428 | What the life of an apply job takes for granted follows from what workers do: each job is acknowledged at most once and answered at most once, by a worker that is or was in the pool |
| `PoolProtocol.StepInv` | billiard/pool.py:863-935 | Every event, of workers, handlers, timeouts and reaping, keeps the invariants of jobs and of credit together |
| `PoolProtocol.Serve` | billiard/pool.py:863-935 | A `ResultHandler` object under any series of events: its tables stay those of the protocol, so each job is resolved at most once, is cached exactly while not both accepted and resolved, and its outcome is the very result that its worker has sent, or a time limit that has struck, or the loss or termination of its worker; each counter is the number of READY messages handled |
| `IMapIterators.IMapIterator.Set` | billiard/pool.py:2084-2099 | Stores a result and moves all results now in turn from `_unsorted` to `_items`, as specified |
| `IMapIterators.IMapIterator.SetUnordered` | billiard/pool.py:2125-2132 | Stores a result in line at once, and finishes the job with the last one, as specified |
| `IMapIterators.IMapIterator.SetLength` | billiard/pool.py:2101-2107 | Announces the length, and finishes the job if everything is in already, as specified |
| `IMapIterators.IMapIterator.TryNext` | billiard/pool.py:2060-2076 | One locked part of `next`: the next item, StopIteration, or nothing yet |
| `IMapIterators.StepOrdered` | billiard/pool.py:2041-2116 | Every arrival, announcement of the length and `next` keeps: consumed items followed by `_items` are the results 0.._index-1 in order |
| `IMapIterators.IMapRefinesSequential` | billiard/pool.py:2041-2116 | In every run the consumed items are a prefix of the results, the next item is the next result, iteration stops exactly after all of them, the iterator is ready exactly when all are in and the length is known, and the job is deleted at most once |
| `IMapIterators.IMapComplete` | billiard/pool.py:2084-2107 | Once all results have arrived, in any order, all are consumed or in line, and the job is deleted exactly once |
| `IMapIterators.UnorderedComplete` | billiard/pool.py:2123-2132 | The unordered variant conserves the multiset of results and deletes the job exactly once |
| `IMapIterators.UnorderedStops` | billiard/pool.py:2123-2132 | The unordered variant stops exactly when all results have been consumed and the length is known, and they are then the results as a multiset |
| `MapChunks.GetTasks` | billiard/pool.py:1688-1694 | The generator's loop yields the successive slices of the input; a negative size raises, exactly, before the first one |
| `MapChunks.BatchAt` | billiard/pool.py:1688-1694 | Batch i is the slice from i * chunksize to (i + 1) * chunksize |
| `MapChunks.NumberLeftMatches` | billiard/pool.py:1993-1998 | `_number_left` starts at the number of batches generated |
| `MapChunks.MapResult.Set` | billiard/pool.py:2000-2018 | Stores a chunk, or a failure, as specified |
| `MapChunks.ArrivalsAssemble` | billiard/pool.py:2000-2010 | After any distinct chunks in any order exactly their positions hold the mapped values and `_number_left` is the number of the others |
| `MapChunks.MapIsSequential` | billiard/pool.py:1663-1694 | For every non-empty input and chunksize of at least one, in any order of arrival, the result is ready exactly when the last chunk is in and is then the mapped input |
| `MapChunks.HandledFailure` | billiard/pool.py:2011-2018 | Once a chunk has failed the result is ready, unsuccessful, out of the cache, and for good holds the exception that came first |
| `MapChunks.ReadyIff` | billiard/pool.py:2000-2018 | The result is ready exactly if a chunk has failed or all have arrived, and successful exactly if none has failed |
| `MapChunks.BadChunksize` | billiard/pool.py:1993-1996 | With a chunksize below one the result is ready at once, out of the cache, and right exactly if the input is empty |
| `MapChunks.MapAsyncCorrect` | billiard/pool.py:1673-1686 | For every input and every chunksize, asked for or chosen, `map` gives the mapped input exactly if no chunksize below one was asked for or the input is empty |
| `MapChunks.DefaultChunksize` | billiard/pool.py:1673-1678 | Without a chunksize the call fails exactly for a pool without workers; the chosen one is the smallest that makes at most four chunks a worker; one that is asked for is used as it is, unless the input is empty |
| `RestartLimiter.RestartState.Step` | billiard/common.py:165-182 | The method updates R and T, and raises, as specified |
| `RestartLimiter.WindowCount` | billiard/common.py:165-182 | R counts the steps since the current window opened, never more than maxR |
| `RestartLimiter.RaisesIffFull` | billiard/common.py:165-182 | A step raises exactly if the window is open and full |
| `RestartLimiter.RaisesInCycle` | billiard/common.py:165-182 | In any run, exceptions or not, exactly every (maxR + 1)-st step of a window raises, and none if there is no limit |
| `RestartLimiter.RestartBound` | billiard/common.py:161-182 | No half-open interval of length maxT contains more than 2 * maxR - 1 steps of a run without exception |
| `RestartLimiter.BoundIsTight` | billiard/common.py:161-182 | For every limit there is a run that reaches this bound |
| `PoolTables.Pigeonhole` | billiard/pool.py:1433-1436 | Fewer workers than n leave one of the indices 0..n-1 unused |
| `PoolTables.Pool.AvailIndex` | billiard/pool.py:1433-1436 | Finds the smallest unused index, always |
| `PoolTables.Pool.constructor` | billiard/pool.py:1240-1264 | The initial workers have the indices 0..processes-1 and all tables agree |
| `PoolTables.Pool.CreateWorker` | billiard/pool.py:1240-1264 | Enters a worker into all tables, keeping indices and pids distinct |
| `PoolTables.Pool.JoinExited` | billiard/pool.py:1290-1313 | Drops exactly the exited workers from all tables, keeps the order and the counters of the others, and returns the exit codes in the order found |
| `PoolTables.SurvivingMembers` | billiard/pool.py:1290-1313 | The workers left are exactly those that have not exited |
| `PoolTables.WorkerAccounted` | billiard/pool.py:1290-1313 | Every exited worker's exit code is in the list after those of the exited workers behind it, and every other worker keeps its place after the survivors before it |
| `PoolTables.NobodyUnaccounted` | billiard/pool.py:1290-1313 | Survivors and exit codes together are as many as there were workers |
| `PoolTables.IdleMembers` | billiard/pool.py:1408-1415 | The idle workers are exactly those that no job is assigned to, each once |
| `PoolTables.Pool.Repopulate` | billiard/pool.py:1417-1431 | Without a restart error the pool has `_processes` workers afterwards, or as many as were created before it left the state RUN, and never fewer than before; it raises exactly at the first worker for which the restart limiter, after the restarts counted before it, refuses; workers are only added |
| `PoolTables.NoExitNoRestart` | billiard/pool.py:1423-1428 | Without exit codes the limiter is not consulted and no worker is refused |
| `PoolTables.CleanExitsPass` | billiard/pool.py:1423-1428 | Clean and recycled exits are replaced without consulting the limiter |
| `PoolTables.CrashesConsult` | billiard/pool.py:1423-1428 | After crashes the limiter is consulted for every new worker, also beyond the number of crashes |
| `PoolTables.MixtureConsults` | billiard/pool.py:1423-1428 | In a mixture, exactly for those whose exit code is a crash or missing |
| `PoolTables.Pool.Grow` | billiard/pool.py:1401-1406 | Raises the target size by n |
| `PoolTables.Pool.Shrink` | billiard/pool.py:1388-1399 | Lowers the target by one per idle worker, at most max(n, 1), and raises exactly if there are fewer idle workers than that |
| `FeederQueue.StepInv` | billiard/queues.py:85-122 | Every step of putters, feeders, getters, closing and forking keeps conservation, order, and no lost wake-up |
| `FeederQueue.Conservation` | billiard/queues.py:85-122 | In every run semaphore value plus items held by putters, buffers, feeders, pipe and getters is maxsize, and the bounded semaphore is never released too often |
| `FeederQueue.PutOrder` | billiard/queues.py:222-263 | In every run what callers of `get` have got of the items of a process, then what is in the pipe of them, then what the process has yet to send, is exactly what `put` was called with there, in order; told from the events alone, not from history kept by the model |
| `FeederQueue.NoLostWakeup` | billiard/queues.py:214-244 | A feeder waiting without notification has an empty buffer or is about to be notified; if the lock is free and the feeder cannot move, everything put in its process has been sent, and if the queue is closed the feeder has stopped |
| `FeederQueue.SemaphoreIsEvents` | billiard/queues.py:85-122 | In every run the semaphore stands at maxsize less the puts admitted plus the gets that have returned |
| `FeederQueue.CallsAdmitted` | billiard/queues.py:85-122 | A put is admitted exactly if the queue is open and there is room; an item in the pipe can be got, and a get that has it can return |
| `FeederQueue.FeederBlocks` | billiard/queues.py:236-262 | A feeder stands still exactly if it is not running, waits un-notified, or needs the lock while somebody holds it |
| `FeederQueue.LockHolderMoves` | billiard/queues.py:91-95 | Whoever holds the lock of a process can take a step |
| `JoinableQueue.StepInv` | billiard/queues.py:310-334 | Every step of `put`, `task_done`, `join` and the condition underneath keeps the invariant |
| `JoinableQueue.UnfinishedExact` | billiard/queues.py:310-322 | In every run, whenever no put is between appending its item and counting it, the unfinished count is puts minus task_dones |
| `JoinableQueue.UnfinishedIsPutsMinusDones` | billiard/queues.py:310-329 | In every run, whenever nobody is inside `put` or `task_done`, the unfinished count is the calls of `put` that have returned minus the calls of `task_done` that have returned without an exception |
| `JoinableQueue.HistoryIsEvents` | billiard/queues.py:310-334 | Items appended, tasks done, items got and calls of `task_done` are those that the steps of the run show, and only `task_done` raises |
| `JoinableQueue.RaisesIffAllDone` | billiard/queues.py:324-329 | `task_done` raises exactly if every item put has been marked done already |
| `JoinableQueue.ReceivedNeverRaises` | billiard/queues.py:310-329 | `task_done` called only for items received never raises, although an item can be received before its put has counted it |
| `JoinableQueue.NoJoinForgotten` | billiard/queues.py:324-334 | At zero and with the lock free, no call of `join` is asleep |
| `JoinableQueue.JoinSawZero` | billiard/queues.py:331-334 | In every run `join` never raises, and returns only if the count was zero at some moment since the call |
| `JoinableQueue.SomebodyMoves` | billiard/queues.py:310-334 | No deadlock: whenever a thread is inside a call, other than a `join` that sleeps, some thread can take a step |
| `JoinableQueue.CallsAdmitted` | billiard/queues.py:310-334 | Any call can be made by a thread that is not inside one |
| `Framing.PackUnpack` | billiard/connection.py:440-460 | The header round trip |
| `Framing.PackBigEndian` | billiard/connection.py:440-443 | A header is the length in four bytes, the most significant first |
| `Framing.UnpackSigned` | billiard/connection.py:458-460 | Read back, four bytes are a signed number of 32 bits in two's complement |
| `Framing.LimitOnlyRefuses` | billiard/connection.py:458-463 | A limit refuses exactly what announces more, before any of it has arrived, and changes nothing else |
| `Framing.ParseLimited` | billiard/connection.py:458-463 | A message is refused exactly if it is longer than the limit |
| `Framing.ParseNegative` | billiard/connection.py:419-463 | A header with a negative length passes for an empty message |
| `Framing.SliceMeaning` | billiard/connection.py:205-224 | The part to send exists exactly if it lies within the buffer, and then is the bytes from the offset on |
| `Framing.RoundTrip` | billiard/connection.py:440-463 | For any list of messages shorter than 2^31 bytes the receiver gets the same list and then EOFError |
| `Framing.Truncated` | billiard/connection.py:419-463 | A truncated stream yields exactly its complete messages and then an error, which is EOFError exactly between messages or right after the header of a non-empty one |
| `Framing.Connection.Send` | billiard/connection.py:405-417 | Writes all of the buffer, or on failure a prefix of it, over any partial writes and interruptions |
| `Framing.Connection.SendFrame` | billiard/connection.py:440-456 | Puts exactly one frame on the stream, in one or two writes; refused exactly if the message is too long for the header |
| `Framing.Connection.SendBytes` | billiard/connection.py:205-224 | Sends the slice asked for, or refuses a bad offset or size, a closed or read-only connection |
| `Framing.Connection.Recv` | billiard/connection.py:419-438 | Reads exactly `size` bytes, or reports the end of the stream at once or in the middle, over any partial reads and interruptions |
| `Framing.Connection.RecvFrame` | billiard/connection.py:458-463 | Takes exactly one message off the stream, as specified by `Parse` |
| `Framing.Connection.RecvBytes` | billiard/connection.py:232-243 | As RecvFrame, with the limit on the length; a negative limit is refused, exactly; after an over-long message a writable connection stays open for writing only, and any other is closed |
| `Framing.SendAll` | billiard/connection.py:405-456 | Sending a list of messages puts their wire form on the stream, or if something fails a prefix of it |
| `Framing.ReceiveAll` | billiard/connection.py:419-463 | What is received is a prefix of the messages that the bytes determine, and all of them, with their ending, if the end of the stream is reached |
| `Framing.Converse` | billiard/connection.py:405-463 | The round trip over two connections: whatever happens to single reads and writes, what is received is a prefix of what was sent, and the same list if all was written and the receiver came to EOFError |
| `Framing.NothingAfterRefusal` | billiard/connection.py:170-175 | Whatever calls are made, after an over-long message is refused nothing is ever received again |
| `ManagerRefs.Server.Create` | billiard/managers.py:357-390 | Enters the object if it is new and takes one reference |
| `ManagerRefs.Server.Incref` | billiard/managers.py:406-408 | Takes a reference; KeyError exactly if the id is gone |
| `ManagerRefs.Server.Decref` | billiard/managers.py:410-416 | Gives one back, and drops the object from both tables with the last one |
| `ManagerRefs.StepInv` | billiard/managers.py:771-818 | Every create, open, close, fork, after-fork and failed request keeps the account of references |
| `ManagerRefs.CountsExact` | billiard/managers.py:361-416 | In every run the count is open proxies plus unfinished creates plus references leaked by failed requests; the object is there exactly while that is positive; both tables have the same ids |
| `ManagerRefs.OpenProxyKeepsObject` | billiard/managers.py:771-818 | An object with an open proxy is never dropped, and giving its reference back never fails in the server |
| `ManagerRefs.UnfinishedCreateKeepsObject` | billiard/managers.py:652-662 | The same for a create whose closing decref is outstanding |
| `ManagerRefs.NoFailureNoLeak` | billiard/managers.py:735-763 | If no request fails the count is exactly open proxies plus unfinished creates |
| `ManagerRefs.OpenAreRequests` | billiard/managers.py:771-818 | In every run exactly those proxies are open, and exactly those copies in forked children are waiting, that the requests have opened, forked and not closed |
| `ManagerRefs.CreatingAreRequests` | billiard/managers.py:652-662 | The same for unfinished creates |
| `ManagerRefs.LeakedAreFailures` | billiard/managers.py:787-818 | The references that count as leaked are those of the requests that have failed |
| `ManagerRefs.ForkKeepsProxies` | billiard/managers.py:812-818 | A forked child gets a proxy of its own as long as anybody holds a reference when it asks |

## Left out

- Operating system calls, pickling, authentication, logging, contexts and the Windows variants.
- `Event`, `Barrier` and the non-recursive locks: `Event` adds a flag to the condition modelled here; an upper bound for non-recursive semaphores under racing releases is disclaimed by the code itself; semaphores do not overflow.
- A process that dies while it owns a lock or is inside `wait`, and an exception raised by a signal handler inside `notify`.
- That `notify` reaches a thread that is still blocked when timeouts are used: a waiter that times out at that moment can absorb it.
- In `FeederQueue`: the feeder after a failure to serialise an item, a `put` under way while its process closes the queue, `join_thread` and `cancel_join_thread`, `SimpleQueue`, and timeouts of `put` and `get`, which change nothing.
- In the pool: NACK and cancel beyond the refusal of a task, callbacks, `putlock`, soft time limits, lost-worker marking and time limits of map and imap jobs, the passage of time before a lost job is marked, and the task and timeout handlers' loops.
- In `IMapIterators`: chunks of `imap` are flattened by a generator around the iterator; that is not modelled.
- In `ManagerRefs`: the connections of proxies and the per-thread `_idset`; a finalizer runs at most once.
- RestartLimiter.RestartBound: covers runs without an exception and without the reset of R by an ACK, as the reset lifts the bound on purpose.
- PoolTables.Pool.JoinExited: does not model waiting for the process; which workers have exited, and with what codes, is an argument.
- Clocks, pids of new processes, and which system calls are interrupted are arguments or arbitrary choices.
