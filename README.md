# A priority job scheduler with a worker pool, in Dafny

The modelled system is a Go service that accepts jobs over HTTP and runs them on a fixed pool of workers, highest priority first. A job has four fields: an id, a name, a priority from 1 to 100 and a duration.

The scheduler keeps pending jobs in a max-heap ordered by priority. The slice implements Go's `heap.Interface`, and `container/heap` keeps it ordered. Each worker has one running job (`Current`, nil when idle) and a hand-off channel with a buffer of one. A dispatcher goroutine hands queued jobs to the workers on every tick.

The repository has two scheduler packages. They share the queue and the worker but dispatch differently:

- `internal/scheduler` hands out at most one job per tick. It pops the highest-priority job and gives it to the first worker whose channel has room, even if that worker is busy. If no channel has room, the job goes back on the queue.
- `internal/web/scheduler` walks every worker on each tick. For each worker that is free while jobs remain, it pops a job and tries the hand-off, pushing the job back if the channel is full.

The HTTP handler for job creation checks three things in order: the name is non-empty, the priority is in 1..100, and the duration is positive. It then builds the job with its duration in nanoseconds and schedules it.

The model is sequential. Every goroutine step is one atomic method:

- a tick is one `TryDispatch` call;
- a worker taking a job from its channel is `WorkerReceive`;
- a job body returning is `WorkerFinish`.

Files:

- `Jobs.dfy`: the `Job` record, `Option` for Go pointers that may be nil, `Result` for checks, and the bookkeeping invariant shared by both schedulers. That invariant says:
  - every live job has a distinct id that has already been issued;
  - the number of live jobs is the number of ids issued minus the number of jobs finished.

  A job is live while it is queued, waiting in a channel or running.
- `PriorityQueue.dfy`: the queue as a class over a sequence of jobs.
  - The five slice methods: `Len`, `Less`, `Swap`, `Push`, `Pop`.
  - `container/heap`'s `up`, `down`, `Push` and `Pop` written over those methods, each proved to keep heap order and the multiset of jobs.
  - The root of a heap-ordered queue has maximum priority.
- `Workers.dfy`: the `Worker` class.
  - Its state: id, `Current`, the channel buffer of job pointers, and whether the channel is closed.
  - Its steps: send without blocking, receive, finish and close.
  - Pure views of a pool of workers, which the two dispatch policies are stated in.
- `Scheduler.dfy`: the one-job-per-tick scheduler of `internal/scheduler`.
- `WebScheduler.dfy`: the serve-every-free-worker scheduler of `internal/web/scheduler`.
- `Handlers.dfy`: the validation and job construction of the create endpoint, and the call that schedules the job.

Each scheduler class keeps a ghost sequence of worker views in step with its worker objects. Its `Valid()` invariant covers:

- the heap order of the queue;
- worker k has id k;
- every channel holds at most one job;
- every channel is open, or all are closed after the web scheduler's `Shutdown`;
- the id bookkeeping above.

Every state-changing method keeps `Valid()`, and the dispatch and worker steps conserve the live jobs.

## Model

| member | source | states |
|---|---|---|
| Jobs.AdmitKeepsIdsUnique | internal/scheduler/scheduler.go:92-94 | a job stamped with the next id is not already live, and after admitting it every live id is still distinct and already issued |
| Jobs.FinishKeepsAccounted | internal/scheduler/worker.go:64-66 | a job finishing keeps the bookkeeping: one live job fewer, one finished job more, ids still distinct |
| Jobs.RemoveKeepsIdsUnique | internal/scheduler/worker.go:64-66 | removing jobs from the live set keeps the live ids distinct and issued |
| PriorityQueue.Swapped | internal/scheduler/queue.go:11 | exchanging two positions: those two trade places, every other position is unchanged, and the multiset of jobs is the same |
| PriorityQueue.JobPriorityQueue.constructor | internal/scheduler/scheduler.go:24 | a new queue is empty |
| PriorityQueue.JobPriorityQueue.Len | internal/scheduler/queue.go:5 | the number of queued jobs; zero exactly when the queue is empty |
| PriorityQueue.JobPriorityQueue.Less | internal/scheduler/queue.go:7-9 | job i comes before job j exactly when its priority is strictly greater, so equal priorities are unordered |
| PriorityQueue.JobPriorityQueue.Swap | internal/scheduler/queue.go:11 | the queue becomes the old queue with positions i and j exchanged |
| PriorityQueue.JobPriorityQueue.Push | internal/scheduler/queue.go:13-15 | the job is appended after the unchanged old contents |
| PriorityQueue.JobPriorityQueue.Pop | internal/scheduler/queue.go:17-23 | on a non-empty queue, returns the last job and leaves exactly the first n-1 jobs |
| PriorityQueue.JobPriorityQueue.PushThenPop | internal/scheduler/queue.go:13-23 | a Push followed by a Pop returns the pushed job and restores the queue |
| PriorityQueue.JobPriorityQueue.Up | internal/scheduler/scheduler.go:85 | sifting up the one misplaced job restores heap order and keeps the multiset of jobs |
| PriorityQueue.JobPriorityQueue.Down | internal/scheduler/scheduler.go:72 | sifting down within a prefix restores heap order on that prefix, leaves the rest of the slice alone and keeps the multiset of jobs |
| PriorityQueue.JobPriorityQueue.HeapPush | internal/scheduler/scheduler.go:94 | heap.Push keeps heap order and adds exactly the pushed job |
| PriorityQueue.JobPriorityQueue.HeapPop | internal/scheduler/scheduler.go:72 | heap.Pop on a non-empty heap returns the old root, whose priority is at least that of every job left; the queue loses exactly that job and stays heap-ordered |
| PriorityQueue.RootDominates | internal/scheduler/queue.go:7-9 | in a heap-ordered queue the root's priority is at least that of the job at any position |
| PriorityQueue.RootIsMax | internal/scheduler/queue.go:7-9 | in a non-empty heap-ordered queue no job has a higher priority than the root |
| PriorityQueue.HeapOrderIsNotSorted | internal/scheduler/scheduler.go:130-138 | a heap-ordered queue need not be sorted by priority, so the queue listing is not a priority ranking |
| PriorityQueue.CopyJobs | internal/scheduler/scheduler.go:133-136 | the copy loop yields exactly the queue's jobs in internal order |
| Workers.Worker.constructor | internal/scheduler/worker.go:17-24 | a new worker has the given id, no current job and an empty open channel |
| Workers.Worker.IsFree | internal/scheduler/worker.go:70-74 | true exactly when the worker has no current job; changes nothing |
| Workers.Worker.GetCurrent | internal/scheduler/worker.go:76-80 | returns the current job unchanged |
| Workers.Worker.FreeAndCurrent | internal/scheduler/worker.go:70-80 | the worker reports itself free exactly when it reports no current job |
| Workers.Worker.TrySend | internal/scheduler/scheduler.go:76-81 | the non-blocking send succeeds exactly when the channel has room, busy worker or not, and then buffers the job; otherwise nothing changes |
| Workers.Worker.Receive | internal/scheduler/worker.go:36-53 | an idle worker takes the first buffered pointer: a job becomes `Current`, and a nil is skipped with the worker still idle. A closed, drained channel ends the loop, and an open, empty channel changes nothing |
| Workers.Worker.Finish | internal/scheduler/worker.go:64-66 | when the job body returns, `Current` is cleared and nothing else changes; the finished job is returned |
| Workers.Worker.Close | internal/web/scheduler/scheduler.go:94 | closing the channel sets the closed flag and nothing else |
| Workers.NewWorkers | internal/scheduler/scheduler.go:32-33 | n distinct new workers, worker k with id k, idle, with an empty open channel |
| Workers.StatusOf | internal/scheduler/scheduler.go:117-128 | one status per worker in slice order, with its id, busy exactly when it has a current job, and that job |
| Workers.HeldOfIdle | internal/scheduler/worker.go:17-24 | a pool of new workers holds no job |
| Workers.HandOffHeld | internal/scheduler/scheduler.go:77 | a hand-off into an empty channel adds exactly that job to what the pool holds |
| Workers.ReceiveHeld | internal/scheduler/worker.go:36-53 | receiving moves a job from the channel to `Current`, so the pool holds the same jobs |
| Workers.FinishHeld | internal/scheduler/worker.go:64-66 | finishing removes exactly the current job from what the pool holds |
| Workers.ShapeUpdate | internal/scheduler/worker.go:20 | changing one worker within the one-job channel capacity keeps ids, capacity and open/closed state across the pool |
| Workers.FirstOpenSlot | internal/scheduler/scheduler.go:75-82 | the lowest index whose channel has room, every lower channel full; none only when every channel is full |
| Workers.FirstOpenSlotAt | internal/scheduler/scheduler.go:75-82 | the index a left-to-right scan stops at is FirstOpenSlot |
| Workers.EligibleIndices | internal/web/scheduler/scheduler.go:66-67 | exactly the indices of free workers with room, in increasing order |
| Workers.EligibleAtMostFree | internal/web/scheduler/scheduler.go:66-77 | there are never more eligible workers than free ones |
| Workers.DeliveredAt | internal/web/scheduler/scheduler.go:66-77 | after hand-offs to distinct workers each recipient's channel holds exactly its job, and every other worker is unchanged |
| Scheduler.Scheduler.constructor | internal/scheduler/scheduler.go:21-47 | New(n): n idle workers with ids 0..n-1 in slice order, an empty queue and counter 0, with the invariant established |
| Scheduler.Scheduler.Schedule | internal/scheduler/scheduler.go:89-95 | the counter goes up by exactly one, the job is stamped with the new value (an id no live job has), exactly that job joins the queue and the workers are untouched |
| Scheduler.Scheduler.TryDispatch | internal/scheduler/scheduler.go:66-87 | on an empty queue nothing changes. Otherwise the highest-priority job goes into the channel of the lowest-index worker with room, busy or not, and no other worker changes; if every channel is full the queue keeps the same multiset. Live jobs are conserved |
| Scheduler.Scheduler.Offer | internal/scheduler/scheduler.go:75-82 | the job lands in the channel of the FirstOpenSlot worker and only there; if there is none, nothing changes |
| Scheduler.Scheduler.GetStatus | internal/scheduler/scheduler.go:117-128 | one entry per worker in order: id k, busy exactly when it has a current job, and that job |
| Scheduler.Scheduler.GetQueuedJobs | internal/scheduler/scheduler.go:130-138 | a copy of the queue in heap order, whose first job has maximum priority |
| Scheduler.Scheduler.WorkerReceive | internal/scheduler/worker.go:36-53 | a buffered job becomes the worker's current job, the receipt says it started (or that a nil was skipped), and the live jobs are unchanged; with an empty channel nothing changes |
| Scheduler.Scheduler.WorkerFinish | internal/scheduler/worker.go:64-66 | the finished job leaves the live set, its worker becomes idle, and the invariant holds with one more job completed |
| WebScheduler.Scheduler.constructor | internal/web/scheduler/scheduler.go:18-39 | New(n): n idle workers with ids 0..n-1, an empty queue, counter 0, channels open |
| WebScheduler.Scheduler.Schedule | internal/web/scheduler/scheduler.go:80-87 | the counter goes up by exactly one, the job is stamped with it (an id no live job has) and exactly that job joins the queue |
| WebScheduler.Scheduler.TryDispatch | internal/web/scheduler/scheduler.go:60-78 | on an empty queue nothing changes. Otherwise the first eligible workers in slice order each get one job, as many as min(eligible workers, queued jobs); their channels hold those jobs and no other worker changes. The queue loses exactly those jobs, each a highest-priority job at its turn, so their priorities never increase. Live jobs are conserved |
| WebScheduler.Scheduler.Pass | internal/web/scheduler/scheduler.go:66-77 | visiting every worker in order reaches the pass state over the whole pool, keeping the pool's shape and the live jobs |
| WebScheduler.Scheduler.Visit | internal/web/scheduler/scheduler.go:67-76 | a busy worker or an empty queue: nothing changes. A free worker with a full channel: the popped job is pushed back and the multiset is the same. A free worker with room: it receives the highest-priority job |
| WebScheduler.Scheduler.Shutdown | internal/web/scheduler/scheduler.go:89-98 | every worker's channel is closed, nothing else changes, and the invariant and live jobs are kept |
| WebScheduler.Scheduler.CloseChannels | internal/web/scheduler/scheduler.go:93-95 | the close loop closes each channel in slice order and touches nothing else |
| WebScheduler.Scheduler.GetStatus | internal/web/scheduler/scheduler.go:100-113 | one entry per worker in order: id k, busy exactly when it has a current job, and that job |
| WebScheduler.Scheduler.GetQueuedJobs | internal/web/scheduler/scheduler.go:115-123 | a copy of the queue in heap order, whose first job has maximum priority |
| WebScheduler.Scheduler.WorkerReceive | internal/scheduler/worker.go:36-53 | a buffered job becomes the worker's current job, the receipt says it started (or that a nil was skipped), and the live jobs are unchanged. After Shutdown an empty channel reports the loop's end |
| WebScheduler.Scheduler.TakeFromChannel | internal/scheduler/worker.go:36-44 | the receive step on the pool: the buffered pointer moves to `Current`, the receipt names the job started, and nothing else changes |
| WebScheduler.Scheduler.WorkerFinish | internal/scheduler/worker.go:64-66 | the finished job leaves the live set, its worker becomes idle, and the invariant holds with one more job completed |
| WebScheduler.Scheduler.ClearCurrent | internal/scheduler/worker.go:64-66 | the worker's current job is cleared and nothing else in the pool changes |
| WebScheduler.DispatchedSkip | internal/web/scheduler/scheduler.go:67-75 | a visit that hands out nothing, because the worker is not eligible or the queue is empty, advances the pass state |
| WebScheduler.DispatchedHandOff | internal/web/scheduler/scheduler.go:68-72 | handing the highest-priority job to an eligible worker advances the pass state |
| WebScheduler.HandOffOrder | internal/web/scheduler/scheduler.go:66-74 | the job popped next has no higher priority than any handed out before it, and at least the priority of every job still queued |
| WebScheduler.VisitStep | internal/web/scheduler/scheduler.go:66-77 | each of the three visit outcomes advances the loop state and conserves queued + held jobs |
| WebScheduler.PassComplete | internal/web/scheduler/scheduler.go:66-77 | after the whole pool, the number handed out is min(eligible workers, initial queue length) and the recipients are the first eligible workers |
| WebScheduler.DispatchOutcome | internal/web/scheduler/scheduler.go:66-77 | each recipient was free with an empty channel and now holds exactly its job; every other worker is unchanged |
| WebScheduler.DispatchBound | internal/web/scheduler/scheduler.go:66-77 | one call hands out no more jobs than there are free workers and no more than were queued |
| WebScheduler.PoliciesDiffer | internal/web/scheduler/scheduler.go:67-71 | for a busy worker with an empty channel, the other scheduler hands it a job and this one does not |
| WebScheduler.HeldIgnoresClosed | internal/web/scheduler/scheduler.go:93-95 | closing channels changes no job the pool holds |
| Handlers.Wrap64 | internal/handlers/handlers.go:65 | Go's signed 64-bit arithmetic: a result in range, equal to the exact value when it fits and congruent to it modulo 2^64 |
| Handlers.ValidateAsWritten | internal/handlers/handlers.go:47-65 | accepted exactly when name, priority and duration all pass; the first failing check, in the order name, priority, duration, decides the message. The job has that name and priority and duration `duration * time.Second` wrapped to 64 bits |
| Handlers.DurationOverflows | internal/handlers/handlers.go:65 | the request (backup, 50, 9223372037) passes every check and yields a job with a negative duration |
| Handlers.Validate | internal/handlers/handlers.go:47-65 | the same checks and messages in the same order, plus a bound on the duration. An accepted job has exactly the requested name and priority, and duration = seconds * 10^9 with 0 < duration <= MaxInt64 |
| Handlers.MaxDurationIsTight | internal/handlers/handlers.go:65 | 9223372036 seconds is the longest duration whose nanosecond count fits 64 bits |
| Handlers.ValidatorsAgree | internal/handlers/handlers.go:55-65 | below that bound the corrected and the as-written checks give the same result |
| Handlers.CreateJob | internal/handlers/handlers.go:47-81 | with the checks as written: a rejected request gets its check's message and leaves the counter and queue unchanged. An accepted one, an overflowing duration included, is scheduled exactly once with its wrapped duration, and the reply carries the id the scheduler stamped, with the success message |
| Handlers.CreateJobChecked | internal/handlers/handlers.go:47-81 | the endpoint with the corrected checks: the same replies, except that an overflowing duration is rejected before any scheduler state changes |

## Left out

- The dispatcher's ticker loop, the goroutines started by `New`, and the `ctx.Done()` branches of the worker and dispatcher loops are concurrency and wall-clock timing. One tick is one `TryDispatch` call, and one turn of a worker's run loop is one `WorkerReceive` or `WorkerFinish` call.
- Mutexes, and the web scheduler's missing locks: every method is one atomic step, so the data races of the web variant are not modelled.
- The `Shutdown` of `internal/scheduler` (context cancellation, `WaitGroup`, the deadline race) is concurrency; it is not modelled. The web variant's `Shutdown` is modelled as closing every channel.
- `Execute` closures, `time.After` and the job's run time: a job body is one abstract completion step, `WorkerFinish`.
- `heap.Init`: it is only ever called on an empty queue, where it does nothing.
- The `container/heap` package is not part of the repository. Its `up`/`down`/`Push`/`Pop` are modelled from the Go standard library's algorithm, and their contracts are what the schedulers rely on.
- Logging, HTTP method checks, JSON decoding and encoding, template rendering, `respondJSON`/`respondError`, the router, and `cmd/scheduler/main.go`: these are I/O.
- Nil job pointers are modelled in the channel buffer, and `Receive` skips them as the run loop does. Neither scheduler ever sends one, so that path is only reachable through `TrySend` itself.
- WebScheduler.Scheduler.TryDispatch: requires that `Shutdown` has not run, because a send on a closed channel panics in Go and the model has no panics.
- WebScheduler.Scheduler.Shutdown: requires that it has not run before, because closing a closed channel panics in Go.
- Scheduler.Scheduler.Schedule and WebScheduler.Scheduler.Schedule: jobs are values, not `*Job` pointers, so the write `job.ID = s.jobID` is returned as the stamped job `stamped`. Scheduling the same job pointer twice is not modelled: in Go both queue entries would be one object showing the later id, and a tick could hand that object to two workers. The live-id uniqueness in `Valid()` relies on every `Schedule` call receiving a new job, which holds because the only caller allocates a new `Job` per request (internal/handlers/handlers.go:62, 76).
- Scheduler.Scheduler.Schedule: the `int64` counter `jobID` is an unbounded integer, so its wrap-around after 2^63-1 jobs is not modelled. The same holds for WebScheduler.Scheduler.Schedule.
- Go's `int` (priority, request fields) is modelled as 64-bit, the width on the platforms the server targets.
- Handlers.Validate: the message "Duration is too large", which Handlers.CreateJobChecked replies with, is this model's choice; the program has no such check (see Findings).
- The web package's own `queue.go` and `worker.go` are not part of this model. The web scheduler reuses the queue and worker of `internal/scheduler`, whose fields and method names it uses identically.
- The code accepts a worker count of 0 (`make` panics only for a negative length), so both constructors take any natural number.

## Findings

| source | as written | input that shows it | evidently intended | confidence | as-written member | corrected member |
|---|---|---|---|---|---|---|
| internal/handlers/handlers.go:65 | `time.Duration(req.Duration) * time.Second` multiplies in signed 64-bit arithmetic after only checking `Duration > 0` | duration 9223372037 (with name "backup", priority 50) is accepted and the job's duration wraps to -9223372036709551616 ns, so the job is scheduled but runs for no time | a positive request duration yields a positive job duration of exactly that many seconds, so durations above 9223372036 s are rejected | not executed | Handlers.ValidateAsWritten, Handlers.DurationOverflows, Handlers.CreateJob | Handlers.Validate, Handlers.CreateJobChecked |
