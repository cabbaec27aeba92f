# Worker pool of the boss node

This project models the boss node's `WorkerPool` in Dafny. The pool
tracks its member workers in a map from worker id to worker. It also
keeps a queue of idle workers that requests are handed out from. The
operations are:

- `Size`: the number of members.
- `ScaleUp`: create a worker from the platform's `NewWorker` hook under
  the next counter value, register it and enqueue it. A pool that
  already holds more than `Worker_Cap` members refuses.
- `ScaleDown`: dequeue a worker, remove it from membership and call the
  platform's `DeleteInstance` hook.
- `RunLambda`: dequeue a worker, mark it busy, and answer the request.
  On the `mock` platform the answer is a canned greeting; otherwise the
  request is forwarded to the worker's address. Then mark the worker
  idle and enqueue it again.
- `Status`: one single-key `{id: "idle"|"busy"}` map per member.
- `Close`: remove and destroy every member.

`worker.dfy` (module `Boss`) holds the model.

- `Worker` and `WorkerPool` are classes, because the source updates
  their fields in place.
- The Go channel is a sequence field `queue`, head first.
- The calls to `DeleteInstance` are kept in a ghost log `destroyed`.
- A ghost map `issued` records the counter value each id was made from.
- The configured cap, the platform name and the `NewWorker` hook are
  constants given to the pool's constructor.

Every operation is proved to keep `Valid()`, the pool's bookkeeping
invariant. It says:

- members are filed under their own ids;
- ids come from distinct earlier counter values;
- the queue holds no worker twice;
- membership exceeds the cap by at most one.

Each preservation argument is a lemma on field values (`ScaleUpPreserves`,
`ScaleDownPreserves`, `DispatchPreserves`), and the methods call these
lemmas. The specification functions each get their own lemmas:

- `Rotate` (the queue after n dispatches) and `Served` (which workers n
  dispatches serve): `RotateSplits`, `RotateFullRound`, `ServedStep`
  and `ServedInQueueOrder`.
- `IsStatusReport`: `StatusReportOfEnumeration`.

`sequences.dfy` (module `Sequences`) holds "lists each element of a set
exactly once" and the proof that such a list is as long as the set.
`scenarios.dfy` (module `BossScenarios`) builds small concrete pools on
the mock platform and proves what they end in.

The model keeps these behaviours of the code:

- Capacity: the code refuses only when `Size() > Worker_Cap`, so a pool
  with cap 2 admits a third worker (`CapacityScenario`). It does not
  refuse at `Size() >= cap`.
- The capacity failure: in the code it is a panic raised before any
  state changes. Here it is the result `ExceededMaxWorkers` with the
  pool unchanged.
- Close does not drain the idle queue. Afterwards, every queued worker is
  a non-member, and a later `ScaleDown` destroys that worker's instance a
  second time (`CloseThenScaleDownScenario`). So "every queued worker is
  a member" (`QueueConsistent`) is not part of `Valid()`. ScaleUp,
  ScaleDown and RunLambda are proved to preserve it, and `Close` is
  proved to keep it exactly when the queue was already empty.
- The idle queue holds only idle workers (`QueuedIdle`). A new pool
  has this property. ScaleDown, RunLambda and Close keep it, and
  ScaleUp keeps it when the platform's `NewWorker` makes idle workers
  (`CreatesIdle`). The code does not set the flag itself, and Go's zero
  value for it is false. So a platform whose `NewWorker` leaves the
  flag false puts a busy-looking worker in the queue. A `ScaleDown` that
  takes that worker then spins forever, although the worker was never
  dispatched.

## Model

| member | source | states |
|---|---|---|
| Boss.Worker.constructor | src/boss/worker.go:26-31 | a new worker carries exactly the id, address and idle flag it was made with |
| Boss.WorkerPool.constructor | src/boss/worker.go:10-18 | a fresh pool has no members, an empty queue, counter 0 and nothing destroyed, satisfies the invariant, and its queue holds only idle workers |
| Boss.WorkerPool.Size | src/boss/worker.go:39-41 | the size is the number of member ids |
| Boss.WorkerPool.ScaleUp | src/boss/worker.go:44-60 | refuses exactly when the old size exceeds the cap, and then nothing changes; otherwise `NewWorker` is applied to the old counter, the counter goes up by one, the new worker's id was never handed out before and is not a member; the worker is filed under its own id and appended to the queue, the size grows by one, and nothing is destroyed. The invariant is kept, so membership stays at most cap + 1. The queue still holds only idle workers when `NewWorker` makes idle workers |
| Boss.FreshIdNotIssued | src/boss/worker.go:49-52 | the id made from the current counter value was never handed out before |
| Boss.ScaleUpPreserves | src/boss/worker.go:44-60 | registering and enqueuing the new worker within the cap keeps the invariant, keeps every queued worker a member, and grows membership by exactly one |
| Boss.WorkerPool.ScaleDown | src/boss/worker.go:63-71 | with an idle head, the head leaves the queue, its id leaves membership, it is destroyed exactly once (appended to the log), the size drops by one if it was a member, the invariant is kept, and a queue of idle workers stays so |
| Boss.ScaleDownPreserves | src/boss/worker.go:63-71 | removing the queue head and its id keeps the invariant and keeps queued workers members |
| Boss.WorkerPool.RunLambda | src/boss/worker.go:74-91 | the queue is rotated by one (head to tail); membership, counter and log are unchanged; the served worker is the old head, as `Served(queue, 1)` says; it ends idle, no other member's flag changes, and a queue of idle workers stays so. The reply is status 200 with "hello from " + id + "\n" on the mock platform and the forwarded reply otherwise |
| Boss.DispatchPreserves | src/boss/worker.go:75-90 | moving the head to the tail keeps the invariant and keeps queued workers members |
| Boss.Rotate | src/boss/worker.go:75-90 | any number of dispatches keeps the queue's length and its multiset of workers |
| Boss.RotateSplits | src/boss/worker.go:75-90 | after n ≤ length dispatches the first n workers have moved, in order, behind the rest |
| Boss.RotateFullRound | src/boss/worker.go:75-90 | one dispatch per queued worker restores the queue |
| Boss.ServedStep | src/boss/worker.go:75-90 | the workers n + 1 dispatches serve are the first dispatch's served worker followed by those n more dispatches serve from the rotated queue, so successive RunLambda calls add up to `Served` |
| Boss.ServedInQueueOrder | src/boss/worker.go:75-90 | n ≤ length dispatches serve exactly the first n queued workers, in queue order |
| Boss.WorkerPool.Status | src/boss/worker.go:94-107 | the report has one entry per member, as many entries as the size; each entry has a single key, a member id, with "idle" or "busy" matching that member's flag; no member appears twice |
| Boss.StatusReportOfEnumeration | src/boss/worker.go:97-105 | entries built along any enumeration of the members form such a report |
| Sequences.EnumerationLength | src/boss/worker.go:111-114 | a list naming each member of a set exactly once is as long as the set |
| Boss.WorkerPool.Close | src/boss/worker.go:110-115 | membership ends empty; the log grows by the old size and its new part names every old member exactly once; the queue, counter and issued ids are unchanged; the invariant is kept, queued workers are all members only when the queue is empty, and a queue of idle workers stays so |
| BossScenarios.CapacityScenario | src/boss/worker.go:45 | with cap 2, three scale-ups succeed and the fourth is refused, leaving three members |
| BossScenarios.MockDispatchScenario | src/boss/worker.go:77-79 | a one-worker mock pool answers two dispatches with status 200 and "hello from w\n" both times; both are served by the same worker, which ends idle and alone in the queue |
| BossScenarios.CloseThenScaleDownScenario | src/boss/worker.go:110-115 | after Close, a ScaleDown takes the stale queued worker and destroys its id a second time, so the destroy log reads "w", "w", leaving an empty pool and queue |

## Left out

- `forwardTask` (src/boss/worker.go:118-135) is not part of this model. It does HTTP I/O, so it is a function parameter `forward` from request and worker address to reply.
- The `go pool.CreateInstance(worker)` call (line 57) starts provisioning asynchronously and does not touch the pool. It is not modelled.
- Channel blocking, the channel's capacity and concurrent calls are not modelled. Operations run one at a time, and the queue is an unbounded sequence.
- Boss.WorkerPool.RunLambda: the busy flag is set and cleared within the call. Only a concurrent call could observe it: a `Status`, or a `ScaleDown` spinning on the same worker, whose loop the flag ends. The contract does not mention it.
- Boss.WorkerPool.RunLambda: the panic when writing the mock reply fails (lines 80-83) is not modelled. Writing the reply is assumed to succeed.
- Boss.WorkerPool.RunLambda and Boss.WorkerPool.ScaleDown require a non-empty queue; on an empty channel the source blocks.
- Boss.WorkerPool.ScaleDown requires the queue head to be idle. The source's retry loop (lines 65-67) never reads the queue again, so on a busy head it never ends. A pool whose queue holds only idle workers (`QueuedIdle`) meets this requirement whenever its queue is non-empty.
- Boss.WorkerPool.Close deletes from a copy of the membership map and assigns the field and the log once the loop ends. Deleting from the map while ranging over it in place is not modelled; with one call at a time the outcome is the same.
- Go's map iteration order is not modelled. Status and Close are specified for any order.
- The platform's `NewWorker` hook is a function from counter value to the new worker's fields. The pool requires it to give distinct counter values distinct ids (`NamesUnique`). That is an assumption about the platforms, which are not part of this model.
- `Conf` loading, the concrete platforms and the worker's `WorkerPlatform` handle are not part of this model. The cap and the platform name are constructor parameters.
- The counter `nextId` is an unbounded integer. Go's `int` wraps after 2^63 - 1 increments (line 50); the model does not capture that wrap.
- The pool constructor is not in src/boss/worker.go. The model's constructor starts from an empty pool.
