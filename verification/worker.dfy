/** The worker pool of the boss node: membership of workers, the queue of
    idle workers handed out to requests, and their scale-up, scale-down,
    dispatch, status and shutdown operations, run one call at a time. */
module Boss {
  import opened Sequences

  /** HTTP status written by a mock dispatch. */
  const StatusOK: int := 200

  /** Platform name that selects the canned reply instead of forwarding. */
  const MockPlatform: string := "mock"

  /** The field values the platform's NewWorker hook gives a new worker. */
  datatype WorkerRecord = WorkerRecord(workerId: string, workerIp: string, isIdle: bool)

  /** What a dispatch writes back to the caller. */
  datatype Response = Response(status: int, body: string)

  /** Outcome of ScaleUp; the capacity failure is a panic in the source. */
  datatype ScaleUpResult = ScaledUp | ExceededMaxWorkers

  /** The platform never hands out the same worker id for two counter values. */
  ghost predicate NamesUnique(newWorker: int -> WorkerRecord) {
    forall i, j :: 0 <= i < j ==> newWorker(i).workerId != newWorker(j).workerId
  }

  /** The platform's NewWorker hook makes every worker idle. */
  ghost predicate CreatesIdle(newWorker: int -> WorkerRecord) {
    forall i :: newWorker(i).isIdle
  }

  // ---------------------------------------------------------------------
  // The idle queue under dispatch

  /** The queue after `n` dispatches in a row: each takes the head and
      puts the same worker back at the tail. A dispatch never loses or
      duplicates a queued worker. */
  function Rotate<T>(q: seq<T>, n: nat): (r: seq<T>)
    ensures |r| == |q|
    ensures multiset(r) == multiset(q)
    decreases n
  {
    if n == 0 || q == [] then q
    else
      var q' := q[1..] + [q[0]];
      assert q == [q[0]] + q[1..];
      Rotate(q', n - 1)
  }

  /** The workers that `n` dispatches in a row are served by, in order. */
  function Served<T>(q: seq<T>, n: nat): seq<T>
    decreases n
  {
    if n == 0 || q == [] then [] else [q[0]] + Served(q[1..] + [q[0]], n - 1)
  }

  /** The workers served by `n + 1` dispatches are the one the first
      dispatch serves followed by those the next `n` serve from the queue it
      leaves, so the dispatches' single served workers add up to `Served`. */
  lemma ServedStep<T>(q: seq<T>, n: nat)
    requires q != []
    ensures Served(q, n + 1) == Served(q, 1) + Served(Rotate(q, 1), n)
  {
    assert Rotate(q, 1) == q[1..] + [q[0]];
  }

  /** Moving the head to the tail shifts the split point of `q` by one. */
  lemma ShiftedSplit<T>(q: seq<T>, n: nat)
    requires 0 < n <= |q|
    ensures var q' := q[1..] + [q[0]]; q'[n - 1..] + q'[..n - 1] == q[n..] + q[..n]
  {
    var q' := q[1..] + [q[0]];
    assert q'[n - 1..] == q[n..] + [q[0]];
    assert q'[..n - 1] == q[1..n];
    assert q[..n] == [q[0]] + q[1..n];
  }

  /** After `n` dispatches (at most one round) the first `n` queued workers
      have moved, in order, behind the rest. */
  lemma {:induction false} RotateSplits<T>(q: seq<T>, n: nat)
    requires n <= |q|
    ensures Rotate(q, n) == q[n..] + q[..n]
    decreases n
  {
    if n > 0 {
      var q' := q[1..] + [q[0]];
      assert Rotate(q, n) == Rotate(q', n - 1);
      RotateSplits(q', n - 1);
      ShiftedSplit(q, n);
    } else {
      assert q[..0] == [] && q[0..] == q;
    }
  }

  /** One full round of dispatches, one per queued worker, restores the queue. */
  lemma RotateFullRound<T>(q: seq<T>)
    ensures Rotate(q, |q|) == q
  {
    RotateSplits(q, |q|);
  }

  /** Dispatches serve the queued workers in queue order, so within one round
      every idle worker is served once before any is served twice. */
  lemma {:induction false} ServedInQueueOrder<T>(q: seq<T>, n: nat)
    requires n <= |q|
    ensures Served(q, n) == q[..n]
    decreases n
  {
    if n > 0 {
      var q' := q[1..] + [q[0]];
      ServedInQueueOrder(q', n - 1);
      assert q'[..n - 1] == q[1..n];
      assert q[..n] == [q[0]] + q[1..n];
    }
  }

  // ---------------------------------------------------------------------
  // The status report

  /** The word Status reports for a worker's idle flag. */
  function StatusLabel(idle: bool): string {
    if idle then "idle" else "busy"
  }

  /** The single-key map Status reports for one worker. */
  function StatusEntry(workerId: string, idle: bool): map<string, string> {
    map[workerId := StatusLabel(idle)]
  }

  /** `r` is a status report of the members whose idle flags are `m`: one
      single-key entry per member, labelled by its flag, none repeated, in
      any order. */
  ghost predicate IsStatusReport(r: seq<map<string, string>>, m: map<string, bool>) {
    && |r| == |m|
    && (forall i :: 0 <= i < |r| ==> |r[i].Keys| == 1)
    && (forall i, k :: 0 <= i < |r| && k in r[i] ==> k in m && r[i][k] == StatusLabel(m[k]))
    && (forall i, j :: 0 <= i < j < |r| ==> r[i].Keys !! r[j].Keys)
    && (forall k :: k in m ==> exists i :: 0 <= i < |r| && k in r[i])
  }

  /** Entries built in the order of any enumeration of the members form a
      status report. */
  lemma StatusReportOfEnumeration(r: seq<map<string, string>>, order: seq<string>, m: map<string, bool>)
    requires Enumerates(order, m.Keys)
    requires |r| == |order|
    requires forall i :: 0 <= i < |r| ==> r[i] == StatusEntry(order[i], m[order[i]])
    ensures IsStatusReport(r, m)
  {
    EnumerationLength(order, m.Keys);
    forall i | 0 <= i < |r|
      ensures |r[i].Keys| == 1
    {
      assert r[i].Keys == {order[i]};
    }
    forall k | k in m
      ensures exists i :: 0 <= i < |r| && k in r[i]
    {
      assert k in order;
      var i :| 0 <= i < |order| && order[i] == k;
      assert k in r[i];
    }
  }

  // ---------------------------------------------------------------------
  // The pool's bookkeeping invariant, on the values of its fields

  /** What every pool keeps true: members are filed under their own ids;
      every id ever handed out came from an earlier counter value; the
      queue holds no worker twice and no queued worker is hidden behind a
      different member with the same id; membership exceeds the cap by at
      most one. */
  ghost predicate PoolInvariant(newWorker: int -> WorkerRecord, workerCap: int, nextId: int,
                                workers: map<string, Worker>, issued: map<string, int>, queue: seq<Worker>)
  {
    && NamesUnique(newWorker)
    && 0 <= nextId
    && (forall k :: k in workers ==> workers[k].workerId == k)
    && (forall k :: k in issued ==> 0 <= issued[k] < nextId && newWorker(issued[k]).workerId == k)
    && workers.Keys <= issued.Keys
    && (forall i :: 0 <= i < |queue| ==> queue[i].workerId in issued)
    && Distinct(queue)
    && (forall i :: 0 <= i < |queue| && queue[i].workerId in workers ==> workers[queue[i].workerId] == queue[i])
    && (|workers| <= workerCap + 1 || workers == map[])
  }

  /** Every queued worker is a member. */
  ghost predicate QueuedAreMembers(workers: map<string, Worker>, queue: seq<Worker>) {
    forall i :: 0 <= i < |queue| ==> queue[i].workerId in workers
  }

  /** The id made from the counter's current value was never handed out
      before, since the platform names distinct counter values apart. */
  lemma FreshIdNotIssued(newWorker: int -> WorkerRecord, nextId: int, issued: map<string, int>)
    requires NamesUnique(newWorker)
    requires forall k :: k in issued ==> 0 <= issued[k] < nextId && newWorker(issued[k]).workerId == k
    ensures newWorker(nextId).workerId !in issued
  {
  }

  /** Registering and enqueuing a new worker made from the counter value
      `nextId`, when membership is within the cap, keeps the invariant; the
      new id is not yet a member, so membership grows by exactly one. */
  lemma ScaleUpPreserves(newWorker: int -> WorkerRecord, workerCap: int, nextId: int,
                         workers: map<string, Worker>, issued: map<string, int>, queue: seq<Worker>, w: Worker)
    requires PoolInvariant(newWorker, workerCap, nextId, workers, issued, queue)
    requires |workers| <= workerCap
    requires w.workerId == newWorker(nextId).workerId
    requires w !in queue
    ensures w.workerId !in workers
    ensures |workers[w.workerId := w]| == |workers| + 1
    ensures PoolInvariant(newWorker, workerCap, nextId + 1, workers[w.workerId := w],
                          issued[w.workerId := nextId], queue + [w])
    ensures QueuedAreMembers(workers, queue) ==> QueuedAreMembers(workers[w.workerId := w], queue + [w])
  {
    FreshIdNotIssued(newWorker, nextId, issued);
    assert workers[w.workerId := w].Keys == workers.Keys + {w.workerId};
  }

  /** Taking the head off the queue and its id out of membership keeps the
      invariant, and keeps every remaining queued worker a member. */
  lemma ScaleDownPreserves(newWorker: int -> WorkerRecord, workerCap: int, nextId: int,
                           workers: map<string, Worker>, issued: map<string, int>, queue: seq<Worker>)
    requires PoolInvariant(newWorker, workerCap, nextId, workers, issued, queue)
    requires queue != []
    ensures PoolInvariant(newWorker, workerCap, nextId, workers - {queue[0].workerId}, issued, queue[1..])
    ensures QueuedAreMembers(workers, queue) ==>
              QueuedAreMembers(workers - {queue[0].workerId}, queue[1..])
    ensures |workers - {queue[0].workerId}| ==
              if queue[0].workerId in workers then |workers| - 1 else |workers|
  {
    var id := queue[0].workerId;
    assert (workers - {id}).Keys == workers.Keys - {id};
    if QueuedAreMembers(workers, queue) {
      forall i | 0 <= i < |queue| - 1
        ensures queue[1..][i].workerId in workers - {id}
      {
        assert queue[i + 1] != queue[0];
      }
    }
  }

  /** A dispatch, which moves the head of the queue to its tail, keeps the
      invariant and keeps every queued worker a member. */
  lemma DispatchPreserves(newWorker: int -> WorkerRecord, workerCap: int, nextId: int,
                          workers: map<string, Worker>, issued: map<string, int>, queue: seq<Worker>)
    requires PoolInvariant(newWorker, workerCap, nextId, workers, issued, queue)
    requires queue != []
    ensures Rotate(queue, 1) == queue[1..] + [queue[0]]
    ensures PoolInvariant(newWorker, workerCap, nextId, workers, issued, Rotate(queue, 1))
    ensures QueuedAreMembers(workers, queue) ==> QueuedAreMembers(workers, Rotate(queue, 1))
  {
    var q := queue[1..] + [queue[0]];
    forall i, j | 0 <= i < j < |q|
      ensures q[i] != q[j]
    {
      if j < |q| - 1 {
        assert q[i] == queue[i + 1] && q[j] == queue[j + 1];
      } else {
        assert q[i] == queue[i + 1] && q[j] == queue[0];
      }
    }
  }

  // ---------------------------------------------------------------------
  // Workers and the pool

  /** A worker; its id and address never change, its idle flag is toggled
      around each dispatch. */
  class Worker {
    const workerId: string
    const workerIp: string
    var isIdle: bool

    /** The worker's current field values. */
    function Record(): WorkerRecord
      reads this
    {
      WorkerRecord(workerId, workerIp, isIdle)
    }

    constructor (rec: WorkerRecord)
      ensures Record() == rec
    {
      workerId := rec.workerId;
      workerIp := rec.workerIp;
      isIdle := rec.isIdle;
    }
  }

  class WorkerPool {
    /** The counter value the next worker is created from. */
    var nextId: int
    /** Every member, under its own id. */
    var workers: map<string, Worker>
    /** The idle queue, head first (a channel in the source). */
    var queue: seq<Worker>

    /** Ids handed to the platform's DeleteInstance hook, in call order. */
    ghost var destroyed: seq<string>
    /** The counter value each id ever handed out was created from. */
    ghost var issued: map<string, int>

    /** The platform's NewWorker hook. */
    const newWorker: int -> WorkerRecord
    /** The configured worker cap. */
    const workerCap: int
    /** The configured platform name. */
    const platform: string

    ghost predicate Valid()
      reads this
    {
      PoolInvariant(newWorker, workerCap, nextId, workers, issued, queue)
    }

    /** Every queued worker is a member. */
    ghost predicate QueueConsistent()
      reads this
    {
      QueuedAreMembers(workers, queue)
    }

    /** Every queued worker is idle: the queue holds only idle workers. */
    ghost predicate QueuedIdle()
      reads this, queue
    {
      forall i :: 0 <= i < |queue| ==> queue[i].isIdle
    }

    /** The idle flag of every member. */
    ghost function IdleMap(): map<string, bool>
      reads this, workers.Values
    {
      map k | k in workers :: workers[k].isIdle
    }

    /** An empty pool; the source builds pools outside this file. */
    constructor (newWorker: int -> WorkerRecord, workerCap: int, platform: string)
      requires NamesUnique(newWorker)
      ensures Valid() && QueueConsistent() && QueuedIdle()
      ensures this.newWorker == newWorker && this.workerCap == workerCap && this.platform == platform
      ensures nextId == 0 && workers == map[] && queue == [] && destroyed == []
    {
      this.newWorker := newWorker;
      this.workerCap := workerCap;
      this.platform := platform;
      nextId := 0;
      workers := map[];
      queue := [];
      destroyed := [];
      issued := map[];
    }

    /** The number of members. */
    function Size(): (n: nat)
      reads this
      ensures n == |workers.Keys|
    {
      |workers|
    }

    /** Adds one worker, made by the platform from the next counter value,
        to the members and to the tail of the idle queue. A pool that
        already holds more than `workerCap` members refuses. */
    method ScaleUp() returns (r: ScaleUpResult)
      requires Valid()
      modifies this
      ensures Valid()
      ensures r == ExceededMaxWorkers <==> old(Size()) > workerCap
      ensures r == ExceededMaxWorkers ==> unchanged(this)
      ensures r == ScaledUp ==>
        && nextId == old(nextId) + 1
        && |queue| == |old(queue)| + 1
        && queue[..|old(queue)|] == old(queue)
        && var w := queue[|old(queue)|];
           && fresh(w)
           && w.Record() == newWorker(old(nextId))
           && w.workerId !in old(workers)
           && w.workerId !in old(issued)
           && workers == old(workers)[w.workerId := w]
           && issued == old(issued)[w.workerId := old(nextId)]
      ensures r == ScaledUp ==> Size() == old(Size()) + 1 && destroyed == old(destroyed)
      ensures old(QueueConsistent()) ==> QueueConsistent()
      ensures CreatesIdle(newWorker) && old(QueuedIdle()) ==> QueuedIdle()
    {
      if Size() > workerCap {
        return ExceededMaxWorkers;
      }
      var id := nextId;
      nextId := nextId + 1;
      var worker := new Worker(newWorker(id));
      ScaleUpPreserves(newWorker, workerCap, id, workers, issued, queue, worker);
      workers := workers[worker.workerId := worker];
      queue := queue + [worker];
      issued := issued[worker.workerId := id];
      // CreateInstance runs asynchronously and leaves the pool alone.
      r := ScaledUp;
    }

    /** Takes the head of the idle queue, which must be idle (otherwise the
        source's retry loop never ends), removes its id from the members and
        destroys its instance. */
    method ScaleDown()
      requires Valid()
      requires queue != []
      requires queue[0].isIdle
      modifies this
      ensures Valid()
      ensures queue == old(queue)[1..]
      ensures workers == old(workers) - {old(queue)[0].workerId}
      ensures destroyed == old(destroyed) + [old(queue)[0].workerId]
      ensures nextId == old(nextId) && issued == old(issued)
      ensures Size() == if old(queue)[0].workerId in old(workers) then old(Size()) - 1 else old(Size())
      ensures old(QueueConsistent()) ==> QueueConsistent()
      ensures old(QueuedIdle()) ==> QueuedIdle()
    {
      ScaleDownPreserves(newWorker, workerCap, nextId, workers, issued, queue);
      var worker := queue[0];
      queue := queue[1..];
      workers := workers - {worker.workerId};
      destroyed := destroyed + [worker.workerId];
    }

    /** Dispatches one request: takes the head of the idle queue, marks it
        busy, answers (a canned greeting on the mock platform, otherwise
        whatever forwarding to the worker's address returns), marks it idle
        and puts it back at the tail. */
    method RunLambda<Req>(req: Req, forward: (Req, string) -> Response) returns (resp: Response, ghost served: Worker)
      requires Valid()
      requires queue != []
      modifies this, queue[0]
      ensures Valid()
      ensures queue == Rotate(old(queue), 1)
      ensures served == old(queue)[0] && [served] == Served(old(queue), 1)
      ensures workers == old(workers) && nextId == old(nextId)
      ensures destroyed == old(destroyed) && issued == old(issued)
      ensures old(queue)[0].isIdle
      ensures forall k :: k in workers ==>
        workers[k].isIdle == if k == old(queue)[0].workerId then true else old(workers[k].isIdle)
      ensures resp ==
        if platform == MockPlatform then Response(StatusOK, "hello from " + old(queue)[0].workerId + "\n")
        else forward(req, old(queue)[0].workerIp)
      ensures old(QueueConsistent()) ==> QueueConsistent()
      ensures old(QueuedIdle()) ==> QueuedIdle()
    {
      DispatchPreserves(newWorker, workerCap, nextId, workers, issued, queue);
      var worker := queue[0];
      served := worker;
      queue := queue[1..];
      worker.isIdle := false;
      if platform == MockPlatform {
        resp := Response(StatusOK, "hello from " + worker.workerId + "\n");
      } else {
        resp := forward(req, worker.workerIp);
      }
      worker.isIdle := true;
      queue := queue + [worker];
    }

    /** One single-key entry per member, "idle" or "busy", in no particular
        order. */
    method Status() returns (r: seq<map<string, string>>)
      ensures IsStatusReport(r, IdleMap())
      ensures |r| == Size()
    {
      ghost var m := IdleMap();
      assert m.Keys == workers.Keys;
      ghost var order: seq<string> := [];
      var remaining := workers.Keys;
      r := [];
      while remaining != {}
        invariant remaining <= workers.Keys
        invariant Distinct(order)
        invariant forall x :: x in order <==> x in workers && x !in remaining
        invariant |r| == |order|
        invariant forall i :: 0 <= i < |r| ==> r[i] == StatusEntry(order[i], m[order[i]])
        decreases remaining
      {
        var workerId :| workerId in remaining;
        r := r + [StatusEntry(workerId, workers[workerId].isIdle)];
        order := order + [workerId];
        remaining := remaining - {workerId};
      }
      StatusReportOfEnumeration(r, order, m);
    }

    /** Removes and destroys every member, busy or idle, one at a time in
        no particular order. The loop deletes from a copy of the membership
        map and logs each destroyed id; the fields take the final map and
        log once the loop ends. The idle queue is left as it is, so any
        worker still queued is no longer a member. */
    method Close()
      requires Valid()
      modifies this
      ensures Valid()
      ensures workers == map[]
      ensures queue == old(queue) && nextId == old(nextId) && issued == old(issued)
      ensures |destroyed| == |old(destroyed)| + old(Size())
      ensures destroyed[..|old(destroyed)|] == old(destroyed)
      ensures Enumerates(destroyed[|old(destroyed)|..], old(workers).Keys)
      ensures QueueConsistent() <==> queue == []
      ensures old(QueuedIdle()) ==> QueuedIdle()
    {
      ghost var done: seq<string> := [];
      var remaining := workers;
      while remaining != map[]
        invariant remaining.Keys <= workers.Keys
        invariant forall k :: k in remaining ==> remaining[k] == workers[k]
        invariant Enumerates(done, workers.Keys - remaining.Keys)
        decreases remaining.Keys
      {
        var workerId :| workerId in remaining;
        var worker := remaining[workerId];
        remaining := remaining - {workerId};
        done := done + [worker.workerId];
      }
      EnumerationLength(done, workers.Keys);
      workers := remaining;
      destroyed := destroyed + done;
      assert destroyed[|old(destroyed)|..] == done;
      if queue != [] {
        assert queue[0].workerId !in workers;
      }
    }
  }
}
