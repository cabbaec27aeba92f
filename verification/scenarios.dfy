/** Small concrete pools on the mock platform and what they end in, with
    a naming hook that calls the worker made from counter value `n` by
    `n + 1` letters 'w'. */
module BossScenarios {
  import opened Boss

  /** The mock platform's naming hook used by the scenarios. */
  function TestWorker(n: int): WorkerRecord {
    WorkerRecord(seq(if n < 0 then 0 else n + 1, _ => 'w'), "10.0.0.1", true)
  }

  /** Distinct counter values get distinct names, since the names differ
      in length. */
  lemma TestWorkerNamesUnique()
    ensures NamesUnique(TestWorker)
  {
    forall i, j | 0 <= i < j
      ensures TestWorker(i).workerId != TestWorker(j).workerId
    {
      assert |TestWorker(i).workerId| == i + 1;
      assert |TestWorker(j).workerId| == j + 1;
    }
  }

  /** With a cap of 2 the check `Size() > cap` admits a third worker and
      refuses only the fourth. */
  method CapacityScenario() returns (first: ScaleUpResult, second: ScaleUpResult,
                                     third: ScaleUpResult, fourth: ScaleUpResult, size: nat)
    ensures first == ScaledUp && second == ScaledUp && third == ScaledUp
    ensures fourth == ExceededMaxWorkers
    ensures size == 3
  {
    TestWorkerNamesUnique();
    var pool := new WorkerPool(TestWorker, 2, MockPlatform);
    first := pool.ScaleUp();
    second := pool.ScaleUp();
    third := pool.ScaleUp();
    fourth := pool.ScaleUp();
    size := pool.Size();
  }

  /** A mock pool holding the single worker "w", idle and queued. */
  method OneWorkerPool() returns (pool: WorkerPool, ghost w: Worker)
    ensures fresh(pool) && pool.Valid() && pool.platform == MockPlatform
    ensures fresh(w) && pool.queue == [w] && w.workerId == "w" && w.isIdle
    ensures pool.workers.Keys == {"w"} && pool.destroyed == []
  {
    TestWorkerNamesUnique();
    pool := new WorkerPool(TestWorker, 2, MockPlatform);
    var r := pool.ScaleUp();
    w := pool.queue[0];
    assert w.workerId == "w";
  }

  /** A pool of one mock worker answers every dispatch with the same
      greeting, served by the same worker, which ends idle and queued. */
  method MockDispatchScenario() returns (first: Response, second: Response, queued: seq<Worker>,
                                         ghost servedFirst: Worker, ghost servedSecond: Worker)
    ensures first == Response(200, "hello from w\n")
    ensures second == first
    ensures servedSecond == servedFirst && servedFirst.isIdle
    ensures queued == [servedFirst]
  {
    var pool, w := OneWorkerPool();
    var forward := (req: int, ip: string) => Response(502, ip);
    first, servedFirst := pool.RunLambda(0, forward);
    second, servedSecond := pool.RunLambda(1, forward);
    queued := pool.queue;
  }

  /** Close leaves the idle queue as it was, so a later ScaleDown takes a
      worker that is no longer a member and destroys its instance a second
      time. */
  method CloseThenScaleDownScenario() returns (size: nat, queued: nat, ghost log: seq<string>)
    ensures size == 0 && queued == 0
    ensures log == ["w", "w"]
  {
    var pool, w := OneWorkerPool();
    pool.Close();
    assert pool.destroyed[0..] == pool.destroyed;
    assert pool.destroyed[0] in pool.destroyed;
    assert pool.destroyed == ["w"];
    assert |pool.queue| == 1 && pool.queue[0].isIdle;
    pool.ScaleDown();
    assert pool.destroyed == ["w", "w"];
    size := pool.Size();
    queued := |pool.queue|;
    log := pool.destroyed;
  }
}
