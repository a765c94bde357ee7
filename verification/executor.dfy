/**
 * The bucket's `ThreadPoolExecutor`: as many core threads as the pool size (core and
 * maximum are equal, so no thread ever times out) over a `LinkedBlockingDeque` whose
 * `offer` inserts at the front. Each loader runs as one atomic step, so the executor is a
 * value: the tasks the threads are running and the queue, front first.
 */
module LifoExecutor {
  import opened Wrappers
  import opened Keys
  import opened Collections

  datatype Executor = Executor(poolSize: int, threads: nat, running: seq<Key>, queue: seq<Key>)

  /**
   * Threads are started up to the pool size and no further; a task waits in the queue only
   * while every thread is busy.
   */
  predicate Valid(e: Executor)
  {
    && 0 < e.poolSize
    && |e.running| <= e.threads <= e.poolSize
    && (e.queue != [] ==> |e.running| == e.threads == e.poolSize)
  }

  /** Every task submitted and not yet finished. */
  function Tasks(e: Executor): multiset<Key>
  {
    multiset(e.running) + multiset(e.queue)
  }

  /** Every thread is running a task. */
  predicate Busy(e: Executor)
  {
    |e.running| == e.threads == e.poolSize
  }

  datatype ExecutorError = IllegalPoolSize

  /** `new ThreadPoolExecutor(n, n, ...)`: no threads yet; a pool size below one is refused. */
  function Start(poolSize: int): (r: Result<Executor, ExecutorError>)
    ensures r.Success? <==> poolSize > 0
    ensures r.Success? ==> Valid(r.value) && r.value.poolSize == poolSize && r.value.threads == 0
    ensures r.Success? ==> Tasks(r.value) == multiset{}
  {
    if poolSize <= 0 then Failure(IllegalPoolSize) else Success(Executor(poolSize, 0, [], []))
  }

  /**
   * `execute`: below the pool size a new thread starts with the task; otherwise the task is
   * offered to the deque, which puts it at the front, where an idle thread takes it at once.
   */
  function Submit(e: Executor, k: Key): (e': Executor)
    requires Valid(e)
    ensures Valid(e') && e'.poolSize == e.poolSize
    ensures Tasks(e') == Tasks(e) + multiset{k}
    ensures e.threads < e.poolSize ==> e'.threads == e.threads + 1 && e'.running == e.running + [k] && e'.queue == e.queue
    ensures e.threads == e.poolSize && !Busy(e) ==> e'.threads == e.threads && e'.running == e.running + [k] && e'.queue == []
    ensures Busy(e) ==> e'.threads == e.threads && e'.running == e.running && e'.queue == [k] + e.queue
  {
    if e.threads < e.poolSize then
      e.(threads := e.threads + 1, running := e.running + [k])
    else if |e.running| < e.threads then
      e.(running := e.running + [k])
    else
      e.(queue := [k] + e.queue)
  }

  /**
   * The task the `i`th busy thread runs finishes; that thread then takes the front of the
   * queue, the most recently queued task, if there is one.
   */
  function Complete(e: Executor, i: nat): (e': Executor)
    requires Valid(e) && i < |e.running|
    ensures Valid(e') && e'.poolSize == e.poolSize && e'.threads == e.threads
    ensures Tasks(e') + multiset{e.running[i]} == Tasks(e)
    ensures |e'.running| + |e'.queue| == |e.running| + |e.queue| - 1
    ensures e.queue != [] ==> e'.running[|e'.running| - 1] == e.queue[0] && e'.queue == e.queue[1..]
    ensures e.queue == [] ==> |e'.running| == |e.running| - 1 && e'.queue == []
  {
    var rest := RemoveAt(e.running, i);
    if e.queue == [] then
      e.(running := rest)
    else
      assert e.queue == [e.queue[0]] + e.queue[1..];
      e.(running := rest + [e.queue[0]], queue := e.queue[1..])
  }

  /** Submitting several tasks in order. */
  function SubmitAll(e: Executor, ks: seq<Key>): (e': Executor)
    requires Valid(e)
    ensures Valid(e') && e'.poolSize == e.poolSize
    decreases |ks|
  {
    if ks == [] then e else SubmitAll(Submit(e, ks[0]), ks[1..])
  }

  /** While every thread is busy, tasks submitted one after another queue up newest first. */
  lemma {:induction false} SubmitAllWhenBusy(e: Executor, ks: seq<Key>)
    requires Valid(e) && Busy(e)
    ensures SubmitAll(e, ks) == e.(queue := Reverse(ks) + e.queue)
    decreases |ks|
  {
    if ks != [] {
      var e1 := Submit(e, ks[0]);
      assert e1 == e.(queue := [ks[0]] + e.queue);
      SubmitAllWhenBusy(e1, ks[1..]);
      assert Reverse(ks[1..]) + ([ks[0]] + e.queue) == Reverse(ks) + e.queue;
    }
  }

  /** With one thread, the order in which the tasks now known are run to the end. */
  function ServeOrder(e: Executor): seq<Key>
    requires Valid(e) && e.poolSize == 1
    decreases |e.running| + |e.queue|
  {
    if e.running == [] then [] else [e.running[0]] + ServeOrder(Complete(e, 0))
  }

  /** A single thread finishes the task it is running, then the queue front to back. */
  lemma {:induction false} ServeOrderIsQueueOrder(e: Executor)
    requires Valid(e) && e.poolSize == 1
    ensures ServeOrder(e) == e.running + e.queue
    decreases |e.running| + |e.queue|
  {
    if e.running != [] {
      var e' := Complete(e, 0);
      SingleThreadStep(e);
      ServeOrderIsQueueOrder(e');
    }
  }

  /** With one thread, finishing the running task leaves the queue, front first, to run. */
  lemma SingleThreadStep(e: Executor)
    requires Valid(e) && e.poolSize == 1 && e.running != []
    ensures e.running == [e.running[0]]
    ensures Complete(e, 0).running + Complete(e, 0).queue == e.queue
  {
    assert e.running == [e.running[0]];
    assert RemoveAt(e.running, 0) == [];
    if e.queue != [] {
      assert e.queue == [e.queue[0]] + e.queue[1..];
    }
  }

  /**
   * The request-ordering scenario: with a single thread, the first request runs at once and
   * every later one, submitted while it runs, is served newest first.
   */
  lemma RequestOrdering(ks: seq<Key>)
    requires ks != []
    ensures var e := SubmitAll(Start(1).value, ks);
      ServeOrder(e) == [ks[0]] + Reverse(ks[1..])
  {
    var e0 := Start(1).value;
    var e1 := Submit(e0, ks[0]);
    assert e1 == Executor(1, 1, [ks[0]], []);
    SubmitAllWhenBusy(e1, ks[1..]);
    ServeOrderIsQueueOrder(SubmitAll(e1, ks[1..]));
  }
}
