/**
 * The worker pool of task2/matrix_mul (worker_pool.h, worker_pool.c).
 *
 * Threads are not modelled. Each worker is a state, `Running` or
 * `Terminated`, and the scheduler is a sequence of steps: one iteration
 * of one worker's loop at a time, with an arbitrary choice of which
 * running worker goes next. The handler the pool was created with is
 * code this model cannot see, so the pool records the payloads it is
 * called on, in order, in `executed`.
 */
module WorkerPool {
  import opened ChunkQueue

  /** `struct WP_TaskWrapper` with its `enum WP_TaskType`: an EXEC carries a payload, a KILL carries NULL. */
  datatype TaskWrapper<P> = Exec(task: P) | Kill

  /** Whether a worker thread is still in its loop. */
  datatype WorkerState = Running | Terminated

  /** The wrappers `WP_enqueue_task` makes for the payloads `ps`, in order. */
  ghost function Execs<P>(ps: seq<P>): seq<TaskWrapper<P>>
  {
    if ps == [] then [] else [Exec(ps[0])] + Execs(ps[1..])
  }

  /** The `n` wrappers `WP_request_stop` makes. */
  ghost function Kills<P>(n: nat): seq<TaskWrapper<P>>
  {
    if n == 0 then [] else [Kill] + Kills(n - 1)
  }

  lemma {:induction false} ExecsSnoc<P>(ps: seq<P>, p: P)
    ensures Execs(ps + [p]) == Execs(ps) + [Exec(p)]
  {
    if ps != [] {
      assert (ps + [p])[1..] == ps[1..] + [p];
      ExecsSnoc(ps[1..], p);
    } else {
      assert Execs([p]) == [Exec(p)] + Execs([]);
    }
  }

  lemma {:induction false} KillsSnoc<P>(n: nat)
    ensures Kills<P>(n + 1) == Kills<P>(n) + [Kill]
  {
    if n > 0 {
      KillsSnoc<P>(n - 1);
    }
  }

  /**
   * Taking the oldest wrapper off `Execs(ps[j..]) + rest`: while EXECs
   * remain it is the EXEC for `ps[j]`, and once they are used up it is the
   * head of `rest`. `e` is the log of handler calls so far.
   */
  lemma {:induction false} TakeExecs<P>(ps: seq<P>, j: nat, rest: seq<TaskWrapper<P>>,
                                        tw: TaskWrapper<P>, c: seq<TaskWrapper<P>>, e: seq<P>)
    requires j <= |ps| && [tw] + c == Execs(ps[j..]) + rest
    ensures j < |ps| ==> tw == Exec(ps[j]) && c == Execs(ps[j + 1..]) + rest
    ensures j < |ps| ==> (e + ps[..j]) + [ps[j]] == e + ps[..j + 1]
    ensures j == |ps| ==> [tw] + c == rest && e + ps[..j] == e + ps
  {
    if j < |ps| {
      assert ps[j..][1..] == ps[j + 1..];
      assert Execs(ps[j..]) + rest == [Exec(ps[j])] + (Execs(ps[j + 1..]) + rest);
      ConsInjective(tw, c, Exec(ps[j]), Execs(ps[j + 1..]) + rest);
      assert ps[..j + 1] == ps[..j] + [ps[j]];
    } else {
      assert ps[j..] == [] && ps[..j] == ps;
    }
  }

  /** Taking the oldest wrapper off `n` KILLs leaves `n - 1` of them. */
  lemma {:induction false} TakeKill<P>(n: nat, tw: TaskWrapper<P>, c: seq<TaskWrapper<P>>)
    requires [tw] + c == Kills(n)
    ensures n > 0 && tw == Kill && c == Kills(n - 1)
  {
    assert |Kills<P>(n)| > 0;
    ConsInjective(tw, c, Kill, Kills(n - 1));
  }

  lemma ConsInjective<X>(a: X, s: seq<X>, b: X, t: seq<X>)
    requires [a] + s == [b] + t
    ensures a == b && s == t
  {
    assert s == ([a] + s)[1..];
    assert t == ([b] + t)[1..];
  }

  /** How many workers are still running. */
  function RunningCount(ws: seq<WorkerState>): (n: nat)
    ensures n <= |ws|
    ensures n > 0 <==> exists w :: 0 <= w < |ws| && ws[w] == Running
  {
    if ws == [] then 0
    else
      var n := RunningCount(ws[1..]);
      assert forall w :: 0 < w < |ws| ==> ws[w] == ws[1..][w - 1];
      if ws[0] == Running then n + 1 else n
  }

  /** Terminating one running worker leaves one fewer running. */
  lemma {:induction false} RunningCountTerminate(ws: seq<WorkerState>, w: int)
    requires 0 <= w < |ws| && ws[w] == Running
    ensures RunningCount(ws[w := Terminated]) == RunningCount(ws) - 1
  {
    if w > 0 {
      assert ws[w := Terminated][1..] == ws[1..][w - 1 := Terminated];
      RunningCountTerminate(ws[1..], w - 1);
    } else {
      assert ws[w := Terminated][1..] == ws[1..];
    }
  }

  /**
   * `struct WorkerPool` together with its `struct WP_Argument`: the
   * thread count, one worker per thread, and the queue every worker shares.
   */
  class Pool<P> {
    const threadCount: int
    const queue: Queue<TaskWrapper<P>>
    var workers: seq<WorkerState>
    var executed: seq<P>

    /** One worker per thread (none when the count is not positive) and a well-formed queue. */
    ghost predicate Valid()
      reads this, queue, queue.Repr()
    {
      && queue.Valid()
      && |workers| == (if threadCount > 0 then threadCount else 0)
    }

    /**
     * `WP_create`: records the thread count and gives every worker the same
     * fresh, empty queue; every worker starts running.
     */
    constructor (threadCount: int)
      ensures Valid() && fresh(queue) && fresh(queue.Repr())
      ensures this.threadCount == threadCount
      ensures queue.Contents() == [] && queue.dispatched == 0
      ensures queue.Capacity() == MaxLiveChunks * ChunkSize
      ensures forall w :: 0 <= w < |workers| ==> workers[w] == Running
      ensures RunningCount(workers) == |workers| && executed == []
    {
      this.threadCount := threadCount;
      queue := new Queue();
      workers := seq(if threadCount > 0 then threadCount else 0, _ => Running);
      executed := [];
      new;
      AllRunning(workers);
    }

    static lemma {:induction false} AllRunning(ws: seq<WorkerState>)
      requires forall w :: 0 <= w < |ws| ==> ws[w] == Running
      ensures RunningCount(ws) == |ws|
    {
      if ws != [] {
        AllRunning(ws[1..]);
      }
    }

    /**
     * `WP_enqueue_task`: one EXEC wrapper carrying `task` goes to the back
     * of the queue. The call blocks while `QUEUE_add` would; the model
     * requires that it would not.
     */
    method EnqueueTask(task: P)
      requires Valid()
      requires !(queue.back.filled >= ChunkSize && queue.liveChunkCount >= MaxLiveChunks)
      modifies queue.Repr()
      ensures Valid() && fresh(queue.Repr() - old(queue.Repr()))
      ensures queue.Contents() == old(queue.Contents()) + [Exec(task)]
      ensures queue.dispatched == old(queue.dispatched)
      ensures queue.Capacity() == old(queue.Capacity()) - 1
    {
      queue.Add(Exec(task));
    }

    /** `WP_enqueue_task` for each of `ps` in turn, as a driver would call it. */
    method EnqueueAll(ps: seq<P>)
      requires Valid() && queue.Capacity() >= |ps|
      modifies queue.Repr()
      ensures Valid() && fresh(queue.Repr() - old(queue.Repr()))
      ensures queue.Contents() == old(queue.Contents()) + Execs(ps)
      ensures queue.dispatched == old(queue.dispatched)
      ensures queue.Capacity() == old(queue.Capacity()) - |ps|
    {
      var i := 0;
      assert ps[..0] == [];
      while i < |ps|
        invariant Valid() && fresh(queue.Repr() - old(queue.Repr()))
        invariant 0 <= i <= |ps|
        invariant queue.Contents() == old(queue.Contents()) + Execs(ps[..i])
        invariant queue.dispatched == old(queue.dispatched)
        invariant queue.Capacity() == old(queue.Capacity()) - i
      {
        ghost var r := queue.Repr();
        label step:
        PushExec(old(queue.Contents()), ps, i);
        forall o | o in queue.Repr() && o !in old(queue.Repr()) ensures fresh(o) {
          if o !in r {
            assert !old@step(allocated(o));
            assert old(allocated(o)) ==> old@step(allocated(o));
          }
        }
        i := i + 1;
      }
      assert ps[..i] == ps;
    }

    /** The body of `EnqueueAll`'s loop: the task `ps[i]` joins those before it. */
    method PushExec(ghost c: seq<TaskWrapper<P>>, ps: seq<P>, i: nat)
      requires Valid() && queue.Capacity() > 0 && i < |ps|
      requires queue.Contents() == c + Execs(ps[..i])
      modifies queue.Repr()
      ensures Valid() && fresh(queue.Repr() - old(queue.Repr()))
      ensures queue.Contents() == c + Execs(ps[..i + 1])
      ensures queue.dispatched == old(queue.dispatched)
      ensures queue.Capacity() == old(queue.Capacity()) - 1
    {
      queue.AddGuard();
      EnqueueTask(ps[i]);
      ExecsSnoc(ps[..i], ps[i]);
      assert ps[..i + 1] == ps[..i] + [ps[i]];
    }

    /**
     * `WP_request_stop`: one KILL per thread goes to the back of the queue,
     * behind everything already queued. In the source each `QUEUE_add`
     * may wait for running workers to make room; with the workers not
     * running meanwhile, the model requires the room up front.
     */
    method RequestStop()
      requires Valid() && queue.Capacity() >= |workers|
      modifies queue.Repr()
      ensures Valid() && fresh(queue.Repr() - old(queue.Repr()))
      ensures queue.Contents() == old(queue.Contents()) + Kills(|workers|)
      ensures queue.dispatched == old(queue.dispatched)
      ensures queue.Capacity() == old(queue.Capacity()) - |workers|
    {
      var i := 0;
      while i < threadCount
        invariant Valid() && fresh(queue.Repr() - old(queue.Repr()))
        invariant 0 <= i <= |workers| || (i == 0 && threadCount <= 0)
        invariant queue.Contents() == old(queue.Contents()) + Kills(i)
        invariant queue.dispatched == old(queue.dispatched)
        invariant queue.Capacity() == old(queue.Capacity()) - i
      {
        ghost var r := queue.Repr();
        label step:
        PushKill(old(queue.Contents()), i);
        forall o | o in queue.Repr() && o !in old(queue.Repr()) ensures fresh(o) {
          if o !in r {
            assert !old@step(allocated(o));
            assert old(allocated(o)) ==> old@step(allocated(o));
          }
        }
        i := i + 1;
      }
    }

    /** The body of `WP_request_stop`'s loop: the `i`-th KILL joins the `i - 1` before it. */
    method PushKill(ghost c: seq<TaskWrapper<P>>, ghost i: nat)
      requires Valid() && queue.Capacity() > 0
      requires queue.Contents() == c + Kills(i)
      modifies queue.Repr()
      ensures Valid() && fresh(queue.Repr() - old(queue.Repr()))
      ensures queue.Contents() == c + Kills(i + 1)
      ensures queue.dispatched == old(queue.dispatched)
      ensures queue.Capacity() == old(queue.Capacity()) - 1
    {
      queue.AddGuard();
      queue.Add(Kill);
      KillsSnoc<P>(i);
    }

    /**
     * One iteration of `_WP_run_helper_function`'s loop for worker `w`:
     * take the oldest wrapper; on a KILL register completion and stop; on
     * an EXEC call the handler on its payload, register completion and
     * carry on. The call blocks while `QUEUE_get` would; the model requires
     * a non-empty queue. The unexpected-tag exit of the source cannot
     * arise: a wrapper is an EXEC or a KILL.
     */
    method WorkerStep(w: int) returns (tw: TaskWrapper<P>)
      requires Valid() && 0 <= w < |workers| && workers[w] == Running
      requires queue.Contents() != []
      modifies this`workers, this`executed, queue.Repr()
      ensures Valid() && fresh(queue.Repr() - old(queue.Repr()))
      ensures old(queue.Contents()) == [tw] + queue.Contents()
      ensures queue.dispatched == old(queue.dispatched)
      ensures tw.Kill? ==> workers == old(workers)[w := Terminated] && executed == old(executed)
      ensures tw.Exec? ==> workers == old(workers) && executed == old(executed) + [tw.task]
    {
      queue.GetGuard();
      tw := queue.Get();
      match tw
      case Kill =>
        queue.RegisterCompletion();
        workers := workers[w := Terminated];
      case Exec(task) =>
        executed := executed + [task];
        queue.RegisterCompletion();
    }

    /**
     * `_WP_run_helper_function` for worker `w`, run alone until it leaves
     * its loop: it executes every EXEC ahead of the first KILL, in queue
     * order, consumes that KILL and terminates.
     */
    method Run(w: int, ghost ps: seq<P>, ghost rest: seq<TaskWrapper<P>>)
      requires Valid() && 0 <= w < |workers| && workers[w] == Running
      requires queue.Contents() == Execs(ps) + ([Kill] + rest)
      modifies this`workers, this`executed, queue.Repr()
      ensures Valid() && fresh(queue.Repr() - old(queue.Repr()))
      ensures queue.Contents() == rest && executed == old(executed) + ps
      ensures workers == old(workers)[w := Terminated]
      ensures queue.dispatched == old(queue.dispatched)
    {
      ghost var j := 0;
      assert ps[0..] == ps;
      while true
        invariant queue.Valid()
        invariant |workers| == (if threadCount > 0 then threadCount else 0)
        invariant fresh(queue.Repr() - old(queue.Repr()))
        invariant 0 <= j <= |ps| && workers == old(workers)
        invariant queue.Contents() == Execs(ps[j..]) + ([Kill] + rest)
        invariant executed == old(executed) + ps[..j]
        invariant queue.dispatched == old(queue.dispatched)
        decreases |queue.Contents()|
      {
        ghost var r := queue.Repr();
        label step:
        var tw := WorkerStep(w);
        forall o | o in queue.Repr() && o !in old(queue.Repr()) ensures fresh(o) {
          if o !in r {
            assert !old@step(allocated(o));
            assert old(allocated(o)) ==> old@step(allocated(o));
          }
        }
        TakeExecs(ps, j, [Kill] + rest, tw, queue.Contents(), old(executed));
        if j < |ps| {
          j := j + 1;
        } else {
          ConsInjective(tw, queue.Contents(), Kill, rest);
        }
        if tw.Kill? {
          return;
        }
      }
    }

    /**
     * `WP_join`: waits until every worker has left its loop. The workers
     * take turns in any order; the queue holds EXECs for `ps` followed by
     * one KILL per running worker, as `WP_request_stop` leaves it. Every
     * EXEC is then run exactly once, in queue order, before any worker
     * terminates, and the queue ends empty. With no running worker nothing
     * is taken off the queue.
     */
    method Join(ghost ps: seq<P>)
      requires Valid()
      requires queue.Contents() == Execs(ps) + Kills(RunningCount(workers))
      modifies this`workers, this`executed, queue.Repr()
      ensures Valid() && fresh(queue.Repr() - old(queue.Repr()))
      ensures forall w :: 0 <= w < |workers| ==> workers[w] == Terminated
      ensures queue.dispatched == old(queue.dispatched)
      ensures old(RunningCount(workers)) > 0 ==> executed == old(executed) + ps && queue.Contents() == []
      ensures old(RunningCount(workers)) == 0 ==>
                executed == old(executed) && queue.Contents() == old(queue.Contents())
    {
      ghost var j := 0;
      assert ps[0..] == ps;
      while RunningCount(workers) > 0
        invariant Valid() && fresh(queue.Repr() - old(queue.Repr()))
        invariant 0 <= j <= |ps|
        invariant queue.Contents() == Execs(ps[j..]) + Kills(RunningCount(workers))
        invariant executed == old(executed) + ps[..j]
        invariant queue.dispatched == old(queue.dispatched)
        invariant RunningCount(workers) < old(RunningCount(workers)) ==> j == |ps|
        invariant old(RunningCount(workers)) == 0 ==> j == 0
        decreases |queue.Contents()|
      {
        ghost var r := queue.Repr();
        label turn:
        ghost var k;
        j, k := Turn(ps, j, RunningCount(workers), old(executed));
        forall o | o in queue.Repr() && o !in old(queue.Repr()) ensures fresh(o) {
          if o !in r {
            assert !old@turn(allocated(o));
            assert old(allocated(o)) ==> old@turn(allocated(o));
          }
        }
      }
      if old(RunningCount(workers)) > 0 {
        assert ps[j..] == [] && ps[..j] == ps;
      }
    }

    /**
     * One turn of the scheduler while some worker is running and the queue
     * is not empty: an arbitrary running worker takes one step. The queue
     * holds the EXECs for `ps[j..]` ahead of `k` KILLs, so the step runs
     * `ps[j]` if that is left and otherwise takes a KILL and terminates
     * the worker.
     */
    method Turn(ghost ps: seq<P>, ghost j: nat, ghost k: nat, ghost e: seq<P>) returns (ghost j': nat, ghost k': nat)
      requires Valid() && RunningCount(workers) > 0 && j <= |ps| && (j < |ps| || k > 0)
      requires queue.Contents() == Execs(ps[j..]) + Kills(k)
      requires executed == e + ps[..j]
      modifies this`workers, this`executed, queue.Repr()
      ensures Valid() && fresh(queue.Repr() - old(queue.Repr()))
      ensures j <= j' <= |ps| && |workers| == |old(workers)|
      ensures queue.Contents() == Execs(ps[j'..]) + Kills(k')
      ensures executed == e + ps[..j']
      ensures queue.dispatched == old(queue.dispatched)
      ensures j < |ps| ==> j' == j + 1 && k' == k && RunningCount(workers) == old(RunningCount(workers))
      ensures j == |ps| ==> j' == j && k' == k - 1 && RunningCount(workers) == old(RunningCount(workers)) - 1
      ensures RunningCount(workers) - k' == old(RunningCount(workers)) - k
      ensures RunningCount(workers) < old(RunningCount(workers)) ==> j' == |ps|
      ensures |queue.Contents()| < old(|queue.Contents()|)
    {
      var w :| 0 <= w < |workers| && workers[w] == Running;
      ghost var ws := workers;
      var tw := WorkerStep(w);
      TakeExecs(ps, j, Kills(k), tw, queue.Contents(), e);
      if j < |ps| {
        j', k' := j + 1, k;
      } else {
        j', k' := j, k - 1;
        TakeKill(k, tw, queue.Contents());
        RunningCountTerminate(ws, w);
      }
    }

    /**
     * The pool part-way through its life: of the tasks `ps`, the first `i`
     * and then `stops` KILLs have been enqueued; `j` tasks have run and
     * `k` KILLs wait behind the EXECs still queued; each KILL taken has
     * terminated one worker, and only once every task had run.
     */
    ghost predicate Stage(ps: seq<P>, i: int, stops: int, j: int, k: int)
      reads this, queue, queue.Repr()
    {
      && Valid() && threadCount > 0
      && 0 <= j <= i <= |ps| && 0 <= k <= stops <= threadCount
      && (stops > 0 ==> i == |ps|) && (stops > k ==> j == |ps|)
      && queue.Contents() == Execs(ps[j..i]) + Kills(k) && executed == ps[..j]
      && RunningCount(workers) == threadCount - (stops - k)
    }

    /** The next task joins the queue behind those already enqueued. */
    method StageTask(ps: seq<P>, i: nat, stops: nat, ghost j: nat, ghost k: nat)
      requires Stage(ps, i, stops, j, k) && i < |ps| && queue.Capacity() > 0
      modifies queue.Repr()
      ensures Stage(ps, i + 1, stops, j, k) && fresh(queue.Repr() - old(queue.Repr()))
      ensures queue.dispatched == old(queue.dispatched)
      ensures |queue.Contents()| == old(|queue.Contents()|) + 1
    {
      queue.AddGuard();
      EnqueueTask(ps[i]);
      ExecsSnoc(ps[j..i], ps[i]);
      assert ps[j..i] + [ps[i]] == ps[j..i + 1];
    }

    /** Once every task is enqueued, one more KILL joins the queue. */
    method StageKill(ghost ps: seq<P>, ghost i: nat, stops: nat, ghost j: nat, ghost k: nat)
      requires Stage(ps, i, stops, j, k) && i == |ps| && stops < threadCount && queue.Capacity() > 0
      modifies queue.Repr()
      ensures Stage(ps, i, stops + 1, j, k + 1) && fresh(queue.Repr() - old(queue.Repr()))
      ensures queue.dispatched == old(queue.dispatched)
      ensures |queue.Contents()| == old(|queue.Contents()|) + 1
    {
      PushKill(Execs(ps[j..i]), k);
    }

    /** A running worker takes one step off the non-empty queue. */
    method StageTurn(ghost ps: seq<P>, ghost i: nat, ghost stops: nat, ghost j: nat, ghost k: nat)
      returns (ghost j': nat, ghost k': nat)
      requires Stage(ps, i, stops, j, k) && queue.Contents() != []
      modifies this`workers, this`executed, queue.Repr()
      ensures Stage(ps, i, stops, j', k') && fresh(queue.Repr() - old(queue.Repr()))
      ensures queue.dispatched == old(queue.dispatched)
      ensures |queue.Contents()| < old(|queue.Contents()|)
    {
      assert ps[..i][j..] == ps[j..i] && ps[..i][..j] == ps[..j];
      j', k' := Turn(ps[..i], j, k, []);
      assert ps[..i][j'..] == ps[j'..i] && ps[..i][..j'] == ps[..j'];
    }

    /**
     * One step of the pool's life after `WP_create`: either the next
     * `QUEUE_add` (a task, then the KILLs) goes ahead when it would not
     * block, or a running worker takes a step when its `QUEUE_get` would
     * not block. The choice is arbitrary.
     */
    method Advance(ps: seq<P>, i: nat, stops: nat, ghost j: nat, ghost k: nat)
      returns (i': nat, stops': nat, ghost j': nat, ghost k': nat)
      requires Stage(ps, i, stops, j, k) && (i < |ps| || stops < threadCount)
      modifies this`workers, this`executed, queue.Repr()
      ensures Stage(ps, i', stops', j', k') && fresh(queue.Repr() - old(queue.Repr()))
      ensures queue.dispatched == old(queue.dispatched)
      ensures 2 * (|ps| - i') + 2 * (threadCount - stops') + |queue.Contents()|
            < 2 * (|ps| - i) + 2 * (threadCount - stops) + old(|queue.Contents()|)
    {
      queue.AddGuard();
      queue.GetGuard();
      var canAdd := !(queue.back.filled >= ChunkSize && queue.liveChunkCount >= MaxLiveChunks);
      var canGet := queue.front.next < queue.front.filled;
      var add :| (add ==> canAdd) && (!add ==> canGet);
      if add && i < |ps| {
        StageTask(ps, i, stops, j, k);
        i', stops', j', k' := i + 1, stops, j, k;
      } else if add {
        StageKill(ps, i, stops, j, k);
        i', stops', j', k' := i, stops + 1, j, k + 1;
      } else {
        j', k' := StageTurn(ps, i, stops, j, k);
        i', stops' := i, stops;
      }
    }
  }

  /**
   * The life of a pool as `WP_create`, `WP_enqueue_task`, `WP_request_stop`
   * and `WP_join` are meant to be used, with the workers running all along:
   * the tasks and then the KILLs are enqueued while workers take steps in
   * an arbitrary interleaving, and the join lets the workers finish. With
   * at least one thread, every task runs exactly once, in order, all
   * workers terminate, the queue ends empty and every dispatched task has
   * been registered as completed.
   */
  method Lifecycle<P>(threadCount: int, ps: seq<P>) returns (pool: Pool<P>)
    requires threadCount > 0
    ensures pool.executed == ps && pool.queue.Contents() == [] && pool.queue.dispatched == 0
    ensures forall w :: 0 <= w < |pool.workers| ==> pool.workers[w] == Terminated
  {
    pool := new Pool(threadCount);
    var i: nat, stops: nat := 0, 0;
    ghost var j: nat, k: nat := 0, 0;
    while i < |ps| || stops < threadCount
      invariant pool.Stage(ps, i, stops, j, k) && fresh(pool.queue.Repr())
      invariant pool.queue.dispatched == 0
      decreases 2 * (|ps| - i) + 2 * (threadCount - stops) + |pool.queue.Contents()|
    {
      ghost var r := pool.queue.Repr();
      label step:
      i, stops, j, k := pool.Advance(ps, i, stops, j, k);
      forall o | o in pool.queue.Repr() ensures fresh(o) {
        if o !in r {
          assert !old@step(allocated(o));
          assert old(allocated(o)) ==> old@step(allocated(o));
        }
      }
    }
    assert ps[j..i] == ps[j..];
    pool.Join(ps[j..]);
    assert ps[..j] + ps[j..] == ps;
  }
}
