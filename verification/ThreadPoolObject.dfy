/** The pool's own fields changed in place: every critical section and notification of
    sw/itc-common/inc/itcThreadPool.h is one step of the protocol in ThreadPools. */
module ThreadPoolObjects {
  import opened ThreadPools

  class ThreadPool<E> {
    const workers: array<Worker<E>>
    var tasks: seq<E>
    var isTerminated: bool

    /** Callers between unlock and notify, and the record of all tasks. */
    ghost var pendingOne: nat
    ghost var pendingAll: nat
    ghost var accepted: seq<E>
    ghost var started: seq<E>
    ghost var finished: multiset<E>

    ghost function State(): Pool<E>
      reads this, workers
    {
      Pool(tasks, isTerminated, workers[..], pendingOne, pendingAll, accepted, started, finished)
    }

    constructor (workerCount: nat)
      ensures fresh(workers) && State() == NewPool<E>(workerCount)
    {
      tasks, isTerminated := [], false;
      pendingOne, pendingAll := 0, 0;
      accepted, started, finished := [], [], multiset{};
      workers := new Worker<E>[workerCount](_ => Awake);
      new;
      assert workers[..] == NewPool<E>(workerCount).workers;
    }

    /** The critical section of `enqueue`; false stands for the empty future. */
    method EnqueueTask(task: E) returns (ok: bool)
      modifies this
      ensures State() == Next(old(State()), Enqueue(task)) && ok == !old(isTerminated)
      ensures tasks == old(tasks) + (if ok then [task] else []) && isTerminated == old(isTerminated)
      ensures accepted == old(accepted) + (if ok then [task] else [])
      ensures pendingOne == old(pendingOne) + (if ok then 1 else 0)
    {
      if isTerminated {
        return false;
      }
      tasks := tasks + [task];
      accepted, pendingOne := accepted + [task], pendingOne + 1;
      ok := true;
    }

    /** The critical section of `terminate`. */
    method SetFlag()
      modifies this
      ensures State() == Next(old(State()), SetTerminated)
      ensures isTerminated && pendingAll == old(pendingAll) + 1 && tasks == old(tasks) && accepted == old(accepted)
    {
      isTerminated := true;
      pendingAll := pendingAll + 1;
    }

    /** `notify_all` wakes every sleeping worker. */
    method NotifyEverybody()
      requires pendingAll > 0
      modifies this, workers
      ensures State() == Next(old(State()), NotifyAll)
    {
      ghost var was := workers[..];
      pendingAll := pendingAll - 1;
      for i := 0 to workers.Length
        invariant workers[..i] == WakeAll(was)[..i]
        invariant workers[i..] == was[i..]
        invariant State() == old(State()).(pendingAll := old(pendingAll) - 1, workers := workers[..])
      {
        assert workers[i] == was[i];
        if workers[i].Waiting? {
          workers[i] := Awake;
        }
        assert workers[..i + 1] == workers[..i] + [workers[i]];
      }
      assert workers[..] == WakeAll(was);
    }

    /** `notify_one` wakes the worker that the condition variable picks. */
    method NotifySomebody(i: nat)
      requires pendingOne > 0 && i < workers.Length && workers[i].Waiting?
      modifies this, workers
      ensures State() == Next(old(State()), NotifyOne(i)) && workers[i].Awake?
    {
      pendingOne := pendingOne - 1;
      workers[i] := Awake;
    }

    /** One turn of worker i: test the wait predicate and take a task under the mutex, or end
        the task it was running. */
    method Turn(i: nat)
      requires i < workers.Length && (workers[i].Awake? || workers[i].Running?)
      modifies this, workers
      ensures State() == Next(old(State()), WorkerStep(i))
    {
      if workers[i].Running? {
        finished := finished + multiset{workers[i].task};
        workers[i] := Awake;
      } else if !(isTerminated || |tasks| != 0) {
        workers[i] := Waiting;
      } else if isTerminated && |tasks| == 0 {
        workers[i] := Exited;
      } else {
        var task := tasks[0];
        tasks := tasks[1..];
        started := started + [task];
        workers[i] := Running(task);
      }
    }
  }
}
