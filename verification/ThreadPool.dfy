/** `ThreadPool`: workers sleeping on a condition variable, a task queue under a mutex and a
    termination flag. Each critical section, each notification and the end of each task is one
    step; the notifications follow their critical sections as separate steps. */
module ThreadPools {

  /** Awake workers are about to take the mutex and test the wait predicate. */
  datatype Worker<E> = Waiting | Awake | Running(task: E) | Exited

  /** `pendingOne` and `pendingAll` count callers between their unlock and their notify call.
      `accepted`, `started` and `finished` record the tasks by what has happened to them. */
  datatype Pool<E> = Pool(tasks: seq<E>, isTerminated: bool, workers: seq<Worker<E>>,
                          pendingOne: nat, pendingAll: nat,
                          accepted: seq<E>, started: seq<E>, finished: multiset<E>)

  datatype Action<E> =
    | Enqueue(task: E)
    | NotifyOne(target: nat)
    | SetTerminated
    | NotifyAll
    | WorkerStep(worker: nat)
    | SpuriousWakeup(worker: nat)

  function NewPool<E>(n: nat): Pool<E> {
    Pool([], false, seq(n, _ => Awake), 0, 0, [], [], multiset{})
  }

  function WakeAll<E>(workers: seq<Worker<E>>): (woken: seq<Worker<E>>)
    ensures |woken| == |workers|
  {
    seq(|workers|, i requires 0 <= i < |workers| => if workers[i].Waiting? then Awake else workers[i])
  }

  function SomeWaiting<E>(workers: seq<Worker<E>>): bool {
    exists i :: 0 <= i < |workers| && workers[i].Waiting?
  }

  /** One pass of the worker loop's critical section, or the end of its task. */
  function Work<E>(p: Pool<E>, i: nat): (p': Pool<E>)
    requires i < |p.workers|
    ensures |p'.workers| == |p.workers|
  {
    match p.workers[i]
    case Awake =>
      if !(p.isTerminated || p.tasks != []) then p.(workers := p.workers[i := Waiting])
      else if p.isTerminated && p.tasks == [] then p.(workers := p.workers[i := Exited])
      else p.(tasks := p.tasks[1..], workers := p.workers[i := Running(p.tasks[0])], started := p.started + [p.tasks[0]])
    case Running(t) => p.(workers := p.workers[i := Awake], finished := p.finished + multiset{t})
    case _ => p
  }

  /** A choice that the condition variable cannot make leaves everything as it is. */
  function Next<E>(p: Pool<E>, a: Action<E>): (p': Pool<E>)
    ensures |p'.workers| == |p.workers|
  {
    match a
    case Enqueue(t) =>
      if p.isTerminated then p
      else p.(tasks := p.tasks + [t], accepted := p.accepted + [t], pendingOne := p.pendingOne + 1)
    case NotifyOne(i) =>
      if p.pendingOne == 0 then p
      else if i < |p.workers| && p.workers[i].Waiting? then
        p.(pendingOne := p.pendingOne - 1, workers := p.workers[i := Awake])
      else if SomeWaiting(p.workers) then p
      else p.(pendingOne := p.pendingOne - 1)
    case SetTerminated => p.(isTerminated := true, pendingAll := p.pendingAll + 1)
    case NotifyAll =>
      if p.pendingAll == 0 then p
      else p.(pendingAll := p.pendingAll - 1, workers := WakeAll(p.workers))
    case WorkerStep(i) => if i < |p.workers| then Work(p, i) else p
    case SpuriousWakeup(i) =>
      if i < |p.workers| && p.workers[i].Waiting? then p.(workers := p.workers[i := Awake]) else p
  }

  function Exec<E>(p: Pool<E>, schedule: seq<Action<E>>): (p': Pool<E>)
    ensures |p'.workers| == |p.workers|
    decreases |schedule|
  {
    if schedule == [] then p else Exec(Next(p, schedule[0]), schedule[1..])
  }

  // ---------------------------------------------------------------- counting workers

  function Sleepers<E>(workers: seq<Worker<E>>): nat {
    if workers == [] then 0
    else Sleepers(workers[..|workers| - 1]) + (if workers[|workers| - 1].Waiting? then 1 else 0)
  }

  function Alert<E>(workers: seq<Worker<E>>): nat {
    if workers == [] then 0
    else Alert(workers[..|workers| - 1]) + (if workers[|workers| - 1].Awake? then 1 else 0)
  }

  /** The tasks being run right now. */
  function InProgress<E>(workers: seq<Worker<E>>): multiset<E> {
    if workers == [] then multiset{}
    else InProgress(workers[..|workers| - 1]) + Own(workers[|workers| - 1])
  }

  function Own<E>(w: Worker<E>): multiset<E> {
    if w.Running? then multiset{w.task} else multiset{}
  }

  /** How many steps a worker still has before it must have exited, tasks aside. */
  function Weight<E>(w: Worker<E>): nat {
    match w
    case Waiting => 2
    case Awake => 1
    case Running(_) => 2
    case Exited => 0
  }

  function TotalWeight<E>(workers: seq<Worker<E>>): nat {
    if workers == [] then 0
    else TotalWeight(workers[..|workers| - 1]) + Weight(workers[|workers| - 1])
  }

  lemma {:induction false} CountsUpdate<E>(workers: seq<Worker<E>>, i: nat, w: Worker<E>)
    requires i < |workers|
    ensures Sleepers(workers[i := w]) + (if workers[i].Waiting? then 1 else 0)
            == Sleepers(workers) + (if w.Waiting? then 1 else 0)
    ensures Alert(workers[i := w]) + (if workers[i].Awake? then 1 else 0)
            == Alert(workers) + (if w.Awake? then 1 else 0)
    ensures TotalWeight(workers[i := w]) + Weight(workers[i]) == TotalWeight(workers) + Weight(w)
  {
    var n := |workers| - 1;
    if i == n {
      assert workers[i := w][..n] == workers[..n];
    } else {
      assert workers[i := w][..n] == workers[..n][i := w];
      CountsUpdate(workers[..n], i, w);
    }
  }

  lemma InProgressLast<E>(workers: seq<Worker<E>>, n: nat, front: seq<Worker<E>>, last: Worker<E>)
    requires |workers| == n + 1 && front == workers[..n] && last == workers[n]
    ensures InProgress(workers) == InProgress(front) + Own(last)
  {
  }

  lemma {:induction false} InProgressUpdate<E>(workers: seq<Worker<E>>, i: nat, w: Worker<E>)
    requires i < |workers|
    ensures InProgress(workers[i := w]) + Own(workers[i]) == InProgress(workers) + Own(w)
  {
    var n: nat := |workers| - 1;
    var front, last := workers[..n], workers[n];
    InProgressLast(workers, n, front, last);
    if i == n {
      InProgressLast(workers[i := w], n, front, w);
      SwapLast(InProgress(front), Own(w), Own(last));
    } else {
      InProgressLast(workers[i := w], n, front[i := w], last);
      InProgressUpdate(front, i, w);
      AddBoth(InProgress(front[i := w]), Own(workers[i]), InProgress(front), Own(w), Own(last));
    }
  }

  lemma SwapLast<E>(a: multiset<E>, b: multiset<E>, c: multiset<E>)
    ensures a + b + c == a + c + b
  {
  }

  lemma AddBoth<E>(a: multiset<E>, b: multiset<E>, c: multiset<E>, d: multiset<E>, x: multiset<E>)
    requires a + b == c + d
    ensures (a + x) + b == (c + x) + d
  {
    forall e ensures ((a + x) + b)[e] == ((c + x) + d)[e] {
      assert (a + b)[e] == (c + d)[e];
    }
  }

  lemma {:induction false} CountsWakeAll<E>(workers: seq<Worker<E>>)
    ensures Sleepers(WakeAll(workers)) == 0
    ensures Alert(WakeAll(workers)) == Alert(workers) + Sleepers(workers)
    ensures TotalWeight(WakeAll(workers)) + Sleepers(workers) == TotalWeight(workers)
    ensures InProgress(WakeAll(workers)) == InProgress(workers)
  {
    if workers != [] {
      var n := |workers| - 1;
      assert WakeAll(workers)[..n] == WakeAll(workers[..n]);
      CountsWakeAll(workers[..n]);
    }
  }

  lemma {:induction false} NoSleepers<E>(workers: seq<Worker<E>>)
    ensures Sleepers(workers) == 0 <==> !SomeWaiting(workers)
    ensures Alert(workers) > 0 ==> exists i :: 0 <= i < |workers| && workers[i].Awake?
    ensures (forall i :: 0 <= i < |workers| ==> workers[i].Exited?) ==> InProgress(workers) == multiset{}
  {
    if workers != [] {
      var n := |workers| - 1;
      NoSleepers(workers[..n]);
      assert forall i :: 0 <= i < n ==> workers[..n][i] == workers[i];
    }
  }

  lemma {:induction false} FreshCounts<E>(n: nat)
    ensures Sleepers(NewPool<E>(n).workers) == 0 && InProgress(NewPool<E>(n).workers) == multiset{}
  {
    if n > 0 {
      assert NewPool<E>(n).workers[..n - 1] == NewPool<E>(n - 1).workers;
      FreshCounts<E>(n - 1);
    }
  }

  // ---------------------------------------------------------------- invariant

  /** While anybody sleeps, every queued task has an awake worker or a notification of its own;
      once the pool is terminated, nobody sleeps unless notify_all is still to come. */
  ghost predicate Covered<E>(p: Pool<E>) {
    && (Sleepers(p.workers) == 0 || |p.tasks| <= p.pendingOne + Alert(p.workers))
    && (p.isTerminated ==> Sleepers(p.workers) == 0 || p.pendingAll > 0)
  }

  /** Tasks are started in the order of acceptance, and each started one is running or done. */
  ghost predicate Recorded<E>(p: Pool<E>) {
    && p.accepted == p.started + p.tasks
    && multiset(p.started) == p.finished + InProgress(p.workers)
  }

  ghost predicate ExitOk<E>(p: Pool<E>) {
    forall i :: 0 <= i < |p.workers| && p.workers[i].Exited? ==> p.isTerminated && p.tasks == []
  }

  ghost predicate Inv<E>(p: Pool<E>) {
    Covered(p) && Recorded(p) && ExitOk(p)
  }

  lemma WorkCovered<E>(p: Pool<E>, i: nat)
    requires Covered(p) && i < |p.workers|
    ensures Covered(Work(p, i))
  {
    CountsUpdate(p.workers, i, Work(p, i).workers[i]);
  }

  /** A worker that starts, keeps or finishes nothing leaves the bag of running tasks alone. */
  lemma InProgressSame<E>(workers: seq<Worker<E>>, i: nat, w: Worker<E>)
    requires i < |workers| && !workers[i].Running? && !w.Running?
    ensures InProgress(workers[i := w]) == InProgress(workers)
  {
    InProgressUpdate(workers, i, w);
    assert InProgress(workers[i := w]) + multiset{} == InProgress(workers[i := w]);
    assert InProgress(workers) + multiset{} == InProgress(workers);
  }

  lemma TakeOrder<E>(accepted: seq<E>, started: seq<E>, tasks: seq<E>)
    requires accepted == started + tasks && tasks != []
    ensures accepted == (started + [tasks[0]]) + tasks[1..]
  {
  }

  lemma TakeBag<E>(started: seq<E>, finished: multiset<E>, bag: multiset<E>, t: E)
    requires multiset(started) == finished + bag
    ensures multiset(started + [t]) == finished + (bag + multiset{t})
  {
  }

  lemma BagTakes<E>(workers: seq<Worker<E>>, i: nat, t: E)
    requires i < |workers| && workers[i].Awake?
    ensures InProgress(workers[i := Running(t)]) == InProgress(workers) + multiset{t}
  {
    InProgressUpdate(workers, i, Running(t));
    var bag' := InProgress(workers[i := Running(t)]);
    assert bag' + multiset{} == bag';
  }

  lemma TakeRecorded<E>(p: Pool<E>, i: nat)
    requires Recorded(p) && i < |p.workers| && p.workers[i].Awake? && p.tasks != []
    ensures Recorded(Work(p, i))
  {
    var t := p.tasks[0];
    BagTakes(p.workers, i, t);
    TakeOrder(p.accepted, p.started, p.tasks);
    TakeBag(p.started, p.finished, InProgress(p.workers), t);
  }

  lemma FinishRecorded<E>(p: Pool<E>, i: nat)
    requires Recorded(p) && i < |p.workers| && p.workers[i].Running?
    ensures Recorded(Work(p, i))
  {
    var t := p.workers[i].task;
    var bag, bag' := InProgress(p.workers), InProgress(p.workers[i := Awake]);
    InProgressUpdate(p.workers, i, Awake);
    assert bag' + multiset{t} == bag by { assert bag + multiset{} == bag; }
    assert (p.finished + multiset{t}) + bag' == p.finished + (bag' + multiset{t});
  }

  lemma WorkRecorded<E>(p: Pool<E>, i: nat)
    requires Recorded(p) && i < |p.workers|
    ensures Recorded(Work(p, i))
  {
    if p.workers[i].Running? {
      FinishRecorded(p, i);
    } else if p.workers[i].Awake? && p.tasks != [] {
      TakeRecorded(p, i);
    } else {
      InProgressSame(p.workers, i, Work(p, i).workers[i]);
      assert p.workers[i := p.workers[i]] == p.workers;
    }
  }

  lemma WorkExitOk<E>(p: Pool<E>, i: nat)
    requires ExitOk(p) && i < |p.workers|
    ensures ExitOk(Work(p, i))
  {
  }

  lemma WorkInv<E>(p: Pool<E>, i: nat)
    requires Inv(p) && i < |p.workers|
    ensures Inv(Work(p, i))
  {
    WorkCovered(p, i);
    WorkRecorded(p, i);
    WorkExitOk(p, i);
  }

  lemma WakeCovered<E>(p: Pool<E>, i: nat, pendingOne: nat)
    requires Covered(p) && i < |p.workers| && p.workers[i].Waiting? && p.pendingOne <= pendingOne + 1
    ensures Covered(p.(pendingOne := pendingOne, workers := p.workers[i := Awake]))
  {
    CountsUpdate(p.workers, i, Awake);
  }

  lemma WakeInv<E>(p: Pool<E>, i: nat, pendingOne: nat)
    requires Inv(p) && i < |p.workers| && p.workers[i].Waiting? && p.pendingOne <= pendingOne + 1
    ensures Inv(p.(pendingOne := pendingOne, workers := p.workers[i := Awake]))
  {
    WakeCovered(p, i, pendingOne);
    InProgressSame(p.workers, i, Awake);
  }

  lemma WakeAllInv<E>(p: Pool<E>, pendingAll: nat)
    requires Inv(p)
    ensures Inv(p.(pendingAll := pendingAll, workers := WakeAll(p.workers)))
  {
    CountsWakeAll(p.workers);
  }

  lemma EnqueueInv<E>(p: Pool<E>, t: E)
    requires Inv(p)
    ensures Inv(Next(p, Enqueue(t)))
  {
    assert p.started + (p.tasks + [t]) == (p.started + p.tasks) + [t];
  }

  lemma NotifyInv<E>(p: Pool<E>, i: nat)
    requires Inv(p)
    ensures Inv(Next(p, NotifyOne(i)))
  {
    NoSleepers(p.workers);
    if p.pendingOne > 0 && i < |p.workers| && p.workers[i].Waiting? {
      WakeInv(p, i, p.pendingOne - 1);
    }
  }

  lemma NextInv<E>(p: Pool<E>, a: Action<E>)
    requires Inv(p)
    ensures Inv(Next(p, a))
  {
    match a
    case Enqueue(t) => EnqueueInv(p, t);
    case NotifyOne(i) => NotifyInv(p, i);
    case NotifyAll => if p.pendingAll > 0 { WakeAllInv(p, p.pendingAll - 1); }
    case WorkerStep(i) => if i < |p.workers| { WorkInv(p, i); }
    case SpuriousWakeup(i) => if i < |p.workers| && p.workers[i].Waiting? { WakeInv(p, i, p.pendingOne); }
    case SetTerminated =>
  }

  lemma {:induction false} ExecInv<E>(p: Pool<E>, schedule: seq<Action<E>>)
    requires Inv(p)
    ensures Inv(Exec(p, schedule))
    decreases |schedule|
  {
    if schedule != [] {
      NextInv(p, schedule[0]);
      ExecInv(Next(p, schedule[0]), schedule[1..]);
    }
  }

  lemma RunInv<E>(n: nat, schedule: seq<Action<E>>)
    ensures Inv(Exec(NewPool<E>(n), schedule))
  {
    FreshCounts<E>(n);
    assert Inv(NewPool<E>(n));
    ExecInv(NewPool<E>(n), schedule);
  }

  // ---------------------------------------------------------------- main results

  /** No lost wakeup: with a task queued and at least one worker, somebody is awake or running
      or about to be notified, and no worker has gone; while anybody sleeps the whole queue is
      covered by awake workers and notifications. */
  lemma NoLostWakeup<E>(n: nat, schedule: seq<Action<E>>, p: Pool<E>)
    requires n > 0 && p == Exec(NewPool<E>(n), schedule) && p.tasks != []
    ensures (exists i :: 0 <= i < n && (p.workers[i].Awake? || p.workers[i].Running?)) || p.pendingOne > 0 || p.pendingAll > 0
    ensures forall i :: 0 <= i < n ==> !p.workers[i].Exited?
    ensures SomeWaiting(p.workers) ==> |p.tasks| <= p.pendingOne + Alert(p.workers)
  {
    RunInv(n, schedule);
    NoSleepers(p.workers);
    if !SomeWaiting(p.workers) {
      assert !p.workers[0].Waiting? && !p.workers[0].Exited?;
    }
  }

  /** A notification that reaches a sleeping worker wakes it and is used up; one that is sent
      while nobody sleeps is used up for nothing. notify_all leaves nobody asleep, and a worker
      that wakes for no reason tests its predicate like any other. */
  lemma WakeupsArrive<E>(p: Pool<E>, i: nat)
    requires i < |p.workers|
    ensures p.pendingOne > 0 && p.workers[i].Waiting? ==>
              Next(p, NotifyOne(i)) == p.(pendingOne := p.pendingOne - 1, workers := p.workers[i := Awake])
    ensures p.pendingOne > 0 && !SomeWaiting(p.workers) ==>
              Next(p, NotifyOne(i)) == p.(pendingOne := p.pendingOne - 1)
    ensures p.pendingAll > 0 ==>
              var p' := Next(p, NotifyAll);
              && p'.pendingAll == p.pendingAll - 1 && !SomeWaiting(p'.workers)
              && forall j :: 0 <= j < |p.workers| && !p.workers[j].Waiting? ==> p'.workers[j] == p.workers[j]
    ensures p.workers[i].Waiting? ==> Next(p, SpuriousWakeup(i)) == p.(workers := p.workers[i := Awake])
  {
  }

  /** Steps that need neither luck nor the end of the pool. */
  predicate Ordinary<E>(schedule: seq<Action<E>>) {
    forall k :: 0 <= k < |schedule| ==> schedule[k].WorkerStep? || schedule[k].NotifyOne?
  }

  lemma ExecOne<E>(p: Pool<E>, a: Action<E>, rest: seq<Action<E>>)
    ensures Exec(p, [a] + rest) == Exec(Next(p, a), rest)
  {
    assert ([a] + rest)[1..] == rest;
  }

  lemma StartStep<E>(p: Pool<E>, i: nat)
    requires p.tasks != [] && i < |p.workers| && p.workers[i].Awake?
    ensures Exec(p, [WorkerStep(i)]) == Work(p, i)
    ensures Work(p, i).started == p.started + [p.tasks[0]] && Work(p, i).tasks == p.tasks[1..]
  {
    var schedule: seq<Action<E>> := [WorkerStep(i)];
    assert schedule[1..] == [];
  }

  /** A queued task is started, after at most one step that wakes or frees a worker. */
  lemma NextTaskStarts<E>(p: Pool<E>) returns (schedule: seq<Action<E>>)
    requires Inv(p) && p.tasks != [] && |p.workers| > 0
    ensures |schedule| <= 2 && Ordinary(schedule)
    ensures var p' := Exec(p, schedule);
            p'.started == p.started + [p.tasks[0]] && p'.tasks == p.tasks[1..] && p'.accepted == p.accepted
  {
    NoSleepers(p.workers);
    if i: nat :| i < |p.workers| && p.workers[i].Awake? {
      schedule := [WorkerStep(i)];
      StartStep(p, i);
    } else {
      assert !p.workers[0].Exited?;
      var a := if p.workers[0].Running? then WorkerStep(0) else NotifyOne(0);
      AlertIsAwake(p.workers);
      var q := Next(p, a);
      assert q.workers[0].Awake? && q.tasks == p.tasks && q.started == p.started;
      StartStep(q, 0);
      schedule := [a] + [WorkerStep(0)];
      ExecOne(p, a, [WorkerStep(0)]);
    }
  }

  lemma {:induction false} AlertIsAwake<E>(workers: seq<Worker<E>>)
    requires forall i :: 0 <= i < |workers| ==> !workers[i].Awake?
    ensures Alert(workers) == 0
  {
    if workers != [] {
      AlertIsAwake(workers[..|workers| - 1]);
    }
  }

  /** No lost wakeup, seen from the task: in every reachable state of a pool with a worker the
      oldest queued task can be started by ordinary steps, at most two of them. */
  lemma QueuedTaskStarts<E>(n: nat, schedule: seq<Action<E>>, p: Pool<E>) returns (rest: seq<Action<E>>)
    requires n > 0 && p == Exec(NewPool<E>(n), schedule) && p.tasks != []
    ensures |rest| <= 2 && Ordinary(rest)
    ensures Exec(p, rest).started == p.started + [p.tasks[0]]
  {
    RunInv(n, schedule);
    rest := NextTaskStarts(p);
  }

  lemma {:induction false} ExecConcat<E>(p: Pool<E>, a: seq<Action<E>>, b: seq<Action<E>>, c: seq<Action<E>>)
    requires c == a + b
    ensures Exec(p, c) == Exec(Exec(p, a), b)
    decreases |a|
  {
    if a == [] {
      assert c == b;
    } else {
      assert c[0] == a[0] && c[1..] == a[1..] + b;
      ExecConcat(Next(p, a[0]), a[1..], b, c[1..]);
    }
  }

  /** ... and so can all of them, in order of acceptance. */
  lemma {:induction false} AllTasksStart<E>(p: Pool<E>) returns (schedule: seq<Action<E>>)
    requires Inv(p) && |p.workers| > 0
    ensures |schedule| <= 2 * |p.tasks| && Ordinary(schedule)
    ensures var p' := Exec(p, schedule); p'.tasks == [] && p'.started == p.accepted == p'.accepted
    decreases |p.tasks|
  {
    if p.tasks == [] {
      schedule := [];
    } else {
      var one := NextTaskStarts(p);
      var q := Exec(p, one);
      ExecInv(p, one);
      var rest := AllTasksStart(q);
      schedule := one + rest;
      ExecConcat(p, one, rest, schedule);
    }
  }

  lemma {:induction false} NobodyBusy<E>(workers: seq<Worker<E>>)
    requires forall i :: 0 <= i < |workers| ==> !workers[i].Running?
    ensures InProgress(workers) == multiset{}
  {
    if workers != [] {
      NobodyBusy(workers[..|workers| - 1]);
    }
  }

  lemma {:induction false} RunningTasksEnd<E>(p: Pool<E>) returns (schedule: seq<Action<E>>)
    requires Inv(p) && p.tasks == []
    ensures |schedule| <= TotalWeight(p.workers) && Ordinary(schedule)
    ensures var p' := Exec(p, schedule); p'.finished == multiset(p.started) && p'.accepted == p.accepted
    decreases TotalWeight(p.workers)
  {
    if i: nat :| i < |p.workers| && p.workers[i].Running? {
      var a, q := WorkerStep(i), Work(p, i);
      CountsUpdate(p.workers, i, Awake);
      WorkInv(p, i);
      var rest := RunningTasksEnd(q);
      schedule := [a] + rest;
      ExecOne(p, a, rest);
    } else {
      schedule := [];
      NobodyBusy(p.workers);
    }
  }

  /** Without any termination, from every reachable state of a pool with a worker, ordinary steps
      alone lead to the state in which every accepted task has run exactly once. */
  lemma AllTasksRun<E>(n: nat, schedule: seq<Action<E>>, p: Pool<E>) returns (rest: seq<Action<E>>)
    requires n > 0 && p == Exec(NewPool<E>(n), schedule)
    ensures Ordinary(rest)
    ensures var p' := Exec(p, rest);
            p'.tasks == [] && p'.started == p.accepted && p'.finished == multiset(p.accepted) && p'.accepted == p.accepted
  {
    RunInv(n, schedule);
    var starts := AllTasksStart(p);
    var q := Exec(p, starts);
    ExecInv(p, starts);
    var ends := RunningTasksEnd(q);
    rest := starts + ends;
    ExecConcat(p, starts, ends, rest);
    ExecInv(q, ends);
    StartedStays(q, ends);
  }

  /** Ordinary steps on an empty queue start nothing. */
  lemma {:induction false} StartedStays<E>(p: Pool<E>, schedule: seq<Action<E>>)
    requires p.tasks == [] && Ordinary(schedule)
    ensures Exec(p, schedule).tasks == [] && Exec(p, schedule).started == p.started
    decreases |schedule|
  {
    if schedule != [] {
      assert schedule[0].WorkerStep? || schedule[0].NotifyOne?;
      var rest := schedule[1..];
      assert forall k :: 0 <= k < |rest| ==> rest[k] == schedule[k + 1];
      StartedStays(Next(p, schedule[0]), rest);
    }
  }

  /** What bounds the steps left once the flag is set. */
  function Remaining<E>(p: Pool<E>): nat {
    3 * |p.tasks| + TotalWeight(p.workers) + p.pendingOne + p.pendingAll
  }

  /** After termination enqueue does nothing and every other effective step, spurious wakeups
      included, brings the end nearer. */
  lemma StepsRunOut<E>(p: Pool<E>, a: Action<E>)
    requires p.isTerminated && a != SetTerminated
    ensures Next(p, a) == p || Remaining(Next(p, a)) < Remaining(p)
    ensures a.Enqueue? ==> Next(p, a) == p
    ensures Next(p, a).isTerminated && Next(p, a).accepted == p.accepted
  {
    match a
    case NotifyOne(i) => if i < |p.workers| { CountsUpdate(p.workers, i, Awake); }
    case NotifyAll => CountsWakeAll(p.workers);
    case WorkerStep(i) => if i < |p.workers| { CountsUpdate(p.workers, i, Work(p, i).workers[i]); }
    case SpuriousWakeup(i) => if i < |p.workers| { CountsUpdate(p.workers, i, Awake); }
    case _ =>
  }

  ghost predicate AllExited<E>(p: Pool<E>) {
    forall i :: 0 <= i < |p.workers| ==> p.workers[i].Exited?
  }

  /** ... and there is one until every worker has exited. */
  lemma SomeStepLeft<E>(p: Pool<E>) returns (a: Action<E>)
    requires Inv(p) && p.isTerminated && !AllExited(p)
    ensures a != SetTerminated && Next(p, a) != p
  {
    var i: nat :| i < |p.workers| && !p.workers[i].Exited?;
    NoSleepers(p.workers);
    if p.workers[i].Waiting? {
      a := NotifyAll;
      assert Next(p, a).pendingAll != p.pendingAll;
    } else {
      a := WorkerStep(i);
      assert Next(p, a).workers[i] != p.workers[i];
    }
  }

  /** So a terminated pool stops, within the bound. */
  lemma {:induction false} PoolStops<E>(p: Pool<E>) returns (schedule: seq<Action<E>>)
    requires Inv(p) && p.isTerminated
    ensures |schedule| <= Remaining(p) && SetTerminated !in schedule
    ensures Inv(Exec(p, schedule)) && AllExited(Exec(p, schedule)) && Exec(p, schedule).accepted == p.accepted
    decreases Remaining(p)
  {
    if AllExited(p) {
      schedule := [];
    } else {
      var a := SomeStepLeft(p);
      NextInv(p, a);
      StepsRunOut(p, a);
      var rest := PoolStops(Next(p, a));
      schedule := [a] + rest;
      assert schedule[1..] == rest;
    }
  }

  /** When terminate has joined all workers, every accepted task has run exactly once, in the
      order of acceptance, and nothing is accepted any more -- exactly if the pool has a
      worker at all or never accepted anything. */
  lemma DrainedAtJoin<E>(n: nat, schedule: seq<Action<E>>, p: Pool<E>)
    requires p == Exec(NewPool<E>(n), schedule) && p.isTerminated && AllExited(p)
    ensures p.started == p.accepted && p.finished == multiset(p.accepted) <==> n > 0 || p.accepted == []
    ensures forall t :: Next(p, Enqueue(t)) == p
  {
    RunInv(n, schedule);
    NoSleepers(p.workers);
    if n > 0 {
      assert p.workers[0].Exited?;
    } else {
      NeverStarts(NewPool<E>(0), schedule);
    }
  }

  lemma {:induction false} NeverStarts<E>(p: Pool<E>, schedule: seq<Action<E>>)
    requires |p.workers| == 0 && p.started == []
    ensures Exec(p, schedule).started == []
    decreases |schedule|
  {
    if schedule != [] {
      NeverStarts(Next(p, schedule[0]), schedule[1..]);
    }
  }
}
