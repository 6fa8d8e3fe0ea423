/** Any number of threads inside the MPMC queue, one atomic load, CAS, fetch_add or exchange
    per step, interleaved in any order (sequential consistency). Counters are unbounded here;
    QueueMachine shows when the 32-bit program behaves the same way. */
module QueueThreads {
  import opened Residues
  import opened TicketQueue
  import opened TicketOrder

  datatype Op<E> = TryPush(elem: E) | Push(elem: E) | TryPop | Pop | Size

  datatype Reply<E> = Accepted | Refused(elem: E) | Got(elem: E) | Nothing | Count(size: nat)

  /** Where a thread is inside its call; the arguments are its local variables. */
  datatype Phase<E> =
    | Idle
    | TryPushLoad(elem: E)
    | TryPushTest(elem: E, head: nat)
    | TryPushCas(elem: E, head: nat)
    | PushAdd(elem: E)
    | Storing(elem: E, ticket: nat)
    | TryPopLoad
    | TryPopTest(tail: nat)
    | TryPopCas(tail: nat)
    | PopAdd
    | Taking(ticket: nat)
    | SizeLoad
    | SizeTest(head: nat)
    | Done(reply: Reply<E>)

  datatype System<E> = System(queue: Queue<E>, threads: seq<Phase<E>>)

  /** `spurious` lets a weak CAS fail for no reason. */
  datatype Action<E> = Invoke(tid: nat, op: Op<E>) | Step(tid: nat, spurious: bool) | Collect(tid: nat)

  function NewSystem<E>(m: nat, n: nat): System<E> {
    System(NewQueue(m), seq(n, _ => Idle))
  }

  function Entry<E>(op: Op<E>): Phase<E> {
    match op
    case TryPush(e) => TryPushLoad(e)
    case Push(e) => PushAdd(e)
    case TryPop => TryPopLoad
    case Pop => PopAdd
    case Size => SizeLoad
  }

  /** The queue after thread i took one step from phase p. */
  function QueueStep<E>(q: Queue<E>, i: nat, p: Phase<E>, spurious: bool): (q': Queue<E>)
    requires |q.cells| > 0
    ensures |q'.cells| == |q.cells|
  {
    match p
    case TryPushCas(e, h) => if !spurious && h == q.head then ClaimPut(q, i, e) else q
    case PushAdd(e) => ClaimPut(q, i, e)
    case Storing(e, t) => if spurious then q else Put(q, t, e)
    case TryPopCas(t) => if !spurious && t == q.tail then ClaimTake(q, i) else q
    case PopAdd => ClaimTake(q, i)
    case Taking(t) => Take(q, t)
    case _ => q
  }

  /** The thread after that step. */
  function PhaseStep<E>(q: Queue<E>, p: Phase<E>, spurious: bool): Phase<E>
    requires |q.cells| > 0
  {
    match p
    case TryPushLoad(e) => TryPushTest(e, q.head)
    case TryPushTest(e, h) => if h - q.tail >= |q.cells| then Done(Refused(e)) else TryPushCas(e, h)
    case TryPushCas(e, h) => if !spurious && h == q.head then Storing(e, h) else TryPushTest(e, q.head)
    case PushAdd(e) => Storing(e, q.head)
    case Storing(e, t) => if !spurious && q.cells[LaneOf(q, t)].slot.Nil? then Done(Accepted) else p
    case TryPopLoad => TryPopTest(q.tail)
    case TryPopTest(t) => if q.head - t <= 0 then Done(Nothing) else TryPopCas(t)
    case TryPopCas(t) => if !spurious && t == q.tail then Taking(t) else TryPopTest(q.tail)
    case PopAdd => Taking(q.tail)
    case Taking(t) =>
      var slot := q.cells[LaneOf(q, t)].slot;
      if slot.Full? then Done(Got(slot.elem)) else p
    case SizeLoad => SizeTest(q.head)
    case SizeTest(h) => Done(Count(Max(h - q.tail, 0)))
    case _ => p
  }

  /** A claimed operation whose slot step would succeed now. */
  predicate CanMove<E>(q: Queue<E>, p: Phase<E>)
    requires |q.cells| > 0
  {
    match p
    case Storing(_, t) => q.cells[LaneOf(q, t)].slot.Nil?
    case Taking(t) => q.cells[LaneOf(q, t)].slot.Full?
    case _ => false
  }

  /** One step of the system; an action that does not apply leaves everything as it is. */
  function Next<E>(s: System<E>, a: Action<E>): (s': System<E>)
    requires |s.queue.cells| > 0
    ensures |s'.queue.cells| == |s.queue.cells| && |s'.threads| == |s.threads|
  {
    if a.tid >= |s.threads| then s
    else
      var p := s.threads[a.tid];
      match a
      case Invoke(i, op) => if p.Idle? then s.(threads := s.threads[i := Entry(op)]) else s
      case Collect(i) => if p.Done? then s.(threads := s.threads[i := Idle]) else s
      case Step(i, spurious) =>
        System(QueueStep(s.queue, i, p, spurious), s.threads[i := PhaseStep(s.queue, p, spurious)])
  }

  function Exec<E>(s: System<E>, schedule: seq<Action<E>>): (s': System<E>)
    requires |s.queue.cells| > 0
    ensures |s'.queue.cells| == |s.queue.cells| && |s'.threads| == |s.threads|
    decreases |schedule|
  {
    if schedule == [] then s
    else Exec(Next(s, schedule[0]), schedule[1..])
  }

  lemma ExecCons<E>(s: System<E>, a: Action<E>, rest: seq<Action<E>>)
    requires |s.queue.cells| > 0
    ensures Exec(s, [a] + rest) == Exec(Next(s, a), rest)
  {
    assert ([a] + rest)[1..] == rest;
  }

  lemma {:induction false} ExecSnoc<E>(s: System<E>, schedule: seq<Action<E>>, a: Action<E>)
    requires |s.queue.cells| > 0
    ensures Exec(s, schedule + [a]) == Next(Exec(s, schedule), a)
    decreases |schedule|
  {
    if schedule == [] {
      assert ([a])[1..] == [];
    } else {
      ExecSnoc(Next(s, schedule[0]), schedule[1..], a);
      assert (schedule + [a])[1..] == schedule[1..] + [a];
    }
  }

  // ---------------------------------------------------------------- invariant

  ghost predicate PhaseOk<E>(q: Queue<E>, i: nat, p: Phase<E>) {
    match p
    case TryPushTest(_, h) => h <= q.head
    case TryPushCas(_, h) => h <= q.head && h - q.tail < |q.cells|
    case TryPopTest(t) => t <= q.tail
    case TryPopCas(t) => t <= q.tail && t < q.head
    case SizeTest(h) => h <= q.head
    case Storing(e, t) => t in q.puts && q.puts[t] == i && t < |q.claimed| && q.claimed[t] == e
    case Taking(t) => t in q.takes && q.takes[t] == i
    case _ => true
  }

  ghost predicate OwnersOk<E>(q: Queue<E>, threads: seq<Phase<E>>) {
    && (forall t :: t in q.puts ==>
          q.puts[t] < |threads| && threads[q.puts[t]].Storing? && threads[q.puts[t]].ticket == t)
    && (forall t :: t in q.takes ==>
          q.takes[t] < |threads| && threads[q.takes[t]].Taking? && threads[q.takes[t]].ticket == t)
  }

  ghost predicate PhasesOk<E>(q: Queue<E>, threads: seq<Phase<E>>) {
    forall i :: 0 <= i < |threads| ==> PhaseOk(q, i, threads[i])
  }

  ghost predicate SysInv<E>(s: System<E>) {
    Inv(s.queue) && PhasesOk(s.queue, s.threads) && OwnersOk(s.queue, s.threads)
  }

  lemma NewSystemInv<E>(m: nat, n: nat)
    requires m > 0
    ensures SysInv(NewSystem<E>(m, n))
  {
    NewQueueInv<E>(m);
  }

  lemma QueueStepInv<E>(q: Queue<E>, i: nat, p: Phase<E>, spurious: bool)
    requires Inv(q) && PhaseOk(q, i, p)
    ensures Inv(QueueStep(q, i, p, spurious))
  {
    match p
    case TryPushCas(e, h) => ClaimPutInv(q, i, e);
    case PushAdd(e) => ClaimPutInv(q, i, e);
    case Storing(e, t) => PutInv(q, t, e);
    case TryPopCas(t) => ClaimTakeInv(q, i);
    case PopAdd => ClaimTakeInv(q, i);
    case Taking(t) => TakeInv(q, t);
    case _ =>
  }

  /** The counters only grow, and a claim by another thread does not disturb this one. */
  lemma OthersStayOk<E>(q: Queue<E>, i: nat, p: Phase<E>, spurious: bool, j: nat, o: Phase<E>)
    requires |q.cells| > 0 && i != j && PhaseOk(q, i, p) && PhaseOk(q, j, o)
    requires |q.claimed| == q.head && (forall t :: t in q.puts ==> t < q.head) && (forall t :: t in q.takes ==> t < q.tail)
    ensures PhaseOk(QueueStep(q, i, p, spurious), j, o)
  {
  }

  lemma OwnStepOk<E>(q: Queue<E>, i: nat, p: Phase<E>, spurious: bool)
    requires |q.cells| > 0 && PhaseOk(q, i, p) && |q.claimed| == q.head
    ensures PhaseOk(QueueStep(q, i, p, spurious), i, PhaseStep(q, p, spurious))
  {
  }

  lemma OwnersStepOk<E>(q: Queue<E>, threads: seq<Phase<E>>, i: nat, spurious: bool)
    requires |q.cells| > 0 && i < |threads| && OwnersOk(q, threads) && PhaseOk(q, i, threads[i])
    ensures OwnersOk(QueueStep(q, i, threads[i], spurious), threads[i := PhaseStep(q, threads[i], spurious)])
  {
  }

  lemma StepPhasesOk<E>(q: Queue<E>, threads: seq<Phase<E>>, i: nat, spurious: bool)
    requires |q.cells| > 0 && PutsOk(q) && TakesOk(q) && PhasesOk(q, threads) && i < |threads|
    ensures PhasesOk(QueueStep(q, i, threads[i], spurious), threads[i := PhaseStep(q, threads[i], spurious)])
  {
    var p := threads[i];
    OwnStepOk(q, i, p, spurious);
    forall j | 0 <= j < |threads| && j != i
      ensures PhaseOk(QueueStep(q, i, p, spurious), j, threads[j])
    {
      OthersStayOk(q, i, p, spurious, j, threads[j]);
    }
  }

  lemma StepInv<E>(s: System<E>, i: nat, spurious: bool)
    requires SysInv(s) && i < |s.threads|
    ensures SysInv(System(QueueStep(s.queue, i, s.threads[i], spurious), s.threads[i := PhaseStep(s.queue, s.threads[i], spurious)]))
  {
    assert PhaseOk(s.queue, i, s.threads[i]);
    QueueStepInv(s.queue, i, s.threads[i], spurious);
    OwnersStepOk(s.queue, s.threads, i, spurious);
    StepPhasesOk(s.queue, s.threads, i, spurious);
  }

  lemma CallOwners<E>(q: Queue<E>, threads: seq<Phase<E>>, i: nat, p: Phase<E>)
    requires i < |threads| && (threads[i].Idle? || threads[i].Done?) && OwnersOk(q, threads)
    ensures OwnersOk(q, threads[i := p])
  {
  }

  /** Between calls, or in front of the first step of one. */
  predicate Begins<E>(p: Phase<E>) {
    p.Idle? || p.TryPushLoad? || p.PushAdd? || p.TryPopLoad? || p.PopAdd? || p.SizeLoad?
  }

  lemma CallPhases<E>(q: Queue<E>, threads: seq<Phase<E>>, i: nat, p: Phase<E>)
    requires PhasesOk(q, threads) && Begins(p) && i < |threads|
    ensures PhasesOk(q, threads[i := p])
  {
  }

  /** Starting and leaving a call claims nothing. */
  lemma CallInv<E>(s: System<E>, i: nat, p: Phase<E>)
    requires SysInv(s) && i < |s.threads| && (s.threads[i].Idle? || s.threads[i].Done?) && Begins(p)
    ensures SysInv(System(s.queue, s.threads[i := p]))
  {
    CallOwners(s.queue, s.threads, i, p);
    CallPhases(s.queue, s.threads, i, p);
  }

  lemma NextCall<E>(s: System<E>, a: Action<E>)
    requires |s.queue.cells| > 0 && !a.Step?
    ensures Next(s, a) == s
            || (exists p :: a.tid < |s.threads| && (s.threads[a.tid].Idle? || s.threads[a.tid].Done?) && Begins(p)
                            && Next(s, a) == System(s.queue, s.threads[a.tid := p]))
  {
    if a.tid < |s.threads| && Next(s, a) != s {
      assert Begins(Next(s, a).threads[a.tid]);
    }
  }

  lemma NextInv<E>(s: System<E>, a: Action<E>)
    requires SysInv(s)
    ensures SysInv(Next(s, a))
  {
    if !a.Step? {
      NextCall(s, a);
      if Next(s, a) != s {
        var p :| Begins(p) && Next(s, a) == System(s.queue, s.threads[a.tid := p]);
        CallInv(s, a.tid, p);
      }
    } else if a.tid < |s.threads| {
      StepInv(s, a.tid, a.spurious);
    }
  }

  /** Every schedule, from any good state, ends in a good state. */
  lemma {:induction false} ExecInv<E>(s: System<E>, schedule: seq<Action<E>>)
    requires SysInv(s)
    ensures SysInv(Exec(s, schedule))
    decreases |schedule|
  {
    if schedule != [] {
      NextInv(s, schedule[0]);
      ExecInv(Next(s, schedule[0]), schedule[1..]);
    }
  }
}
