/** The container and the mailbox on the 32-bit program: their runs are runs of the program, as
    long as no thread sleeps on a counter for too long. */
module ClientMachines {
  import opened Bits
  import opened Residues
  import opened TicketQueue
  import opened TicketOrder
  import opened QueueThreads
  import opened QueueRuns
  import opened QueueScripts
  import opened QueueMachine
  import opened StaleCounters
  import C = Containers
  import M = Mailboxes

  // ---------------------------------------------------------------- a thread that is alone

  /** The loaded counter is the counter. */
  predicate Current<E>(q: Queue<E>, p: Phase<E>) {
    match p
    case TryPushTest(_, h) => h == q.head
    case TryPushCas(_, h) => h == q.head
    case TryPopTest(t) => t == q.tail
    case TryPopCas(t) => t == q.tail
    case SizeTest(h) => h == q.head
    case _ => true
  }

  lemma CurrentIsSafe<E>(q: Queue<E>, p: Phase<E>, n: nat, spurious: bool)
    requires Current(q, p) && |q.cells| + n < HALF && q.tail - n <= q.head <= q.tail + n + |q.cells|
    ensures StepSafe(q, p, spurious)
  {
  }

  lemma StaysCurrent<E>(s: System<E>, a: Action<E>)
    requires |s.queue.cells| > 0 && a.tid < |s.threads| && Current(s.queue, s.threads[a.tid])
    ensures var s' := Next(s, a); Current(s'.queue, s'.threads[a.tid])
  {
  }

  lemma CurrentActionSafe<E>(s: System<E>, a: Action<E>)
    requires SysInv(s) && |s.queue.cells| + |s.threads| < HALF
    requires a.tid < |s.threads| && Current(s.queue, s.threads[a.tid])
    ensures ActionSafe(s, a)
  {
    CounterGap(s);
    CurrentIsSafe(s.queue, s.threads[a.tid], |s.threads|, a.Step? && a.spurious);
  }

  lemma {:induction false} AloneIsSafe<E>(s: System<E>, schedule: seq<Action<E>>, i: nat)
    requires SysInv(s) && |s.queue.cells| + |s.threads| < HALF && By(schedule, i)
    requires i < |s.threads| && Current(s.queue, s.threads[i])
    ensures AlwaysSafe(s, schedule)
    decreases |schedule|
  {
    if schedule != [] {
      var a := schedule[0];
      assert a.tid == i;
      CurrentActionSafe(s, a);
      StaysCurrent(s, a);
      NextInv(s, a);
      AloneIsSafe(Next(s, a), schedule[1..], i);
    }
  }

  // ---------------------------------------------------------------- the container

  /** One round of the constructor's loop. */
  lemma FillOne(s: System<nat>, m: nat, j: nat) returns (schedule: seq<Action<nat>>)
    requires j < m && s.queue == C.Filled(m, j) && |s.threads| > 0 && s.threads[0] == Idle
    ensures By(schedule, 0) && Exec(s, schedule) == System(Pushed(s.queue, 0, j), s.threads)
    ensures Pushed(s.queue, 0, j) == Put(ClaimPut(C.Filled(m, j), 0, j), j, j)
  {
    C.FilledSlots(m, j);
    LaneWraps(j, m);
    schedule := TryPushAlone(s, 0, j);
  }

  /** The constructor's loop is a run of thread 0. */
  lemma {:induction false} FillRun(m: nat, n: nat, k: nat) returns (schedule: seq<Action<nat>>)
    requires 0 < m && n > 0 && k <= m
    ensures By(schedule, 0)
    ensures Exec(NewSystem<nat>(m, n), schedule) == System(C.Filled(m, k), NewSystem<nat>(m, n).threads)
  {
    if k == 0 {
      schedule := [];
    } else {
      var j := k - 1;
      var before := FillRun(m, n, j);
      var s := Exec(NewSystem<nat>(m, n), before);
      var one := FillOne(s, m, j);
      schedule := before + one;
      ExecConcat(NewSystem<nat>(m, n), before, one);
      C.FilledOneMore(m, j, k);
    }
  }

  /** The queue calls behind an event. */
  function ContainerCalls(c: C.Container, a: C.Event): seq<Action<nat>> {
    if a.Pass? || a.tid >= |c.sys.threads| || a.tid >= |c.hands| then []
    else if a.Return? && !(c.sys.threads[a.tid].Idle? && a.entry in c.hands[a.tid] && a.entry < |c.place|) then []
    else [C.QueueAction(a)]
  }

  function AllContainerCalls(c: C.Container, schedule: seq<C.Event>): seq<Action<nat>>
    requires |c.sys.queue.cells| > 0
    decreases |schedule|
  {
    if schedule == [] then []
    else ContainerCalls(c, schedule[0]) + AllContainerCalls(C.Next(c, schedule[0]), schedule[1..])
  }

  lemma ExecOne<E>(s: System<E>, a: Action<E>)
    requires |s.queue.cells| > 0
    ensures Exec(s, [a]) == Next(s, a)
  {
    assert [a][1..] == [];
  }

  lemma ContainerCallsDo(c: C.Container, a: C.Event)
    requires |c.sys.queue.cells| > 0
    ensures C.Next(c, a).sys == Exec(c.sys, ContainerCalls(c, a))
  {
    ExecOne(c.sys, C.QueueAction(a));
  }

  lemma {:induction false} ContainerIsQueueRun(c: C.Container, schedule: seq<C.Event>)
    requires |c.sys.queue.cells| > 0
    ensures C.Exec(c, schedule).sys == Exec(c.sys, AllContainerCalls(c, schedule))
    decreases |schedule|
  {
    if schedule != [] {
      var a, rest := schedule[0], schedule[1..];
      ContainerCallsDo(c, a);
      ContainerIsQueueRun(C.Next(c, a), rest);
      ExecConcat(c.sys, ContainerCalls(c, a), AllContainerCalls(C.Next(c, a), rest));
    }
  }

  lemma WordsKeepReplies(s: System<nat>, bits: nat, e: nat)
    requires Layout(s, bits, e) && C.NoneRefused(s.threads)
    ensures C.NoneRefused(Machined(s, bits, e).threads)
  {
    forall i | 0 <= i < |s.threads|
      ensures !(Machined(s, bits, e).threads[i].Done? && Machined(s, bits, e).threads[i].reply.Refused?)
    {
      assert Machined(s, bits, e).threads[i] == WordPhase(s.threads[i]);
    }
  }

  /** On the 32-bit program too, in every run of safe steps, giving back a held entry never
      fails: thread 0 fills the queue, then any clients run. */
  lemma ProgramReturnsNeverFail(bits: nat, e: nat, size: nat, n: nat, schedule: seq<C.Event>)
    returns (fill: seq<Action<nat>>)
    requires 2 * bits <= e <= 30 && size <= Pow2(e) && n > 0 && Pow2(e) + n < HALF
    requires var c := C.NewContainer(Pow2(e), size, n); AlwaysSafe(c.sys, AllContainerCalls(c, schedule))
    ensures By(fill, 0) && Exec(NewSystem<nat>(Pow2(e), n), fill) == C.NewContainer(Pow2(e), size, n).sys
    ensures var calls := AllContainerCalls(C.NewContainer(Pow2(e), size, n), schedule);
            C.NoneRefused(MachineExec(NewMachine<nat>(bits, e, n), fill + calls).threads)
  {
    var m := Pow2(e);
    var s0, c := NewSystem<nat>(m, n), C.NewContainer(m, size, n);
    var calls := AllContainerCalls(c, schedule);
    fill := FillRun(m, n, size);
    NewSystemInv<nat>(m, n);
    AloneIsSafe(s0, fill, 0);
    SafeConcat(s0, fill, calls);
    ProgramFollowsIffSafe<nat>(bits, e, n, fill + calls);
    ContainerIsQueueRun(c, schedule);
    C.ReturnNeverFails(m, size, n, schedule);
    WordsKeepReplies(C.Exec(c, schedule).sys, bits, e);
  }

  // ---------------------------------------------------------------- the mailbox

  /** The queue call that begins with a phase. */
  function OpOf(call: Phase<nat>): (op: Op<nat>)
    ensures M.Starts(call) && !call.Idle? ==> Entry(op) == call
  {
    match call
    case PushAdd(x) => Push(x)
    case TryPopLoad => TryPop
    case PopAdd => Pop
    case _ => Size
  }

  function Calling(i: nat, call: Phase<nat>): seq<Action<nat>> {
    if call.Idle? then [] else [Invoke(i, OpOf(call))]
  }

  function MailboxCalls(b: M.Mailbox, a: M.Event): seq<Action<nat>>
    requires M.Shaped(b)
  {
    if !a.Run? || a.tid >= |b.locals| then []
    else match M.TurnOf(b, a.tid)
      case Inner => [Step(a.tid, a.spurious)]
      case Go(_, call, _) => [Collect(a.tid)] + Calling(a.tid, call)
  }

  function AllMailboxCalls(b: M.Mailbox, schedule: seq<M.Event>): seq<Action<nat>>
    requires M.Shaped(b)
    decreases |schedule|
  {
    if schedule == [] then []
    else MailboxCalls(b, schedule[0]) + AllMailboxCalls(M.Next(b, schedule[0]), schedule[1..])
  }

  lemma InvokeDoes(s: System<nat>, i: nat, op: Op<nat>)
    requires |s.queue.cells| > 0 && i < |s.threads| && s.threads[i].Idle?
    ensures Exec(s, [Invoke(i, op)]) == System(s.queue, s.threads[i := Entry(op)])
  {
    ExecOne(s, Invoke(i, op));
  }

  lemma CallingDoes(s: System<nat>, i: nat, call: Phase<nat>)
    requires |s.queue.cells| > 0 && i < |s.threads| && s.threads[i].Idle? && M.Starts(call)
    ensures Exec(s, Calling(i, call)) == System(s.queue, s.threads[i := call])
  {
    if call.Idle? {
      assert s.threads[i := call] == s.threads;
    } else {
      InvokeDoes(s, i, OpOf(call));
    }
  }

  lemma TurnDoes(s: System<nat>, i: nat, call: Phase<nat>)
    requires |s.queue.cells| > 0 && i < |s.threads| && (s.threads[i].Idle? || s.threads[i].Done?) && M.Starts(call)
    ensures Exec(s, [Collect(i)] + Calling(i, call)) == System(s.queue, s.threads[i := call])
  {
    ExecCons(s, Collect(i), Calling(i, call));
    CallingDoes(Next(s, Collect(i)), i, call);
    assert Next(s, Collect(i)).threads[i := call] == s.threads[i := call];
  }

  lemma MailboxCallsDo(b: M.Mailbox, a: M.Event)
    requires M.Shaped(b) && M.LocalsOk(b)
    ensures M.Next(b, a).sys == Exec(b.sys, MailboxCalls(b, a))
  {
    if a.Run? && a.tid < |b.locals| {
      M.TurnAgrees(b.sys.queue, b.locals[a.tid], b.sys.threads[a.tid], b.active, b.malformed, |b.place|, a.spurious);
      match M.TurnOf(b, a.tid)
      case Inner => ExecOne(b.sys, Step(a.tid, a.spurious));
      case Go(_, call, _) => TurnDoes(b.sys, a.tid, call);
    }
  }

  lemma {:induction false} MailboxIsQueueRun(b: M.Mailbox, schedule: seq<M.Event>)
    requires M.Inv(b)
    ensures M.Exec(b, schedule).sys == Exec(b.sys, AllMailboxCalls(b, schedule))
    decreases |schedule|
  {
    if schedule != [] {
      var a, rest := schedule[0], schedule[1..];
      MailboxCallsDo(b, a);
      M.NextInv(b, a);
      MailboxIsQueueRun(M.Next(b, a), rest);
      ExecConcat(b.sys, MailboxCalls(b, a), AllMailboxCalls(M.Next(b, a), rest));
    }
  }

  /** Every run of the mailbox whose queue steps are safe is a run of the 32-bit program, which
      ends with the same replies and, read modulo 2^32 and through the shuffle, the same queue. */
  lemma ProgramRunsMailbox(bits: nat, e: nat, n: nat, malformed: set<nat>, schedule: seq<M.Event>)
    requires 2 * bits <= e <= 30 && Pow2(e) + n < HALF
    requires var b := M.NewMailbox(Pow2(e), n, malformed); AlwaysSafe(b.sys, AllMailboxCalls(b, schedule))
    ensures var b := M.NewMailbox(Pow2(e), n, malformed);
            && Layout(M.Exec(b, schedule).sys, bits, e)
            && MachineExec(NewMachine<nat>(bits, e, n), AllMailboxCalls(b, schedule)) == Machined(M.Exec(b, schedule).sys, bits, e)
  {
    var b := M.NewMailbox(Pow2(e), n, malformed);
    M.NewMailboxInv(Pow2(e), n, malformed);
    MailboxIsQueueRun(b, schedule);
    ProgramFollowsIffSafe<nat>(bits, e, n, AllMailboxCalls(b, schedule));
  }
}
