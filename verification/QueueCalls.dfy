/** What each operation decides when its thread runs alone from wherever it is in its call, and why
    a CAS can fail. */
module QueueCalls {
  import opened TicketQueue
  import opened TicketOrder
  import opened QueueThreads
  import opened QueueRuns

  /** A run of thread i alone, step after step. */
  function Solo<E>(s: System<E>, i: nat, k: nat): System<E>
    requires |s.queue.cells| > 0
    decreases k
  {
    if k == 0 then s else Solo(Next(s, Step(i, false)), i, k - 1)
  }

  lemma SoloMore<E>(s: System<E>, i: nat, s': System<E>, l: nat, k: nat)
    requires |s.queue.cells| > 0 && k == l + 1 && s' == Next(s, Step(i, false))
    ensures Solo(s, i, k) == Solo(s', i, l)
  {
  }

  // ---------------------------------------------------------------- tryPush

  predicate TryingPush<E>(p: Phase<E>) { p.TryPushLoad? || p.TryPushTest? || p.TryPushCas? }

  function PushSteps<E>(q: Queue<E>, p: Phase<E>): nat {
    match p
    case TryPushLoad(_) => 3
    case TryPushTest(_, h) => if h == q.head then 2 else 4
    case TryPushCas(_, h) => if h == q.head then 1 else 3
    case _ => 0
  }

  /** A tryPush that is left alone, whatever head it has loaded, is decided within four steps by
      the counters as they are: refused with its element when the queue is full, and otherwise
      given the next ticket. */
  lemma {:induction false} TryPushDecides<E>(s: System<E>, i: nat) returns (k: nat)
    requires |s.queue.cells| > 0 && i < |s.threads| && TryingPush(s.threads[i]) && PhaseOk(s.queue, i, s.threads[i])
    ensures k <= PushSteps(s.queue, s.threads[i]) <= 4
    ensures var q, e := s.queue, s.threads[i].elem;
            Solo(s, i, k) == if q.head - q.tail >= |q.cells| then System(q, s.threads[i := Done(Refused(e))])
                             else System(ClaimPut(q, i, e), s.threads[i := Storing(e, q.head)])
    decreases PushSteps(s.queue, s.threads[i])
  {
    var s' := Next(s, Step(i, false));
    var p' := s'.threads[i];
    if TryingPush(p') {
      var l := TryPushDecides(s', i);
      k := l + 1;
      SoloMore(s, i, s', l, k);
      var e := s.threads[i].elem;
      assert s'.threads[i := Done(Refused(e))] == s.threads[i := Done(Refused(e))];
      assert s'.threads[i := Storing(e, s.queue.head)] == s.threads[i := Storing(e, s.queue.head)];
    } else {
      k := 1;
      SoloMore(s, i, s', 0, 1);
    }
  }

  // ---------------------------------------------------------------- tryPop

  predicate TryingPop<E>(p: Phase<E>) { p.TryPopLoad? || p.TryPopTest? || p.TryPopCas? }

  function PopSteps<E>(q: Queue<E>, p: Phase<E>): nat {
    match p
    case TryPopLoad => 3
    case TryPopTest(t) => if t == q.tail then 2 else 4
    case TryPopCas(t) => if t == q.tail then 1 else 3
    case _ => 0
  }

  /** A tryPop that is left alone answers Nothing when the queue is empty, and otherwise is given
      the next ticket. */
  lemma {:induction false} TryPopDecides<E>(s: System<E>, i: nat) returns (k: nat)
    requires |s.queue.cells| > 0 && i < |s.threads| && TryingPop(s.threads[i]) && PhaseOk(s.queue, i, s.threads[i])
    ensures k <= PopSteps(s.queue, s.threads[i]) <= 4
    ensures var q := s.queue;
            Solo(s, i, k) == if q.head <= q.tail then System(q, s.threads[i := Done(Nothing)])
                             else System(ClaimTake(q, i), s.threads[i := Taking(q.tail)])
    decreases PopSteps(s.queue, s.threads[i])
  {
    var s' := Next(s, Step(i, false));
    var p' := s'.threads[i];
    if TryingPop(p') {
      var l := TryPopDecides(s', i);
      k := l + 1;
      SoloMore(s, i, s', l, k);
      assert s'.threads[i := Done(Nothing)] == s.threads[i := Done(Nothing)];
      assert s'.threads[i := Taking(s.queue.tail)] == s.threads[i := Taking(s.queue.tail)];
    } else {
      k := 1;
      SoloMore(s, i, s', 0, 1);
    }
  }

  // ---------------------------------------------------------------- the other operations

  /** Blocking calls take the next ticket at their first step, whatever the counters say; the size
      of an undisturbed queue is its surplus of pushes. */
  lemma OthersDecide<E>(s: System<E>, i: nat, e: E)
    requires |s.queue.cells| > 0 && i < |s.threads|
    ensures s.threads[i] == PushAdd(e) ==>
              Solo(s, i, 1) == System(ClaimPut(s.queue, i, e), s.threads[i := Storing(e, s.queue.head)])
    ensures s.threads[i] == PopAdd ==> Solo(s, i, 1) == System(ClaimTake(s.queue, i), s.threads[i := Taking(s.queue.tail)])
    ensures s.threads[i] == SizeLoad ==>
              Solo(s, i, 2) == System(s.queue, s.threads[i := Done(Count(Max(s.queue.head - s.queue.tail, 0)))])
  {
    var s' := Next(s, Step(i, false));
    SoloMore(s, i, s', 0, 1);
    if s.threads[i] == SizeLoad {
      SoloMore(s, i, s', 1, 2);
      SoloMore(s', i, Next(s', Step(i, false)), 0, 1);
      assert Next(s', Step(i, false)).threads == s.threads[i := Done(Count(Max(s.queue.head - s.queue.tail, 0)))];
    }
  }

  /** A claimed operation finishes in one step exactly when its slot is ready, and otherwise
      changes nothing. */
  lemma SlotStep<E>(s: System<E>, i: nat)
    requires |s.queue.cells| > 0 && i < |s.threads| && (s.threads[i].Storing? || s.threads[i].Taking?)
    ensures CanMove(s.queue, s.threads[i]) <==> Next(s, Step(i, false)).threads[i].Done?
    ensures !CanMove(s.queue, s.threads[i]) ==> Next(s, Step(i, false)) == s
  {
    assert s.threads[i := s.threads[i]] == s.threads;
  }

  /** A CAS that fails, unless for no reason, was beaten: the counter has gone on since its load,
      so another thread has been given a ticket. */
  lemma FailedCasWasBeaten<E>(s: System<E>, i: nat, spurious: bool)
    requires SysInv(s) && i < |s.threads| && !spurious
    ensures var p, p' := s.threads[i], Next(s, Step(i, spurious)).threads[i];
            && (p.TryPushCas? && !p'.Storing? ==> p.head < s.queue.head && p' == TryPushTest(p.elem, s.queue.head))
            && (p.TryPopCas? && !p'.Taking? ==> p.tail < s.queue.tail && p' == TryPopTest(s.queue.tail))
  {
    assert PhaseOk(s.queue, i, s.threads[i]);
  }
}
