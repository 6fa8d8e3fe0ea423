/** What a call comes to when its thread runs alone from wherever it is: a drain returns, a receive
    or a call that finds nothing to do returns at once. */
module MailboxReturns {
  import opened Residues
  import opened TicketQueue
  import opened TicketOrder
  import opened QueueThreads
  import opened QueueRuns
  import opened QueueScripts
  import opened Places
  import opened Mailboxes
  import opened MailboxDrains
  import opened MailboxScripts

  // ---------------------------------------------------------------- a drain from anywhere inside it

  /** How many more steps a drain needs when nobody else runs: eight for each message, and a few
      to end a look or a tryPop that began with counters that have moved on since. */
  function Rank(l: Local, p: Phase<nat>, q: Queue<nat>): nat {
    var backlog := Max(q.head - q.tail, 0);
    var some := Max(backlog, 1);
    match (l, p)
    case (DrainEmpty, SizeLoad) => 3 + 8 * backlog
    case (DrainEmpty, SizeTest(h)) => if h <= q.tail then 2 else 2 + 8 * some
    case (DrainEmpty, Done(reply)) => if reply == Count(0) then 1 else 1 + 8 * some
    case (DrainPop, TryPopLoad) => 8 * some
    case (DrainPop, TryPopTest(t)) => if t == q.tail then 8 * some - 1 else 8 * some + 1
    case (DrainPop, TryPopCas(t)) => if t == q.tail then 8 * some - 2 else 8 * some
    case (DrainPop, Taking(_)) => 5 + 8 * backlog
    case (DrainPop, Done(_)) => 4 + 8 * backlog
    case _ => 0
  }

  lemma RankBound(l: Local, p: Phase<nat>, q: Queue<nat>)
    ensures Rank(l, p, q) <= 5 + 8 * Max(q.head - q.tail, 1)
  {
  }

  /** The drain's last look, if it has begun, is not out of date. */
  predicate LooksNow(l: Local, p: Phase<nat>, q: Queue<nat>) {
    l.DrainEmpty? ==> (p.SizeTest? ==> p.head == q.head) && (p.Done? && p.reply == Count(0) ==> q.head <= q.tail)
  }

  /** The ticket of the drain, if it has one, has its element. */
  predicate Served(p: Phase<nat>, q: Queue<nat>)
    requires |q.cells| > 0
  {
    p.Taking? ==> q.cells[LaneOf(q, p.ticket)].slot.Full?
  }

  /** One step of a drain that runs alone brings its end nearer. */
  lemma SoloStep(b: Mailbox, i: nat)
    requires Shaped(b) && i < |b.locals| && !b.active && Draining(b.locals[i])
    requires Ready(b, i) && Served(b.sys.threads[i], b.sys.queue)
    ensures var b' := Mailboxes.Next(b, Run(i, false));
            var l', p', q' := b'.locals[i], b'.sys.threads[i], b'.sys.queue;
            && (l' == Outside || (Draining(l') && Rank(l', p', q') < Rank(b.locals[i], b.sys.threads[i], b.sys.queue)))
            && b'.locals == b.locals[i := l'] && !b'.active
            && q'.head == b.sys.queue.head
            && (LooksNow(b.locals[i], b.sys.threads[i], b.sys.queue) ==>
                  LooksNow(l', p', q') && (l' == Outside ==> q'.head <= q'.tail))
  {
    if TurnOf(b, i).Go? {
      SoloTurn(b, i);
    } else if b.locals[i].DrainEmpty? {
      SoloLook(b, i);
    } else {
      SoloTry(b, i);
    }
  }

  lemma SoloTurn(b: Mailbox, i: nat)
    requires Shaped(b) && i < |b.locals| && !b.active && Draining(b.locals[i]) && Ready(b, i) && TurnOf(b, i).Go?
    ensures var b' := Mailboxes.Next(b, Run(i, false));
            var l', p', q' := b'.locals[i], b'.sys.threads[i], b'.sys.queue;
            && (l' == Outside || (Draining(l') && Rank(l', p', q') < Rank(b.locals[i], b.sys.threads[i], b.sys.queue)))
            && b'.locals == b.locals[i := l'] && !b'.active && q' == b.sys.queue
            && (LooksNow(b.locals[i], b.sys.threads[i], b.sys.queue) ==>
                  LooksNow(l', p', q') && (l' == Outside ==> q'.head <= q'.tail))
  {
  }

  lemma SoloLook(b: Mailbox, i: nat)
    requires Shaped(b) && i < |b.locals| && !b.active && b.locals[i].DrainEmpty? && Ready(b, i) && TurnOf(b, i).Inner?
    ensures var b' := Mailboxes.Next(b, Run(i, false));
            var l', p', q' := b'.locals[i], b'.sys.threads[i], b'.sys.queue;
            && Rank(l', p', q') < Rank(b.locals[i], b.sys.threads[i], b.sys.queue)
            && b'.locals == b.locals && !b'.active && q' == b.sys.queue
            && (LooksNow(b.locals[i], b.sys.threads[i], b.sys.queue) ==> LooksNow(l', p', q'))
  {
  }

  lemma SoloTry(b: Mailbox, i: nat)
    requires Shaped(b) && i < |b.locals| && !b.active && b.locals[i].DrainPop? && Ready(b, i) && TurnOf(b, i).Inner?
    requires Served(b.sys.threads[i], b.sys.queue)
    ensures var b' := Mailboxes.Next(b, Run(i, false));
            var l', p', q' := b'.locals[i], b'.sys.threads[i], b'.sys.queue;
            && Rank(l', p', q') < Rank(b.locals[i], b.sys.threads[i], b.sys.queue)
            && b'.locals == b.locals && !b'.active && q'.head == b.sys.queue.head
  {
  }

  /** Nobody but the drain of thread i is in the mailbox. */
  predicate OnlyDrain(b: Mailbox, i: nat)
    requires i < |b.locals|
  {
    Draining(b.locals[i]) && forall j :: 0 <= j < |b.locals| && j != i ==> b.locals[j] == Outside
  }

  lemma OnlyDrainClaims(b: Mailbox, i: nat)
    requires Shaped(b) && LocalsOk(b) && OwnersOk(b.sys.queue, b.sys.threads) && i < |b.locals| && OnlyDrain(b, i)
    requires !b.sys.threads[i].Taking?
    ensures b.sys.queue.puts.Keys == {} && b.sys.queue.takes.Keys == {}
  {
    forall t ensures t !in b.sys.queue.puts && t !in b.sys.queue.takes {
    }
  }

  /** The ticket that a drain takes while it is alone has its element. */
  lemma SoloServed(b: Mailbox, i: nat)
    requires Mailboxes.Inv(b) && i < |b.locals| && OnlyDrain(b, i) && Served(b.sys.threads[i], b.sys.queue)
    ensures var b' := Mailboxes.Next(b, Run(i, false)); Served(b'.sys.threads[i], b'.sys.queue)
  {
    if b.sys.threads[i].TryPopCas? {
      OnlyDrainClaims(b, i);
      InvReady(b, i);
      if b.sys.threads[i].tail == b.sys.queue.tail {
        TicketIsIn(b.sys.queue, b.sys.queue.tail);
      }
    }
    ServedStep(b, i);
  }

  lemma ServedStep(b: Mailbox, i: nat)
    requires Shaped(b) && i < |b.locals| && Draining(b.locals[i]) && Agrees(b.locals[i], b.sys.threads[i])
    requires Served(b.sys.threads[i], b.sys.queue)
    requires b.sys.threads[i].TryPopCas? && b.sys.threads[i].tail == b.sys.queue.tail ==>
               b.sys.queue.cells[LaneOf(b.sys.queue, b.sys.queue.tail)].slot.Full?
    ensures var b' := Mailboxes.Next(b, Run(i, false)); Served(b'.sys.threads[i], b'.sys.queue)
  {
  }

  /** One step of such a drain, with everything it keeps. */
  lemma SoloNext(b: Mailbox, i: nat, c: Mailbox)
    requires Mailboxes.Inv(b) && !b.active && i < |b.locals| && OnlyDrain(b, i) && Served(b.sys.threads[i], b.sys.queue)
    requires c == Mailboxes.Next(b, Run(i, false))
    ensures Mailboxes.Inv(c) && !c.active && c.locals == b.locals[i := c.locals[i]]
    ensures c.locals[i] == Outside ||
            (OnlyDrain(c, i) && Served(c.sys.threads[i], c.sys.queue) && RankOf(c, i) < RankOf(b, i))
    ensures Current(b, i) ==> Current(c, i) && (c.locals[i] == Outside ==> c.sys.queue.head <= c.sys.queue.tail)
  {
    InvReady(b, i);
    SoloStep(b, i);
    SoloServed(b, i);
    Mailboxes.NextInv(b, Run(i, false));
  }

  function RankOf(b: Mailbox, i: nat): nat
    requires Shaped(b) && i < |b.locals|
  {
    Rank(b.locals[i], b.sys.threads[i], b.sys.queue)
  }

  predicate Current(b: Mailbox, i: nat)
    requires Shaped(b) && i < |b.locals|
  {
    LooksNow(b.locals[i], b.sys.threads[i], b.sys.queue)
  }

  /** A run of thread i alone, step after step. */
  function Solo(b: Mailbox, i: nat, k: nat): (b': Mailbox)
    requires Shaped(b)
    ensures Shaped(b') && |b'.locals| == |b.locals|
    decreases k
  {
    if k == 0 then b else Solo(Mailboxes.Next(b, Run(i, false)), i, k - 1)
  }

  lemma SoloMore(b: Mailbox, i: nat, l: nat, k: nat)
    requires Shaped(b) && k == l + 1
    ensures Solo(b, i, k) == Solo(Mailboxes.Next(b, Run(i, false)), i, l)
    ensures l == 0 ==> Solo(b, i, k) == Mailboxes.Next(b, Run(i, false))
  {
  }

  lemma {:induction false} DrainReturns(b: Mailbox, i: nat, r: nat) returns (k: nat, b': Mailbox)
    requires Mailboxes.Inv(b) && !b.active && i < |b.locals| && OnlyDrain(b, i) && Served(b.sys.threads[i], b.sys.queue)
    requires RankOf(b, i) <= r
    ensures k <= r + 1 && b' == Solo(b, i, k)
    ensures Mailboxes.Inv(b') && AllOutside(b') && !b'.active
    ensures Current(b, i) ==> b'.sys.queue.head <= b'.sys.queue.tail
    decreases r
  {
    var c := Mailboxes.Next(b, Run(i, false));
    SoloNext(b, i, c);
    if c.locals[i] == Outside {
      k, b' := 1, c;
      SoloMore(b, i, 0, 1);
    } else {
      var l;
      l, b' := DrainReturns(c, i, r - 1);
      k := l + 1;
      SoloMore(b, i, l, k);
    }
  }

  /** A drain that has the mailbox to itself, wherever it is and whatever counters it has loaded,
      returns within the stated number of steps; only a ticket whose element others have taken
      could keep it. Unless a look that was out of date ends it, it leaves the queue empty. */
  lemma DrainReturnsInTime(b: Mailbox, i: nat) returns (k: nat)
    requires Mailboxes.Inv(b) && !b.active && i < |b.locals| && OnlyDrain(b, i) && Served(b.sys.threads[i], b.sys.queue)
    ensures k <= 6 + 8 * Max(b.sys.queue.head - b.sys.queue.tail, 1)
    ensures var b' := Solo(b, i, k);
            && AllOutside(b') && !b'.active
            && (Current(b, i) ==> forall r :: 0 <= r < |b'.sys.queue.cells| ==> b'.sys.queue.cells[r].slot.Nil?)
  {
    RankBound(b.locals[i], b.sys.threads[i], b.sys.queue);
    var b';
    k, b' := DrainReturns(b, i, RankOf(b, i));
    ReturnedEmpty(b');
  }

  lemma ReturnedEmpty(b: Mailbox)
    requires Mailboxes.Inv(b) && AllOutside(b)
    ensures b.sys.queue.head <= b.sys.queue.tail ==>
              forall r :: 0 <= r < |b.sys.queue.cells| ==> b.sys.queue.cells[r].slot.Nil?
  {
    NothingClaimed(b);
    QuietQueueEmpty(b.sys);
  }

  // ---------------------------------------------------------------- calls that change nothing

  /** A send to an inactive mailbox, a receive from one, and a `setState` that asks for the state
      the mailbox is in return after their first test and change nothing at all. */
  lemma NothingToDo(b: Mailbox, i: nat, a: Event, spurious: bool)
    requires Rested(b, i) && a.tid == i
    requires match a
             case Send(_) => !b.active
             case Receive(_, _) => !b.active
             case SetState(_, newState) => b.active == newState
             case Run(_, _) => false
    ensures Mailboxes.Exec(b, [a, Run(i, spurious)]) == b
  {
    var c, start := Then(b, b, [], a);
    var d, schedule := Then(b, c, start, Run(i, spurious));
    assert d.locals == b.locals && d.sys.threads == b.sys.threads;
    assert schedule == [a, Run(i, spurious)];
  }

  // ---------------------------------------------------------------- a non-blocking receive

  lemma TryReceiveStart(b: Mailbox, i: nat) returns (schedule: seq<Event>)
    requires Rested(b, i) && b.active
    ensures OnlyBy(schedule, i)
    ensures View(Mailboxes.Exec(b, schedule), System(b.sys.queue, b.sys.threads[i := TryPopTest(b.sys.queue.tail)]),
                 b.locals[i := Receiving], true)
  {
    var c;
    Enter(b, i, Receive(i, true), ReceiveCheck(true));
    c, schedule := Then(b, b, [], Receive(i, true));
    CodeTurn(c, i, Receiving, TryPopLoad, Quiet);
    c, schedule := Then(b, c, schedule, Run(i, false));
    CallStep(c, i, TryPopTest(b.sys.queue.tail), b.sys.queue);
    c, schedule := Then(b, c, schedule, Run(i, false));
    assert c.sys.threads == b.sys.threads[i := TryPopTest(b.sys.queue.tail)];
    assert c.locals == b.locals[i := Receiving];
  }

  /** From the test on, with nobody else moving. */
  lemma TryReceiveEnds(b: Mailbox, i: nat) returns (schedule: seq<Event>)
    requires Shaped(b) && i < |b.locals| && b.locals[i] == Receiving && b.sys.threads[i] == TryPopTest(b.sys.queue.tail)
    requires b.sys.queue.head <= b.sys.queue.tail
    ensures OnlyBy(schedule, i)
    ensures View(Mailboxes.Exec(b, schedule), System(b.sys.queue, b.sys.threads[i := Idle]), b.locals[i := Outside], b.active)
  {
    var c;
    CallStep(b, i, Done(Nothing), b.sys.queue);
    c, schedule := Then(b, b, [], Run(i, false));
    CodeTurn(c, i, Outside, Idle, Quiet);
    c, schedule := Then(b, c, schedule, Run(i, false));
    assert b.sys.threads[i := Done(Nothing)][i := Idle] == b.sys.threads[i := Idle];
  }

  lemma TryReceiveClaims(b: Mailbox, i: nat) returns (schedule: seq<Event>)
    requires Shaped(b) && i < |b.locals| && b.locals[i] == Receiving && b.sys.threads[i] == TryPopTest(b.sys.queue.tail)
    requires b.sys.queue.head > b.sys.queue.tail
    ensures OnlyBy(schedule, i)
    ensures View(Mailboxes.Exec(b, schedule), System(ClaimTake(b.sys.queue, i), b.sys.threads[i := Taking(b.sys.queue.tail)]),
                 b.locals, b.active)
  {
    var q, c := b.sys.queue, b;
    CallStep(c, i, TryPopCas(q.tail), q);
    c, schedule := Then(b, c, [], Run(i, false));
    CallStep(c, i, Taking(q.tail), ClaimTake(q, i));
    c, schedule := Then(b, c, schedule, Run(i, false));
    assert b.sys.threads[i := TryPopCas(q.tail)][i := Taking(q.tail)] == b.sys.threads[i := Taking(q.tail)];
  }

  lemma TryReceiveTakes(b: Mailbox, i: nat) returns (schedule: seq<Event>)
    requires Shaped(b) && i < |b.locals| && b.locals[i] == Receiving && b.sys.threads[i] == TryPopTest(b.sys.queue.tail)
    requires b.sys.queue.head > b.sys.queue.tail && b.sys.queue.cells[LaneOf(b.sys.queue, b.sys.queue.tail)].slot.Full?
    ensures OnlyBy(schedule, i)
    ensures View(Mailboxes.Exec(b, schedule), System(Popped(b.sys.queue, i), b.sys.threads[i := Idle]), b.locals[i := Outside], b.active)
  {
    var q := b.sys.queue;
    var e := q.cells[LaneOf(q, q.tail)].slot.elem;
    var claim := TryReceiveClaims(b, i);
    var leave := LeaveCall(Mailboxes.Exec(b, claim), i, Got(e), Popped(q, i), Give(e, RECEIVED));
    schedule := claim + leave;
    RunsConcat(b, claim, leave);
    assert b.sys.threads[i := Taking(q.tail)][i := Idle] == b.sys.threads[i := Idle];
  }

  /** A non-blocking receive with the mailbox to itself takes the oldest message if there is one
      and otherwise returns without waiting. */
  lemma TryReceiveAlone(b: Mailbox, i: nat) returns (schedule: seq<Event>)
    requires Rested(b, i) && b.active && Loaded(b.sys.queue)
    ensures OnlyBy(schedule, i)
    ensures View(Mailboxes.Exec(b, schedule),
                 System(if b.sys.queue.head > b.sys.queue.tail then Popped(b.sys.queue, i) else b.sys.queue, b.sys.threads),
                 b.locals, true)
  {
    var q := b.sys.queue;
    var start := TryReceiveStart(b, i);
    var c := Mailboxes.Exec(b, start);
    var rest;
    if q.head <= q.tail {
      rest := TryReceiveEnds(c, i);
    } else {
      PoppedLoaded(q, i);
      rest := TryReceiveTakes(c, i);
    }
    schedule := start + rest;
    RunsConcat(b, start, rest);
    assert b.locals[i := Receiving][i := Outside] == b.locals;
    assert b.sys.threads[i := TryPopTest(q.tail)][i := Idle] == b.sys.threads;
  }
}
