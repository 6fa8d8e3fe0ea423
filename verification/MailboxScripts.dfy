/** Runs of the mailbox in which one thread acts while the others rest: a deactivation from
    beginning to end, and the runs in which a drain is left waiting. */
module MailboxScripts {
  import opened Residues
  import opened TicketQueue
  import opened TicketOrder
  import opened QueueThreads
  import opened QueueRuns
  import opened QueueScripts
  import opened QueueMachine
  import opened Places
  import opened Mailboxes
  import opened MailboxDrains

  lemma {:induction false} RunsConcat(b: Mailbox, x: seq<Event>, y: seq<Event>)
    requires Shaped(b)
    ensures Mailboxes.Exec(b, x + y) == Mailboxes.Exec(Mailboxes.Exec(b, x), y)
    decreases |x|
  {
    if x == [] {
      assert x + y == y;
    } else {
      RunsConcat(Mailboxes.Next(b, x[0]), x[1..], y);
      assert (x + y)[1..] == x[1..] + y;
    }
  }

  /** One more event at the end of a run. */
  lemma Then(b: Mailbox, c: Mailbox, schedule: seq<Event>, a: Event) returns (c': Mailbox, schedule': seq<Event>)
    requires Shaped(b) && c == Mailboxes.Exec(b, schedule)
    ensures schedule' == schedule + [a] && c' == Mailboxes.Exec(b, schedule') == Mailboxes.Next(c, a)
  {
    c', schedule' := Mailboxes.Next(c, a), schedule + [a];
    RunsConcat(b, schedule, [a]);
    assert [a][1..] == [];
  }

  predicate OnlyBy(schedule: seq<Event>, i: nat) {
    forall k :: 0 <= k < |schedule| ==> schedule[k].tid == i
  }

  /** Events of thread i that neither send nor receive. */
  predicate Closing(schedule: seq<Event>, i: nat) {
    forall k :: 0 <= k < |schedule| ==> schedule[k].tid == i && (schedule[k].SetState? || schedule[k].Run?)
  }

  predicate Running(schedule: seq<Event>, i: nat) {
    forall k :: 0 <= k < |schedule| ==> schedule[k].tid == i && schedule[k].Run?
  }

  /** What a run by thread i may change and what the scripts keep track of. */
  predicate View(b: Mailbox, sys: System<nat>, locals: seq<Local>, active: bool) {
    Shaped(b) && b.sys == sys && b.locals == locals && b.active == active
  }

  /** One step of the queue call a thread is in. */
  lemma CallStep(b: Mailbox, i: nat, p': Phase<nat>, q': Queue<nat>)
    requires Shaped(b) && i < |b.locals| && TurnOf(b, i).Inner?
    requires p' == PhaseStep(b.sys.queue, b.sys.threads[i], false) && q' == QueueStep(b.sys.queue, i, b.sys.threads[i], false)
    ensures View(Mailboxes.Next(b, Run(i, false)), System(q', b.sys.threads[i := p']), b.locals, b.active)
  {
  }

  /** A turn of the mailbox code. */
  lemma CodeTurn(b: Mailbox, i: nat, to: Local, call: Phase<nat>, effect: Effect)
    requires Shaped(b) && i < |b.locals| && TurnOf(b, i) == Go(to, call, effect)
    ensures View(Mailboxes.Next(b, Run(i, false)), System(b.sys.queue, b.sys.threads[i := call]), b.locals[i := to],
                 if effect.Flag? then effect.newState else b.active)
  {
  }

  lemma Enter(b: Mailbox, i: nat, a: Event, l: Local)
    requires Shaped(b) && i < |b.locals| && b.locals[i].Outside? && a.tid == i && !a.Run?
    requires l == match a
             case Send(_) => SendCheck
             case Receive(_, nonBlocking) => ReceiveCheck(nonBlocking)
             case SetState(_, newState) => SetCheck(newState)
             case Run(_, _) => Outside
    ensures View(Mailboxes.Next(b, a), b.sys, b.locals[i := l], b.active)
  {
  }

  /** Thread i is outside and may start a call. */
  predicate Rested(b: Mailbox, i: nat) {
    Shaped(b) && i < |b.locals| && b.locals[i] == Outside && b.sys.threads[i] == Idle
  }

  // ---------------------------------------------------------------- whole calls

  lemma ActivateAlone(b: Mailbox, i: nat) returns (schedule: seq<Event>)
    requires Rested(b, i) && !b.active
    ensures View(Mailboxes.Exec(b, schedule), b.sys, b.locals, true) && OnlyBy(schedule, i)
  {
    var c;
    Enter(b, i, SetState(i, true), SetCheck(true));
    c, schedule := Then(b, b, [], SetState(i, true));
    CodeTurn(c, i, Outside, Idle, Flag(true));
    c, schedule := Then(b, c, schedule, Run(i, false));
    assert b.locals[i := SetCheck(true)][i := Outside] == b.locals;
    assert b.sys.threads[i := Idle] == b.sys.threads;
  }

  /** A sender up to its claim, and to its end. */
  lemma SendStart(b: Mailbox, i: nat) returns (schedule: seq<Event>)
    requires Rested(b, i) && b.active
    ensures OnlyBy(schedule, i)
    ensures View(Mailboxes.Exec(b, schedule), System(ClaimPut(b.sys.queue, i, |b.place|), b.sys.threads[i := Storing(|b.place|, b.sys.queue.head)]),
                 b.locals[i := Sending], true)
  {
    var c;
    Enter(b, i, Send(i), SendCheck);
    c, schedule := Then(b, b, [], Send(i));
    CodeTurn(c, i, Sending, PushAdd(|b.place|), Accept);
    c, schedule := Then(b, c, schedule, Run(i, false));
    CallStep(c, i, Storing(|b.place|, b.sys.queue.head), ClaimPut(b.sys.queue, i, |b.place|));
    c, schedule := Then(b, c, schedule, Run(i, false));
    assert b.locals[i := SendCheck][i := Sending] == b.locals[i := Sending];
  }

  /** The slot step of a claimed push or pop, and the way out. */
  lemma LeaveCall(b: Mailbox, i: nat, reply: Reply<nat>, q': Queue<nat>, effect: Effect) returns (schedule: seq<Event>)
    requires Shaped(b) && i < |b.locals| && CanMove(b.sys.queue, b.sys.threads[i])
    requires Agrees(b.locals[i], b.sys.threads[i]) && !b.locals[i].DrainPop?
    requires Done(reply) == PhaseStep(b.sys.queue, b.sys.threads[i], false)
    requires q' == QueueStep(b.sys.queue, i, b.sys.threads[i], false)
    requires effect == if b.locals[i].Receiving? && reply.Got? then Give(reply.elem, RECEIVED) else Quiet
    ensures OnlyBy(schedule, i)
    ensures View(Mailboxes.Exec(b, schedule), System(q', b.sys.threads[i := Idle]), b.locals[i := Outside], b.active)
  {
    var c;
    CallStep(b, i, Done(reply), q');
    c, schedule := Then(b, b, [], Run(i, false));
    CodeTurn(c, i, Outside, Idle, effect);
    c, schedule := Then(b, c, schedule, Run(i, false));
    assert b.sys.threads[i := Done(reply)][i := Idle] == b.sys.threads[i := Idle];
  }

  lemma SendAlone(b: Mailbox, i: nat) returns (schedule: seq<Event>)
    requires Rested(b, i) && b.active && b.sys.queue.cells[LaneOf(b.sys.queue, b.sys.queue.head)].slot.Nil?
    ensures OnlyBy(schedule, i)
    ensures View(Mailboxes.Exec(b, schedule), System(Pushed(b.sys.queue, i, |b.place|), b.sys.threads), b.locals, true)
  {
    var start := SendStart(b, i);
    var c := Mailboxes.Exec(b, start);
    var leave := LeaveCall(c, i, Accepted, Pushed(b.sys.queue, i, |b.place|), Quiet);
    schedule := start + leave;
    RunsConcat(b, start, leave);
    assert b.locals[i := Sending][i := Outside] == b.locals;
    assert c.sys.threads[i := Idle] == b.sys.threads;
  }

  lemma ReceiveStart(b: Mailbox, i: nat) returns (schedule: seq<Event>)
    requires Rested(b, i) && b.active
    ensures OnlyBy(schedule, i)
    ensures View(Mailboxes.Exec(b, schedule), System(b.sys.queue, b.sys.threads[i := PopAdd]), b.locals[i := Receiving], true)
  {
    var c;
    Enter(b, i, Receive(i, false), ReceiveCheck(false));
    c, schedule := Then(b, b, [], Receive(i, false));
    CodeTurn(c, i, Receiving, PopAdd, Quiet);
    c, schedule := Then(b, c, schedule, Run(i, false));
    assert b.locals[i := ReceiveCheck(false)][i := Receiving] == b.locals[i := Receiving];
  }

  lemma ReceiveClaim(b: Mailbox, i: nat) returns (schedule: seq<Event>)
    requires Rested(b, i) && b.active
    ensures OnlyBy(schedule, i)
    ensures View(Mailboxes.Exec(b, schedule), System(ClaimTake(b.sys.queue, i), b.sys.threads[i := Taking(b.sys.queue.tail)]),
                 b.locals[i := Receiving], true)
  {
    var q := b.sys.queue;
    var start := ReceiveStart(b, i);
    var c := Mailboxes.Exec(b, start);
    CallStep(c, i, Taking(q.tail), ClaimTake(q, i));
    c, schedule := Then(b, c, start, Run(i, false));
    assert b.sys.threads[i := PopAdd][i := Taking(q.tail)] == b.sys.threads[i := Taking(q.tail)];
  }

  lemma ReceiveAlone(b: Mailbox, i: nat) returns (schedule: seq<Event>)
    requires Rested(b, i) && b.active && b.sys.queue.cells[LaneOf(b.sys.queue, b.sys.queue.tail)].slot.Full?
    ensures OnlyBy(schedule, i)
    ensures View(Mailboxes.Exec(b, schedule), System(Popped(b.sys.queue, i), b.sys.threads), b.locals, true)
  {
    var q := b.sys.queue;
    var e := q.cells[LaneOf(q, q.tail)].slot.elem;
    var claim := ReceiveClaim(b, i);
    var c := Mailboxes.Exec(b, claim);
    var leave := LeaveCall(c, i, Got(e), Popped(q, i), Give(e, RECEIVED));
    schedule := claim + leave;
    RunsConcat(b, claim, leave);
    assert b.locals[i := Receiving][i := Outside] == b.locals;
    assert b.sys.threads[i := Taking(q.tail)][i := Idle] == b.sys.threads;
  }

  /** The flag is cleared and the drain is about to look. */
  lemma DeactivateStart(b: Mailbox, i: nat) returns (schedule: seq<Event>)
    requires Rested(b, i) && b.active
    ensures Closing(schedule, i)
    ensures View(Mailboxes.Exec(b, schedule), System(b.sys.queue, b.sys.threads[i := SizeLoad]), b.locals[i := DrainEmpty], false)
  {
    var c;
    Enter(b, i, SetState(i, false), SetCheck(false));
    c, schedule := Then(b, b, [], SetState(i, false));
    CodeTurn(c, i, DrainEmpty, SizeLoad, Flag(false));
    c, schedule := Then(b, c, schedule, Run(i, false));
    assert b.locals[i := SetCheck(false)][i := DrainEmpty] == b.locals[i := DrainEmpty];
  }

  /** Thread i is in front of the loop condition of its drain. */
  predicate AtLoop(b: Mailbox, i: nat) {
    Shaped(b) && i < |b.locals| && b.locals[i] == DrainEmpty && b.sys.threads[i] == SizeLoad && !b.active
  }

  lemma LookAlone(b: Mailbox, i: nat, k: nat) returns (schedule: seq<Event>)
    requires AtLoop(b, i) && k == Max(b.sys.queue.head - b.sys.queue.tail, 0)
    ensures Running(schedule, i)
    ensures View(Mailboxes.Exec(b, schedule), System(b.sys.queue, b.sys.threads[i := Done(Count(k))]), b.locals, false)
  {
    var c;
    CallStep(b, i, SizeTest(b.sys.queue.head), b.sys.queue);
    c, schedule := Then(b, b, [], Run(i, false));
    CallStep(c, i, Done(Count(k)), b.sys.queue);
    c, schedule := Then(b, c, schedule, Run(i, false));
    assert b.sys.threads[i := SizeTest(b.sys.queue.head)][i := Done(Count(k))] == b.sys.threads[i := Done(Count(k))];
  }

  /** The drain finds nothing and leaves. */
  lemma DrainLeaves(b: Mailbox, i: nat) returns (schedule: seq<Event>)
    requires AtLoop(b, i) && b.sys.queue.head <= b.sys.queue.tail
    ensures Running(schedule, i)
    ensures View(Mailboxes.Exec(b, schedule), System(b.sys.queue, b.sys.threads[i := Idle]), b.locals[i := Outside], false)
  {
    var look := LookAlone(b, i, 0);
    var c := Mailboxes.Exec(b, look);
    CodeTurn(c, i, Outside, Idle, Quiet);
    c, schedule := Then(b, c, look, Run(i, false));
    assert b.sys.threads[i := Done(Count(0))][i := Idle] == b.sys.threads[i := Idle];
  }

  /** The drain sees messages and goes for one. */
  lemma DrainSees(b: Mailbox, i: nat) returns (schedule: seq<Event>)
    requires AtLoop(b, i) && b.sys.queue.head > b.sys.queue.tail
    ensures Running(schedule, i)
    ensures View(Mailboxes.Exec(b, schedule), System(b.sys.queue, b.sys.threads[i := TryPopLoad]), b.locals[i := DrainPop], false)
  {
    var q := b.sys.queue;
    var k: nat := q.head - q.tail;
    var look := LookAlone(b, i, k);
    var c := Mailboxes.Exec(b, look);
    CodeTurn(c, i, DrainPop, TryPopLoad, Quiet);
    c, schedule := Then(b, c, look, Run(i, false));
    assert b.sys.threads[i := Done(Count(k))][i := TryPopLoad] == b.sys.threads[i := TryPopLoad];
  }

  lemma TryPopLooks(b: Mailbox, i: nat) returns (schedule: seq<Event>)
    requires Shaped(b) && i < |b.locals| && b.locals[i].DrainPop? && b.sys.threads[i] == TryPopLoad
    requires b.sys.queue.head > b.sys.queue.tail
    ensures Running(schedule, i)
    ensures View(Mailboxes.Exec(b, schedule), System(b.sys.queue, b.sys.threads[i := TryPopCas(b.sys.queue.tail)]), b.locals, b.active)
  {
    var q, c := b.sys.queue, b;
    CallStep(c, i, TryPopTest(q.tail), q);
    c, schedule := Then(b, c, [], Run(i, false));
    CallStep(c, i, TryPopCas(q.tail), q);
    c, schedule := Then(b, c, schedule, Run(i, false));
    assert b.sys.threads[i := TryPopTest(q.tail)][i := TryPopCas(q.tail)] == b.sys.threads[i := TryPopCas(q.tail)];
  }

  lemma TryPopClaims(b: Mailbox, i: nat) returns (schedule: seq<Event>)
    requires Shaped(b) && i < |b.locals| && b.locals[i].DrainPop? && b.sys.threads[i] == TryPopLoad
    requires b.sys.queue.head > b.sys.queue.tail
    ensures Running(schedule, i)
    ensures View(Mailboxes.Exec(b, schedule), System(ClaimTake(b.sys.queue, i), b.sys.threads[i := Taking(b.sys.queue.tail)]),
                 b.locals, b.active)
  {
    var q := b.sys.queue;
    var looks := TryPopLooks(b, i);
    var c := Mailboxes.Exec(b, looks);
    CallStep(c, i, Taking(q.tail), ClaimTake(q, i));
    c, schedule := Then(b, c, looks, Run(i, false));
    assert b.sys.threads[i := TryPopCas(q.tail)][i := Taking(q.tail)] == b.sys.threads[i := Taking(q.tail)];
  }

  lemma DrainClaims(b: Mailbox, i: nat) returns (schedule: seq<Event>)
    requires AtLoop(b, i) && b.sys.queue.head > b.sys.queue.tail
    ensures Running(schedule, i)
    ensures View(Mailboxes.Exec(b, schedule), System(ClaimTake(b.sys.queue, i), b.sys.threads[i := Taking(b.sys.queue.tail)]),
                 b.locals[i := DrainPop], false)
  {
    var sees := DrainSees(b, i);
    var claims := TryPopClaims(Mailboxes.Exec(b, sees), i);
    schedule := sees + claims;
    RunsConcat(b, sees, claims);
    assert b.sys.threads[i := TryPopLoad][i := Taking(b.sys.queue.tail)] == b.sys.threads[i := Taking(b.sys.queue.tail)];
  }

  /** The drain takes the message out of its slot and passes it to `deallocate`. */
  lemma DrainTakes(b: Mailbox, i: nat, e: nat, q': Queue<nat>) returns (schedule: seq<Event>)
    requires Shaped(b) && i < |b.locals| && b.locals[i].DrainPop? && b.sys.threads[i].Taking?
    requires b.sys.queue.cells[LaneOf(b.sys.queue, b.sys.threads[i].ticket)].slot == Full(e)
    requires q' == Take(b.sys.queue, b.sys.threads[i].ticket)
    ensures Running(schedule, i)
    ensures View(Mailboxes.Exec(b, schedule), System(q', b.sys.threads[i := SizeLoad]), b.locals[i := DrainEmpty], b.active)
  {
    var c;
    CallStep(b, i, Done(Got(e)), q');
    c, schedule := Then(b, b, [], Run(i, false));
    CodeTurn(c, i, DrainEmpty, SizeLoad, Give(e, if e in c.malformed then REFUSED else FREED));
    c, schedule := Then(b, c, schedule, Run(i, false));
    assert b.sys.threads[i := Done(Got(e))][i := SizeLoad] == b.sys.threads[i := SizeLoad];
  }

  /** One undisturbed iteration: the oldest message is taken and passed to `deallocate`. */
  lemma DrainRound(b: Mailbox, i: nat) returns (schedule: seq<Event>)
    requires AtLoop(b, i) && b.sys.queue.head > b.sys.queue.tail
    requires b.sys.queue.cells[LaneOf(b.sys.queue, b.sys.queue.tail)].slot.Full?
    ensures Running(schedule, i)
    ensures View(Mailboxes.Exec(b, schedule), System(Popped(b.sys.queue, i), b.sys.threads), b.locals, false)
  {
    var q := b.sys.queue;
    var claims := DrainClaims(b, i);
    var c := Mailboxes.Exec(b, claims);
    var takes := DrainTakes(c, i, q.cells[LaneOf(q, q.tail)].slot.elem, Popped(q, i));
    schedule := claims + takes;
    RunsConcat(b, claims, takes);
    assert b.sys.threads[i := Taking(q.tail)][i := SizeLoad] == b.sys.threads;
    assert b.locals[i := DrainPop][i := DrainEmpty] == b.locals;
  }

  // ---------------------------------------------------------------- a deactivation with nothing else going on

  predicate AllOutside(b: Mailbox) {
    forall j :: 0 <= j < |b.locals| ==> b.locals[j] == Outside
  }

  lemma NothingClaimed(b: Mailbox)
    requires Shaped(b) && LocalsOk(b) && OwnersOk(b.sys.queue, b.sys.threads)
    requires forall j :: 0 <= j < |b.locals| ==> b.locals[j].Outside? || (b.locals[j].DrainEmpty? && b.sys.threads[j].SizeLoad?)
    ensures b.sys.queue.puts.Keys == {} && b.sys.queue.takes.Keys == {}
  {
    forall t ensures t !in b.sys.queue.puts && t !in b.sys.queue.takes {
    }
  }

  /** Every ticket between tail and head has its element in its slot. */
  ghost predicate Loaded(q: Queue<nat>)
    requires |q.cells| > 0
  {
    q.head <= q.tail + |q.cells| && forall t {:trigger LaneOf(q, t)} :: q.tail <= t < q.head ==> q.cells[LaneOf(q, t)].slot.Full?
  }

  lemma QuietIsLoaded(q: Queue<nat>)
    requires TicketQueue.Inv(q) && q.puts.Keys == {} && q.takes.Keys == {}
    ensures Loaded(q)
  {
    OccupiedIsDifference(q.cells);
    forall t | q.tail <= t < q.head ensures q.cells[LaneOf(q, t)].slot.Full? {
      TicketIsIn(q, t);
    }
  }

  lemma TicketIsIn(q: Queue<nat>, t: nat)
    requires TicketQueue.Inv(q) && q.puts.Keys == {} && q.takes.Keys == {} && q.tail <= t < q.head
    ensures q.cells[LaneOf(q, t)].slot.Full?
  {
    var m, r := |q.cells|, LaneOf(q, t);
    LaneBooks(q, r);
    ClaimsMonotone(q.tail, t, m, r);
    ClaimsMonotone(t + 1, q.head, m, r);
    NoneInLane(m, r);
  }

  lemma PoppedLoaded(q: Queue<nat>, i: nat)
    requires |q.cells| > 0 && Loaded(q) && q.tail < q.head
    ensures q.cells[LaneOf(q, q.tail)].slot.Full?
    ensures var q' := Popped(q, i); Loaded(q') && q'.head == q.head && q'.tail == q.tail + 1
  {
    assert LaneOf(q, q.tail) < |q.cells|;
    var q' := Popped(q, i);
    forall t | q'.tail <= t < q'.head ensures q'.cells[LaneOf(q', t)].slot.Full? {
      assert q.cells[LaneOf(q, t)].slot.Full?;
      if LaneOf(q, t) == LaneOf(q, q.tail) {
        LaneSpacing(q.tail, t, |q.cells|);
      }
    }
  }

  /** The drain from its first look to its last. */
  lemma {:induction false} DrainAlone(b: Mailbox, i: nat, k: nat) returns (schedule: seq<Event>)
    requires AtLoop(b, i) && Loaded(b.sys.queue) && b.sys.queue.head <= b.sys.queue.tail + k
    ensures Running(schedule, i)
    ensures var b' := Mailboxes.Exec(b, schedule);
            Shaped(b') && b'.locals == b.locals[i := Outside] && !b'.active && b'.sys.queue.head <= b'.sys.queue.tail
    decreases k
  {
    if b.sys.queue.head <= b.sys.queue.tail {
      schedule := DrainLeaves(b, i);
    } else {
      PoppedLoaded(b.sys.queue, i);
      var round := DrainRound(b, i);
      var rest := DrainAlone(Mailboxes.Exec(b, round), i, k - 1);
      schedule := round + rest;
      RunsConcat(b, round, rest);
    }
  }

  // ---------------------------------------------------------------- where a drain puts messages

  predicate NoneCalling(b: Mailbox) {
    forall j :: 0 <= j < |b.locals| ==> !b.locals[j].Receiving? && !b.locals[j].ReceiveCheck? && !b.locals[j].SendCheck?
  }

  function Destination(malformed: set<nat>, e: nat): Place {
    InHand(if e in malformed then REFUSED else FREED)
  }

  lemma NoneCallingStep(b: Mailbox, a: Event)
    requires Shaped(b) && NoneCalling(b) && (a.SetState? || a.Run?)
    ensures var b' := Mailboxes.Next(b, a);
            NoneCalling(b') && b'.malformed == b.malformed && |b'.place| == |b.place|
  {
  }

  lemma DrainHands(b: Mailbox, a: Event, e: nat)
    requires Shaped(b) && Books(b) && LocalsOk(b) && NoneCalling(b) && (a.SetState? || a.Run?)
    ensures var b' := Mailboxes.Next(b, a);
            Handed(b', e) && !Handed(b, e) ==> b'.place[e] == Destination(b.malformed, e)
  {
    StepHands(b, a, e, RECEIVED);
    StepHands(b, a, e, FREED);
    StepHands(b, a, e, REFUSED);
  }

  /** Where nobody sends or receives nothing is accepted, and what is handed over is freed if
      well-formed and refused if not. */
  lemma {:induction false} RunDrainHands(b: Mailbox, schedule: seq<Event>, i: nat, e: nat)
    requires Mailboxes.Inv(b) && NoneCalling(b) && Closing(schedule, i)
    ensures var b' := Mailboxes.Exec(b, schedule);
            && b'.malformed == b.malformed && |b'.place| == |b.place|
            && (Handed(b', e) && !Handed(b, e) ==> b'.place[e] == Destination(b.malformed, e))
    decreases |schedule|
  {
    if schedule != [] {
      var a, rest := schedule[0], schedule[1..];
      assert a.SetState? || a.Run?;
      NoneCallingStep(b, a);
      DrainHands(b, a, e);
      Mailboxes.NextInv(b, a);
      forall k | 0 <= k < |rest| ensures rest[k].tid == i && (rest[k].SetState? || rest[k].Run?) {
        assert rest[k] == schedule[k + 1];
      }
      RunDrainHands(Mailboxes.Next(b, a), rest, i, e);
      RunHands(Mailboxes.Next(b, a), rest, e, 0);
    }
  }

  lemma OutsideHanded(b: Mailbox, e: nat)
    requires Mailboxes.Inv(b) && AllOutside(b) && b.sys.queue.head <= b.sys.queue.tail && e < |b.place|
    ensures Handed(b, e)
  {
    NothingClaimed(b);
    QuietQueueEmpty(b.sys);
    assert Located(b.sys.queue, b.sys.threads, b.hands, e, b.place[e]);
  }

  lemma OutsideLoaded(b: Mailbox, i: nat)
    requires Mailboxes.Inv(b) && AllOutside(b) && i < |b.locals|
    ensures Rested(b, i) && Loaded(b.sys.queue)
  {
    assert Agrees(b.locals[i], b.sys.threads[i]);
    NothingClaimed(b);
    QuietIsLoaded(b.sys.queue);
  }

  /** From a mailbox at rest to a mailbox at rest. */
  lemma DeactivateAlone(b: Mailbox, i: nat) returns (schedule: seq<Event>)
    requires Rested(b, i) && Loaded(b.sys.queue) && b.active && AllOutside(b)
    ensures Closing(schedule, i)
    ensures var b' := Mailboxes.Exec(b, schedule);
            Shaped(b') && AllOutside(b') && !b'.active && b'.sys.queue.head <= b'.sys.queue.tail
  {
    var start := DeactivateStart(b, i);
    var c := Mailboxes.Exec(b, start);
    var drain := DrainAlone(c, i, c.sys.queue.head);
    schedule := start + drain;
    RunsConcat(b, start, drain);
  }

  /** `setState(false)` while no other call is under way, from its first step to its last: the
      queue ends up empty, every message that was in it has been freed, or refused by
      `deallocate` if malformed, and what had been handed over before stays where it is. */
  lemma QuietDeactivation(b: Mailbox, i: nat) returns (schedule: seq<Event>)
    requires Mailboxes.Inv(b) && b.active && AllOutside(b) && i < |b.locals|
    ensures Closing(schedule, i)
    ensures var b' := Mailboxes.Exec(b, schedule);
            && !b'.active && AllOutside(b') && |b'.place| == |b.place|
            && (forall r :: 0 <= r < |b'.sys.queue.cells| ==> b'.sys.queue.cells[r].slot.Nil?)
            && (forall e :: 0 <= e < |b.place| ==>
                  b'.place[e] == if b.place[e].InHand? then b.place[e] else Destination(b.malformed, e))
  {
    OutsideLoaded(b, i);
    schedule := DeactivateAlone(b, i);
    var b' := Mailboxes.Exec(b, schedule);
    Mailboxes.ExecInv(b, schedule);
    RunDrainHands(b, schedule, i, 0);
    NothingClaimed(b');
    QuietQueueEmpty(b'.sys);
    forall e | 0 <= e < |b.place|
      ensures b'.place[e] == if b.place[e].InHand? then b.place[e] else Destination(b.malformed, e)
    {
      OutsideHanded(b', e);
      RunDrainHands(b, schedule, i, e);
      RunHands(b, schedule, e, 0);
    }
  }

  /** A repeated deactivation changes nothing at all. */
  lemma RepeatedDeactivation(b: Mailbox, i: nat, spurious: bool)
    requires Rested(b, i) && !b.active
    ensures Mailboxes.Exec(b, [SetState(i, false), Run(i, spurious)]) == b
  {
    var c, start := Then(b, b, [], SetState(i, false));
    var d, schedule := Then(b, c, start, Run(i, spurious));
    assert d.locals == b.locals && d.sys.threads == b.sys.threads;
    assert schedule == [SetState(i, false), Run(i, spurious)];
  }
}
