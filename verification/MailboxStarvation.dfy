/** The drains that never end: which runs leave a drain waiting for a message that somebody else
    has taken, for a mailbox of any size. */
module MailboxStarvation {
  import opened Residues
  import opened TicketQueue
  import opened TicketOrder
  import opened QueueThreads
  import opened QueueRuns
  import opened QueueScripts
  import opened Places
  import opened Mailboxes
  import opened MailboxDrains
  import opened MailboxScripts

  /** The drain waits for an element, and no operation that has claimed a slot can bring one. */
  ghost predicate Starved(b: Mailbox, i: nat)
    requires Shaped(b) && i < |b.locals|
  {
    Awaiting(b.locals[i], b.sys.threads[i]) && !CanMove(b.sys.queue, b.sys.threads[i]) && !HasPartner(b.sys, i)
  }

  predicate Bringing(p: Phase<nat>) { p.PushAdd? || p.Storing? }

  /** ... and there is no message anywhere on its way or in a slot. */
  ghost predicate Deserted(b: Mailbox, i: nat)
    requires Shaped(b) && i < |b.locals|
  {
    && Awaiting(b.locals[i], b.sys.threads[i]) && Holds(b.sys.queue, {})
    && (forall j :: 0 <= j < |b.sys.threads| ==> !Bringing(b.sys.threads[j]))
  }

  lemma DesertedStarves(b: Mailbox, i: nat)
    requires Shaped(b) && i < |b.locals| && Deserted(b, i)
    ensures Starved(b, i)
  {
    forall j | 0 <= j < |b.sys.threads| ensures !CanMove(b.sys.queue, b.sys.threads[j]) {
      assert !Bringing(b.sys.threads[j]);
    }
  }

  lemma DesertedStep(b: Mailbox, a: Event, i: nat)
    requires Shaped(b) && LocalsOk(b) && !b.active && i < |b.locals| && Deserted(b, i)
    ensures Deserted(Mailboxes.Next(b, a), i)
  {
    if a.tid < |b.locals| {
      assert Agrees(b.locals[a.tid], b.sys.threads[a.tid]) && !Bringing(b.sys.threads[a.tid]);
    }
  }

  /** Such a drain waits for good, unless the mailbox is switched on again. */
  lemma {:induction false} DesertedForGood(b: Mailbox, schedule: seq<Event>, i: nat)
    requires Mailboxes.Inv(b) && i < |b.locals| && Deserted(b, i) && AlwaysInactive(b, schedule)
    ensures Deserted(Mailboxes.Exec(b, schedule), i)
    decreases |schedule|
  {
    if schedule != [] {
      DesertedStep(b, schedule[0], i);
      Mailboxes.NextInv(b, schedule[0]);
      DesertedForGood(Mailboxes.Next(b, schedule[0]), schedule[1..], i);
    }
  }

  lemma {:induction false} OnlyRunsStayInactive(b: Mailbox, schedule: seq<Event>)
    requires Shaped(b) && !b.active && forall j :: 0 <= j < |b.locals| ==> b.locals[j] != SetCheck(true)
    requires forall k :: 0 <= k < |schedule| ==> schedule[k].Run?
    ensures AlwaysInactive(b, schedule)
    decreases |schedule|
  {
    if schedule != [] {
      var b' := Mailboxes.Next(b, schedule[0]);
      assert schedule[0].Run?;
      OnlyRunsStayInactive(b', schedule[1..]);
    }
  }

  // ---------------------------------------------------------------- m_size receivers overtake a drain

  /** Thread l has come as far as its local place and phase say. */
  predicate IsAt(b: Mailbox, l: nat, local: Local, p: Phase<nat>)
    requires Shaped(b) && l < |b.locals|
  {
    b.locals[l] == local && b.sys.threads[l] == p
  }

  /** Receivers 1 .. j are about to claim a pop, the others are outside. */
  predicate Spot(b: Mailbox, l: nat, j: nat)
    requires Shaped(b) && l < |b.locals|
  {
    if 1 <= l <= j then IsAt(b, l, Receiving, PopAdd) else IsAt(b, l, Outside, Idle)
  }

  /** One message is in slot 0. */
  ghost predicate Gathered(b: Mailbox, m: nat, n: nat, j: nat) {
    && Shaped(b) && |b.sys.queue.cells| == m && |b.locals| == n && b.active
    && b.sys.queue.head == 1 && b.sys.queue.tail == 0 && Holds(b.sys.queue, {0}) && Young(b.sys.queue)
    && (forall l :: 0 <= l < n ==> Spot(b, l, j))
  }

  /** A mailbox holding one message that thread i has sent. */
  lemma OneMessage(m: nat, n: nat, malformed: set<nat>, i: nat) returns (schedule: seq<Event>)
    requires m > 0 && i < n
    ensures var b := Mailboxes.Exec(NewMailbox(m, n, malformed), schedule);
            Gathered(b, m, n, 0)
  {
    var b0 := NewMailbox(m, n, malformed);
    var activate := ActivateAlone(b0, i);
    var b1 := Mailboxes.Exec(b0, activate);
    PushedHolds(b1.sys.queue, i, |b1.place|, {});
    var send := SendAlone(b1, i);
    schedule := activate + send;
    RunsConcat(b0, activate, send);
    assert {} + {0} == {0};
  }

  lemma GatherOne(b: Mailbox, m: nat, n: nat, j: nat) returns (schedule: seq<Event>)
    requires Gathered(b, m, n, j) && j + 1 < n
    ensures Gathered(Mailboxes.Exec(b, schedule), m, n, j + 1)
  {
    var i := j + 1;
    assert Spot(b, i, j);
    schedule := ReceiveStart(b, i);
    var c := Mailboxes.Exec(b, schedule);
    forall l | 0 <= l < n ensures Spot(c, l, i) {
      assert Spot(b, l, j);
    }
  }

  lemma {:induction false} GatherMany(b: Mailbox, m: nat, n: nat, j: nat, k: nat) returns (schedule: seq<Event>)
    requires Gathered(b, m, n, j) && j + k < n
    ensures Gathered(Mailboxes.Exec(b, schedule), m, n, j + k)
    decreases k
  {
    if k == 0 {
      schedule := [];
    } else {
      var one := GatherOne(b, m, n, j);
      var rest := GatherMany(Mailboxes.Exec(b, one), m, n, j + 1, k - 1);
      schedule := one + rest;
      RunsConcat(b, one, rest);
    }
  }

  /** The mailbox is inactive, thread 0 is draining, and receivers 1 .. m are still inside. */
  ghost predicate Closed(b: Mailbox, m: nat, n: nat) {
    && Shaped(b) && |b.sys.queue.cells| == m && |b.locals| == n && !b.active && m < n
    && b.sys.queue.head == 1 && b.sys.queue.tail == 0 && Holds(b.sys.queue, {0}) && Young(b.sys.queue)
    && IsAt(b, 0, DrainEmpty, SizeLoad)
    && (forall l :: 1 <= l < n ==> Spot(b, l, m))
  }

  lemma CloseGathered(b: Mailbox, m: nat, n: nat) returns (schedule: seq<Event>)
    requires Gathered(b, m, n, m) && m < n
    ensures Closed(Mailboxes.Exec(b, schedule), m, n)
  {
    assert Spot(b, 0, m);
    schedule := DeactivateStart(b, 0);
    var c := Mailboxes.Exec(b, schedule);
    forall l | 1 <= l < n ensures Spot(c, l, m) {
      assert Spot(b, l, m);
    }
  }

  lemma CloseAround(m: nat, n: nat, malformed: set<nat>) returns (schedule: seq<Event>)
    requires 0 < m < n
    ensures Closed(Mailboxes.Exec(NewMailbox(m, n, malformed), schedule), m, n)
  {
    var b0 := NewMailbox(m, n, malformed);
    var one := OneMessage(m, n, malformed, 0);
    var b1 := Mailboxes.Exec(b0, one);
    var gather := GatherMany(b1, m, n, 0, m);
    var b2 := Mailboxes.Exec(b1, gather);
    var close := CloseGathered(b2, m, n);
    schedule := one + (gather + close);
    RunsConcat(b1, gather, close);
    RunsConcat(b0, one, gather + close);
  }

  predicate LateSpot(b: Mailbox, l: nat, j: nat, m: nat)
    requires Shaped(b) && l < |b.locals|
  {
    if 1 <= l <= j then IsAt(b, l, Receiving, Taking(l)) else Spot(b, l, m)
  }

  /** The drain has ticket 0, receivers 1 .. j have the tickets of their numbers. */
  ghost predicate Overtaken(b: Mailbox, m: nat, n: nat, j: nat) {
    && Shaped(b) && |b.sys.queue.cells| == m && |b.locals| == n && !b.active && j <= m < n
    && b.sys.queue.head == 1 && b.sys.queue.tail == j + 1 && Holds(b.sys.queue, {0})
    && IsAt(b, 0, DrainPop, Taking(0))
    && (forall l :: 1 <= l < n ==> LateSpot(b, l, j, m))
  }

  predicate AllRuns(schedule: seq<Event>) {
    forall k :: 0 <= k < |schedule| ==> schedule[k].Run?
  }

  lemma OvertakeOne(b: Mailbox, m: nat, n: nat, j: nat) returns (schedule: seq<Event>)
    requires Overtaken(b, m, n, j) && j < m
    ensures AllRuns(schedule) && Overtaken(Mailboxes.Exec(b, schedule), m, n, j + 1)
  {
    var i := j + 1;
    assert LateSpot(b, i, j, m);
    CallStep(b, i, Taking(i), ClaimTake(b.sys.queue, i));
    var c;
    c, schedule := Then(b, b, [], Run(i, false));
    forall l | 1 <= l < n ensures LateSpot(c, l, i, m) {
      assert LateSpot(b, l, j, m);
    }
  }

  lemma {:induction false} OvertakeMany(b: Mailbox, m: nat, n: nat, j: nat) returns (schedule: seq<Event>)
    requires Overtaken(b, m, n, j)
    ensures AllRuns(schedule) && Overtaken(Mailboxes.Exec(b, schedule), m, n, m)
    decreases m - j
  {
    if j == m {
      schedule := [];
    } else {
      var one := OvertakeOne(b, m, n, j);
      var rest := OvertakeMany(Mailboxes.Exec(b, one), m, n, j + 1);
      schedule := one + rest;
      RunsConcat(b, one, rest);
    }
  }

  /** Receiver m comes round to slot 0 and takes the message that the drain waits for. */
  lemma TakeAway(b: Mailbox, m: nat, n: nat) returns (schedule: seq<Event>)
    requires m > 0 && Overtaken(b, m, n, m)
    ensures AllRuns(schedule) && Deserted(Mailboxes.Exec(b, schedule), 0)
  {
    var q := b.sys.queue;
    LaneWraps(0, m);
    assert LateSpot(b, m, m, m);
    CallStep(b, m, Done(Got(q.cells[0].slot.elem)), Take(q, m));
    var c;
    c, schedule := Then(b, b, [], Run(m, false));
    forall l | 0 <= l < n ensures !Bringing(c.sys.threads[l]) {
      assert l > 0 ==> LateSpot(b, l, m, m);
    }
    assert Holds(c.sys.queue, {});
  }

  lemma ClaimFirst(b: Mailbox, m: nat, n: nat) returns (schedule: seq<Event>)
    requires m > 0 && Closed(b, m, n)
    ensures AllRuns(schedule) && Overtaken(Mailboxes.Exec(b, schedule), m, n, 0)
  {
    schedule := DrainClaims(b, 0);
    var c := Mailboxes.Exec(b, schedule);
    forall l | 1 <= l < n ensures LateSpot(c, l, 0, m) {
      assert Spot(b, l, m);
    }
  }

  lemma OvertakenDrainStarves(b: Mailbox, m: nat, n: nat) returns (schedule: seq<Event>)
    requires m > 0 && Closed(b, m, n)
    ensures AlwaysInactive(b, schedule) && Deserted(Mailboxes.Exec(b, schedule), 0)
  {
    var claim := ClaimFirst(b, m, n);
    var b1 := Mailboxes.Exec(b, claim);
    var many := OvertakeMany(b1, m, n, 0);
    var b2 := Mailboxes.Exec(b1, many);
    var take := TakeAway(b2, m, n);
    schedule := claim + (many + take);
    RunsConcat(b1, many, take);
    RunsConcat(b, claim, many + take);
    NoActivation(b, m, n);
    OnlyRunsStayInactive(b, schedule);
  }

  lemma NoActivation(b: Mailbox, m: nat, n: nat)
    requires Closed(b, m, n)
    ensures forall j :: 0 <= j < |b.locals| ==> b.locals[j] != SetCheck(true)
  {
    forall j | 0 <= j < |b.locals| ensures b.locals[j] != SetCheck(true) {
      assert j > 0 ==> Spot(b, j, m);
    }
  }

  /** A run that ends with the drain of thread i starved, although it was the only one and the
      flag stayed cleared from before it took its ticket. */
  ghost predicate StarvingRun(m: nat, n: nat, malformed: set<nat>, before: seq<Event>, after: seq<Event>, i: nat)
    requires m > 0
  {
    var b := Mailboxes.Exec(NewMailbox(m, n, malformed), before);
    && i < n && Draining(b.locals[i]) && !Awaiting(b.locals[i], b.sys.threads[i])
    && Lone(b.locals, i) && AlwaysInactive(b, after) && Starved(Mailboxes.Exec(b, after), i)
  }

  /** ... and for good. */
  ghost predicate DesertingRun(m: nat, n: nat, malformed: set<nat>, before: seq<Event>, after: seq<Event>)
    requires m > 0
  {
    && StarvingRun(m, n, malformed, before, after, 0)
    && Deserted(Mailboxes.Exec(Mailboxes.Exec(NewMailbox(m, n, malformed), before), after), 0)
  }

  lemma FewThreadsNeverStarve(m: nat, n: nat, malformed: set<nat>, before: seq<Event>, after: seq<Event>, i: nat)
    requires 0 < m && n <= m
    ensures !StarvingRun(m, n, malformed, before, after, i)
  {
    var b := Mailboxes.Exec(NewMailbox(m, n, malformed), before);
    NewMailboxInv(m, n, malformed);
    Mailboxes.ExecInv(NewMailbox(m, n, malformed), before);
    if StarvingRun(m, n, malformed, before, after, i) {
      FewHeading(b, i);
      SameShape(NewMailbox(m, n, malformed), before);
      LoneDrainProceeds(b, after, i);
    }
  }

  lemma {:induction false} SameShape(b: Mailbox, schedule: seq<Event>)
    requires Shaped(b)
    ensures |Mailboxes.Exec(b, schedule).sys.queue.cells| == |b.sys.queue.cells|
    decreases |schedule|
  {
    if schedule != [] {
      SameShape(Mailboxes.Next(b, schedule[0]), schedule[1..]);
    }
  }

  /** A drain that is alone, while the flag stays cleared, can starve exactly if there are more
      threads than slots: m_size receivers that were inside when the flag was cleared, and the
      drain. */
  lemma LoneDrainStarvesIff(m: nat, n: nat, malformed: set<nat>)
    requires m > 0
    ensures (exists before, after, i :: StarvingRun(m, n, malformed, before, after, i)) <==> n > m
    ensures n > m ==> exists before, after :: DesertingRun(m, n, malformed, before, after)
  {
    if n > m {
      var before := CloseAround(m, n, malformed);
      var b := Mailboxes.Exec(NewMailbox(m, n, malformed), before);
      var after := OvertakenDrainStarves(b, m, n);
      LoneWhenClosed(b, m, n);
      DesertedStarves(Mailboxes.Exec(b, after), 0);
      assert StarvingRun(m, n, malformed, before, after, 0);
      assert DesertingRun(m, n, malformed, before, after);
    } else {
      forall before, after, i ensures !StarvingRun(m, n, malformed, before, after, i) {
        FewThreadsNeverStarve(m, n, malformed, before, after, i);
      }
    }
  }

  lemma LoneWhenClosed(b: Mailbox, m: nat, n: nat)
    requires Closed(b, m, n)
    ensures Lone(b.locals, 0)
  {
    forall j | 0 <= j < |b.locals| && j != 0 ensures !Draining(b.locals[j]) {
      assert Spot(b, j, m);
    }
  }

  // ---------------------------------------------------------------- a mailbox switched on again

  /** Sending and receiving round the slots that are not occupied. */
  lemma {:induction false} MailCycles(b: Mailbox, i: nat, full: set<nat>, k: nat) returns (schedule: seq<Event>)
    requires Rested(b, i) && b.active && b.sys.queue.head == b.sys.queue.tail && Holds(b.sys.queue, full) && Young(b.sys.queue)
    requires forall t :: b.sys.queue.head <= t < b.sys.queue.head + k ==> Lane(t, |b.sys.queue.cells|) !in full
    ensures var b' := Mailboxes.Exec(b, schedule);
            && Shaped(b') && b'.sys.threads == b.sys.threads && b'.locals == b.locals && b'.active
            && b'.sys.queue.head == b'.sys.queue.tail == b.sys.queue.head + k && Holds(b'.sys.queue, full) && Young(b'.sys.queue)
            && |b'.sys.queue.cells| == |b.sys.queue.cells|
    decreases k
  {
    if k == 0 {
      schedule := [];
    } else {
      var one := MailCycle(b, i, full);
      var rest := MailCycles(Mailboxes.Exec(b, one), i, full, k - 1);
      schedule := one + rest;
      RunsConcat(b, one, rest);
    }
  }

  lemma MailCycle(b: Mailbox, i: nat, full: set<nat>) returns (schedule: seq<Event>)
    requires Rested(b, i) && b.active && b.sys.queue.head == b.sys.queue.tail && Holds(b.sys.queue, full) && Young(b.sys.queue)
    requires Lane(b.sys.queue.head, |b.sys.queue.cells|) !in full
    ensures var b' := Mailboxes.Exec(b, schedule);
            && Shaped(b') && b'.sys.threads == b.sys.threads && b'.locals == b.locals && b'.active
            && b'.sys.queue.head == b'.sys.queue.tail == b.sys.queue.head + 1 && Holds(b'.sys.queue, full) && Young(b'.sys.queue)
            && |b'.sys.queue.cells| == |b.sys.queue.cells|
  {
    CycleHolds(b.sys.queue, i, |b.place|, full);
    var send := SendAlone(b, i);
    var receive := ReceiveAlone(Mailboxes.Exec(b, send), i);
    schedule := send + receive;
    RunsConcat(b, send, receive);
  }

  /** Thread 0 is draining and has claimed the only message; everybody else is outside. */
  ghost predicate Interrupted(b: Mailbox, m: nat, n: nat, active: bool, t: nat, full: set<nat>) {
    && Shaped(b) && |b.sys.queue.cells| == m && |b.locals| == n && n >= 2 && b.active == active
    && b.sys.queue.tail == t && Holds(b.sys.queue, full) && Young(b.sys.queue)
    && IsAt(b, 0, DrainPop, Taking(0)) && (forall l :: 1 <= l < n ==> IsAt(b, l, Outside, Idle))
  }

  lemma InterruptDrain(m: nat, n: nat, malformed: set<nat>) returns (schedule: seq<Event>)
    requires m > 0 && n >= 2
    ensures var b := Mailboxes.Exec(NewMailbox(m, n, malformed), schedule);
            Interrupted(b, m, n, false, 1, {0}) && b.sys.queue.head == 1
  {
    var b0 := NewMailbox(m, n, malformed);
    var one := OneMessage(m, n, malformed, 1);
    var b1 := Mailboxes.Exec(b0, one);
    assert Spot(b1, 0, 0);
    var close := DeactivateStart(b1, 0);
    var b2 := Mailboxes.Exec(b1, close);
    var claim := DrainClaims(b2, 0);
    schedule := one + (close + claim);
    RunsConcat(b1, close, claim);
    RunsConcat(b0, one, close + claim);
    var b3 := Mailboxes.Exec(b0, schedule);
    forall l | 1 <= l < n ensures IsAt(b3, l, Outside, Idle) {
      assert Spot(b1, l, 0);
    }
  }

  /** Thread 1 switches the mailbox on, goes once round the slots and takes the drain's message. */
  lemma RoundTrip(b: Mailbox, m: nat, n: nat) returns (schedule: seq<Event>)
    requires m > 0 && Interrupted(b, m, n, false, 1, {0}) && b.sys.queue.head == 1
    ensures var b' := Mailboxes.Exec(b, schedule);
            Interrupted(b', m, n, true, m + 1, {}) && b'.sys.queue.head == m
  {
    assert IsAt(b, 1, Outside, Idle);
    var activate := ActivateAlone(b, 1);
    var b1 := Mailboxes.Exec(b, activate);
    var cycles := MailCycles(b1, 1, {0}, m - 1);
    var b2 := Mailboxes.Exec(b1, cycles);
    LaneWraps(0, m);
    PoppedHolds(b2.sys.queue, 1, {0});
    var receive := ReceiveAlone(b2, 1);
    schedule := activate + (cycles + receive);
    RunsConcat(b1, cycles, receive);
    RunsConcat(b, activate, cycles + receive);
    assert {0} - {0} == {};
    var b3 := Mailboxes.Exec(b, schedule);
    forall l | 1 <= l < n ensures IsAt(b3, l, Outside, Idle) {
      assert IsAt(b, l, Outside, Idle);
    }
  }

  lemma SwitchOff(b: Mailbox, m: nat, n: nat) returns (schedule: seq<Event>)
    requires Interrupted(b, m, n, true, m + 1, {}) && b.sys.queue.head == m
    ensures Interrupted(Mailboxes.Exec(b, schedule), m, n, false, m + 1, {})
  {
    assert IsAt(b, 1, Outside, Idle);
    var close := DeactivateStart(b, 1);
    var c := Mailboxes.Exec(b, close);
    var leave := DrainLeaves(c, 1);
    schedule := close + leave;
    RunsConcat(b, close, leave);
    var d := Mailboxes.Exec(b, schedule);
    forall l | 1 <= l < n ensures IsAt(d, l, Outside, Idle) {
      assert IsAt(b, l, Outside, Idle);
    }
  }

  /** If the mailbox is switched on again while a drain is under way, two threads are enough for
      a mailbox of any size: the drain waits in an inactive mailbox with nobody else inside. */
  lemma ReactivationStarvesDrain(m: nat, n: nat, malformed: set<nat>) returns (schedule: seq<Event>)
    requires m > 0 && n >= 2
    ensures var b := Mailboxes.Exec(NewMailbox(m, n, malformed), schedule);
            && |b.locals| == n && Deserted(b, 0) && !b.active
            && (forall l :: 1 <= l < n ==> b.locals[l] == Outside && b.sys.threads[l] == Idle)
  {
    var b0 := NewMailbox(m, n, malformed);
    var interrupt := InterruptDrain(m, n, malformed);
    var b1 := Mailboxes.Exec(b0, interrupt);
    var trip := RoundTrip(b1, m, n);
    var b2 := Mailboxes.Exec(b1, trip);
    var off := SwitchOff(b2, m, n);
    schedule := interrupt + (trip + off);
    RunsConcat(b1, trip, off);
    RunsConcat(b0, interrupt, trip + off);
    NobodyInside(Mailboxes.Exec(b0, schedule), m, n);
  }

  lemma NobodyInside(b: Mailbox, m: nat, n: nat)
    requires Interrupted(b, m, n, false, m + 1, {})
    ensures Deserted(b, 0)
    ensures forall l :: 1 <= l < n ==> b.locals[l] == Outside && b.sys.threads[l] == Idle
  {
    forall l | 1 <= l < n ensures b.locals[l] == Outside && b.sys.threads[l] == Idle {
      assert IsAt(b, l, Outside, Idle);
    }
  }
}
