/** Whether a drain gets done: when the tryPop inside it can always move on, and what is left in
    the mailbox when it leaves. */
module MailboxDrains {
  import opened TicketQueue
  import opened TicketOrder
  import opened QueueThreads
  import opened QueueRuns
  import opened QueueMachine
  import opened Places
  import opened Mailboxes

  // ---------------------------------------------------------------- receivers that only try

  predicate TriesOnly(a: Event) { a.Receive? ==> a.nonBlocking }

  predicate NoBlockingReceive(schedule: seq<Event>) {
    forall k :: 0 <= k < |schedule| ==> TriesOnly(schedule[k])
  }

  predicate TryReceivers(b: Mailbox) {
    PopsBounded(b.sys) && forall i :: 0 <= i < |b.locals| ==> b.locals[i] != ReceiveCheck(false)
  }

  lemma NextTryReceivers(b: Mailbox, a: Event)
    requires Shaped(b) && PhasesOk(b.sys.queue, b.sys.threads) && LocalsOk(b) && TryReceivers(b) && TriesOnly(a)
    ensures TryReceivers(Mailboxes.Next(b, a))
  {
    if a.Run? && a.tid < |b.locals| {
      match TurnOf(b, a.tid)
      case Inner => NextPopsBounded(b.sys, Step(a.tid, a.spurious));
      case Go(_, call, _) => assert !call.PopAdd?;
    }
  }

  lemma {:induction false} ExecTryReceivers(b: Mailbox, schedule: seq<Event>)
    requires Mailboxes.Inv(b) && TryReceivers(b) && NoBlockingReceive(schedule)
    ensures TryReceivers(Mailboxes.Exec(b, schedule))
    decreases |schedule|
  {
    if schedule != [] {
      assert TriesOnly(schedule[0]);
      NextTryReceivers(b, schedule[0]);
      Mailboxes.NextInv(b, schedule[0]);
      ExecTryReceivers(Mailboxes.Next(b, schedule[0]), schedule[1..]);
    }
  }

  /** While all receivers are non-blocking, whatever the senders and drains do, a claimed pop,
      of a receiver or a drain, has its element or a sender that can deliver it. */
  lemma TryReceiversProceed(m: nat, n: nat, malformed: set<nat>, schedule: seq<Event>, b: Mailbox, i: nat)
    requires m > 0 && i < n && NoBlockingReceive(schedule) && b == Mailboxes.Exec(NewMailbox(m, n, malformed), schedule)
    ensures b.sys.threads[i].Taking? ==> CanMove(b.sys.queue, b.sys.threads[i]) || HasPartner(b.sys, i)
  {
    NewMailboxInv(m, n, malformed);
    Mailboxes.ExecInv(NewMailbox(m, n, malformed), schedule);
    ExecTryReceivers(NewMailbox(m, n, malformed), schedule);
    if b.sys.threads[i].Taking? {
      TakerProceeds(b.sys, i);
    }
  }

  // ---------------------------------------------------------------- one drain

  predicate Heads(l: Local, p: Phase<nat>) {
    l.Receiving? && !p.Taking? && !p.Done?
  }

  /** The receivers inside the queue that hold no ticket yet. */
  function Heading(locals: seq<Local>, threads: seq<Phase<nat>>): set<nat>
    requires |locals| == |threads|
  {
    set j | 0 <= j < |locals| && Heads(locals[j], threads[j])
  }

  /** No thread but i is draining. */
  predicate Lone(locals: seq<Local>, i: nat) {
    forall j :: 0 <= j < |locals| && j != i ==> !Draining(locals[j])
  }

  /** The drain waits for its ticket t. */
  predicate Awaiting(l: Local, p: Phase<nat>) { l.DrainPop? && p.Taking? }

  /** At most k receivers were inside without a ticket when the drain took its own; each of
      them can have taken one ticket since. */
  ghost predicate Near(b: Mailbox, i: nat, k: nat)
    requires Shaped(b) && i < |b.locals|
  {
    && |Heading(b.locals, b.sys.threads)| <= k
    && (Awaiting(b.locals[i], b.sys.threads[i]) ==>
          && b.sys.threads[i].ticket < b.sys.queue.head
          && b.sys.queue.tail + |Heading(b.locals, b.sys.threads)| <= b.sys.threads[i].ticket + 1 + k)
  }

  lemma HeadingShrinks(b: Mailbox, a: Event, i: nat)
    requires Shaped(b) && LocalsOk(b) && !b.active && i < |b.locals| && Lone(b.locals, i) && (a.tid != i || !a.Run?)
    ensures var b' := Mailboxes.Next(b, a);
            && Heading(b'.locals, b'.sys.threads) <= Heading(b.locals, b.sys.threads)
            && b.sys.queue.head <= b'.sys.queue.head
            && (b'.sys.queue.tail == b.sys.queue.tail
                || (b'.sys.queue.tail == b.sys.queue.tail + 1
                    && a.tid in Heading(b.locals, b.sys.threads) && a.tid !in Heading(b'.locals, b'.sys.threads)))
  {
  }

  /** The pops claimed by a step come out of the receivers on their way. */
  lemma HeadingStep(b: Mailbox, a: Event, i: nat)
    requires Shaped(b) && LocalsOk(b) && !b.active && i < |b.locals| && Lone(b.locals, i) && (a.tid != i || !a.Run?)
    ensures var b' := Mailboxes.Next(b, a);
            && b'.sys.queue.tail + |Heading(b'.locals, b'.sys.threads)| <= b.sys.queue.tail + |Heading(b.locals, b.sys.threads)|
            && |Heading(b'.locals, b'.sys.threads)| <= |Heading(b.locals, b.sys.threads)|
            && b.sys.queue.head <= b'.sys.queue.head
  {
    var b' := Mailboxes.Next(b, a);
    HeadingShrinks(b, a, i);
    FewerLeft(Heading(b'.locals, b'.sys.threads), Heading(b.locals, b.sys.threads), a.tid);
  }

  lemma FewerLeft(left: set<nat>, all: set<nat>, j: nat)
    requires left <= all
    ensures |left| <= |all| && (j in all && j !in left ==> |left| < |all|)
  {
    SubsetCard(left, all);
    if j in all && j !in left {
      SubsetCard(left, all - {j});
    }
  }

  lemma OwnHeading(b: Mailbox, i: nat, spurious: bool)
    requires Shaped(b) && LocalsOk(b) && i < |b.locals| && Draining(b.locals[i])
    ensures var b' := RunStep(b, i, spurious);
            Heading(b'.locals, b'.sys.threads) == Heading(b.locals, b.sys.threads)
  {
  }

  lemma OwnNear(b: Mailbox, i: nat, spurious: bool, k: nat)
    requires Shaped(b) && LocalsOk(b) && i < |b.locals| && Draining(b.locals[i]) && Near(b, i, k)
    requires PhaseOk(b.sys.queue, i, b.sys.threads[i])
    ensures Near(RunStep(b, i, spurious), i, k)
  {
    OwnHeading(b, i, spurious);
  }

  lemma LoneStep(b: Mailbox, a: Event, i: nat)
    requires Shaped(b) && !b.active && i < |b.locals| && Lone(b.locals, i)
    ensures Lone(Mailboxes.Next(b, a).locals, i)
  {
  }

  /** Thread i leaves the drain or is still in it. */
  lemma NearStep(b: Mailbox, a: Event, i: nat, k: nat)
    requires Shaped(b) && LocalsOk(b) && !b.active && i < |b.locals| && Lone(b.locals, i) && Near(b, i, k)
    requires PhaseOk(b.sys.queue, i, b.sys.threads[i])
    ensures Near(Mailboxes.Next(b, a), i, k)
  {
    if a.Run? && a.tid == i && Draining(b.locals[i]) {
      OwnNear(b, i, a.spurious, k);
    } else if a.Run? && a.tid == i {
      NearOutside(b, i, a.spurious, k);
    } else {
      HeadingStep(b, a, i);
      OthersLeaveThread(b, a, i);
    }
  }

  /** A thread that is not draining does not start to while the mailbox is inactive. */
  lemma NearOutside(b: Mailbox, i: nat, spurious: bool, k: nat)
    requires Shaped(b) && LocalsOk(b) && !b.active && i < |b.locals| && !Draining(b.locals[i]) && Near(b, i, k)
    ensures Near(RunStep(b, i, spurious), i, k)
  {
    var b' := RunStep(b, i, spurious);
    var old', new' := Heading(b.locals, b.sys.threads), Heading(b'.locals, b'.sys.threads);
    assert new' <= old';
    SubsetCard(new', old');
    assert !Draining(b'.locals[i]);
  }

  lemma {:induction false} ExecNear(b: Mailbox, schedule: seq<Event>, i: nat, k: nat)
    requires Mailboxes.Inv(b) && i < |b.locals| && AlwaysInactive(b, schedule) && Lone(b.locals, i) && Near(b, i, k)
    ensures var b' := Mailboxes.Exec(b, schedule);
            && Mailboxes.Inv(b') && Near(b', i, k) && |b'.sys.queue.cells| == |b.sys.queue.cells|
    decreases |schedule|
  {
    if schedule != [] {
      var a := schedule[0];
      InvReady(b, i);
      Mailboxes.NextInv(b, a);
      LoneStep(b, a, i);
      NearStep(b, a, i, k);
      ExecNear(Mailboxes.Next(b, a), schedule[1..], i, k);
    }
  }

  /** While the flag stays cleared, a drain that is alone, with fewer than m_size receivers
      inside that held no ticket when it began, is never stuck: its element is there, or a
      sender that has claimed the slot can deliver it. */
  lemma LoneDrainProceeds(b: Mailbox, schedule: seq<Event>, i: nat)
    requires Mailboxes.Inv(b) && i < |b.locals| && AlwaysInactive(b, schedule) && Lone(b.locals, i)
    requires !Awaiting(b.locals[i], b.sys.threads[i])
    requires |Heading(b.locals, b.sys.threads)| < |b.sys.queue.cells|
    ensures var b' := Mailboxes.Exec(b, schedule);
            Awaiting(b'.locals[i], b'.sys.threads[i]) ==> CanMove(b'.sys.queue, b'.sys.threads[i]) || HasPartner(b'.sys, i)
  {
    var k := |Heading(b.locals, b.sys.threads)|;
    ExecNear(b, schedule, i, k);
    var b' := Mailboxes.Exec(b, schedule);
    if Awaiting(b'.locals[i], b'.sys.threads[i]) {
      NearProceeds(b'.sys, i);
    }
  }

  lemma NearProceeds(s: System<nat>, i: nat)
    requires SysInv(s) && i < |s.threads| && s.threads[i].Taking? && s.threads[i].ticket < s.queue.head
    requires s.queue.tail <= s.threads[i].ticket + |s.queue.cells|
    ensures CanMove(s.queue, s.threads[i]) || HasPartner(s, i)
  {
    if !CanMove(s.queue, s.threads[i]) {
      assert PhaseOk(s.queue, i, s.threads[i]);
      WaitingPopHasPush(s.queue, s.threads[i].ticket);
      PushPartner(s, i);
    }
  }

  /** There are fewer receivers than threads. */
  lemma FewHeading(b: Mailbox, i: nat)
    requires Shaped(b) && i < |b.locals| && Draining(b.locals[i])
    ensures |Heading(b.locals, b.sys.threads)| < |b.locals|
  {
    var all := Below(|b.locals|);
    assert Heading(b.locals, b.sys.threads) <= all - {i};
    SubsetCard(Heading(b.locals, b.sys.threads), all - {i});
  }

  // ---------------------------------------------------------------- what a drain leaves behind

  /** Messages that no pop has taken out yet: on their way in with or without a ticket, or in a
      slot. */
  ghost function Entering(threads: seq<Phase<nat>>, place: seq<Place>): set<nat> {
    set e | 0 <= e < |place| && place[e].AtThread? && place[e].tid < |threads| && threads[place[e].tid].PushAdd?
  }

  ghost function Waiting(b: Mailbox): set<nat> {
    Resting(b.place) + StoringSet(b.sys.threads, b.place) + Entering(b.sys.threads, b.place)
  }

  function Adders(threads: seq<Phase<nat>>): set<nat> {
    set i | 0 <= i < |threads| && threads[i].PushAdd?
  }

  lemma {:induction false} AddersCount(threads: seq<Phase<nat>>)
    ensures |Adders(threads)| == Unclaimed(threads)
  {
    if threads != [] {
      var n := |threads| - 1;
      AddersCount(threads[..n]);
      if threads[n].PushAdd? {
        assert Adders(threads) == Adders(threads[..n]) + {n};
      } else {
        assert Adders(threads) == Adders(threads[..n]);
      }
    }
  }

  lemma EnteringCount(s: System<nat>, hands: seq<set<nat>>, place: seq<Place>)
    requires Placed(s.queue, s.threads, hands, place)
    ensures |Entering(s.threads, place)| == Unclaimed(s.threads)
  {
    var threads := s.threads;
    var f := map e | e in Entering(threads, place) :: place[e].tid;
    forall e | e in f ensures threads[f[e]] == PushAdd(e) {
      assert Located(s.queue, threads, hands, e, place[e]);
    }
    forall i | i in Adders(threads) ensures exists e :: e in f && f[e] == i {
      assert Carries(threads[i], threads[i].elem);
      assert threads[i].elem in f;
    }
    InjectiveCard(f, Adders(threads));
    assert f.Keys == Entering(threads, place);
    AddersCount(threads);
  }

  lemma WaitingCount(b: Mailbox)
    requires Mailboxes.Inv(b)
    ensures |Waiting(b)| == Unclaimed(b.sys.threads) + b.sys.queue.head - b.sys.queue.tail + |b.sys.queue.takes.Keys|
  {
    var q, threads := b.sys.queue, b.sys.threads;
    RestingCount(q, threads, b.hands, b.place);
    StoringCount(b.sys, b.hands, b.place);
    EnteringCount(b.sys, b.hands, b.place);
    GapAccount(b.sys);
    DisjointCard(Resting(b.place), StoringSet(threads, b.place), Entering(threads, b.place));
  }

  lemma DisjointCard(a: set<nat>, b: set<nat>, c: set<nat>)
    requires a !! b && a !! c && b !! c
    ensures |a + b + c| == |a| + |b| + |c|
  {
  }

  /** A push claim moves a message from those without a ticket to those with one. */
  lemma CallIntake(s: System<nat>, i: nat, spurious: bool)
    requires |s.queue.cells| > 0 && i < |s.threads| && !s.threads[i].TryPushCas?
    ensures var s' := QueueThreads.Next(s, Step(i, spurious));
            Unclaimed(s'.threads) + s'.queue.head == Unclaimed(s.threads) + s.queue.head
  {
    UnclaimedUpdate(s.threads, i, PhaseStep(s.queue, s.threads[i], spurious));
  }

  /** While the mailbox is inactive, tickets are given to the messages on their way in and to
      no others. */
  lemma IntakeStep(b: Mailbox, a: Event)
    requires Shaped(b) && !b.active && LocalsOk(b)
    ensures var b' := Mailboxes.Next(b, a);
            && Unclaimed(b'.sys.threads) + b'.sys.queue.head == Unclaimed(b.sys.threads) + b.sys.queue.head
            && |b'.place| == |b.place|
  {
    if a.Run? && a.tid < |b.locals| {
      match TurnOf(b, a.tid)
      case Inner => CallIntake(b.sys, a.tid, a.spurious);
      case Go(_, call, _) => UnclaimedUpdate(b.sys.threads, a.tid, call);
    }
  }

  predicate Rests(schedule: seq<Event>, i: nat) {
    forall k :: 0 <= k < |schedule| ==> schedule[k].tid != i
  }

  lemma {:induction false} ExecIntake(b: Mailbox, schedule: seq<Event>, i: nat)
    requires Mailboxes.Inv(b) && i < |b.locals| && AlwaysInactive(b, schedule) && Rests(schedule, i)
    ensures var b' := Mailboxes.Exec(b, schedule);
            && Mailboxes.Inv(b') && |b'.place| == |b.place|
            && Unclaimed(b'.sys.threads) + b'.sys.queue.head == Unclaimed(b.sys.threads) + b.sys.queue.head
            && b'.sys.threads[i] == b.sys.threads[i] && b'.locals[i] == b.locals[i]
    decreases |schedule|
  {
    if schedule != [] {
      var a, rest := schedule[0], schedule[1..];
      assert a.tid != i;
      Mailboxes.NextInv(b, a);
      IntakeStep(b, a);
      OthersRest(b, a, i);
      forall k | 0 <= k < |rest| ensures rest[k].tid != i {
        assert rest[k] == schedule[k + 1];
      }
      ExecIntake(Mailboxes.Next(b, a), rest, i);
    }
  }

  lemma OthersRest(b: Mailbox, a: Event, i: nat)
    requires Shaped(b) && i < |b.locals| && a.tid != i
    ensures var b' := Mailboxes.Next(b, a); b'.sys.threads[i] == b.sys.threads[i] && b'.locals[i] == b.locals[i]
  {
  }

  /** From its last look at head until it leaves, whatever the others do: for each message that
      a drain leaves behind there is a pop under way, or the message was still without a ticket
      when the drain loaded head; and no message was accepted since the flag was cleared. */
  lemma DrainLeavesBehind(b: Mailbox, schedule: seq<Event>, i: nat, spurious: bool)
    requires Mailboxes.Inv(b) && i < |b.locals| && AlwaysInactive(b, schedule) && Rests(schedule, i)
    requires b.sys.threads[i] == SizeTest(b.sys.queue.head) && b.locals[i].DrainEmpty?
    ensures var b' := Mailboxes.Exec(b, schedule);
            && |b'.place| == |b.place|
            && (Mailboxes.Next(b', Run(i, spurious)).sys.threads[i] == Done(Count(0)) ==>
                  |Waiting(b')| <= |b'.sys.queue.takes.Keys| + Unclaimed(b.sys.threads))
  {
    var b' := Mailboxes.Exec(b, schedule);
    ExecIntake(b, schedule, i);
    WaitingCount(b');
    if Mailboxes.Next(b', Run(i, spurious)).sys.threads[i] == Done(Count(0)) {
      LooksEmpty(b', i, b.sys.queue.head, spurious);
    }
  }

  lemma LooksEmpty(b: Mailbox, i: nat, h: nat, spurious: bool)
    requires Shaped(b) && i < |b.locals| && b.locals[i].DrainEmpty? && b.sys.threads[i] == SizeTest(h)
    requires Mailboxes.Next(b, Run(i, spurious)).sys.threads[i] == Done(Count(0))
    ensures h <= b.sys.queue.tail
  {
  }
}
