/** `ItcMailbox` used by any number of threads: an activity flag in front of the blocking
    queue, and a drain that empties the queue after the flag has been cleared. Messages are
    numbered in the order in which their push passed the activity check. */
module Mailboxes {
  import opened TicketQueue
  import opened TicketOrder
  import opened QueueThreads
  import opened QueueRuns
  import opened Places

  /** Where a thread is in the mailbox code; the queue call inside is a phase of `sys`. */
  datatype Local =
    | Outside
    | SendCheck
    | Sending
    | ReceiveCheck(nonBlocking: bool)
    | Receiving
    | SetCheck(newState: bool)
    | DrainEmpty
    | DrainPop

  /** `place[k]` tells where message k is; hands 0, 1 and 2 collect the messages that were
      received, freed by a drain, and refused by `deallocate`. `calls[i]` counts the queue calls
      that the drains of thread i have started, `seen[i]` is the backlog at its last look at the queue. */
  datatype Mailbox = Mailbox(sys: System<nat>, active: bool, locals: seq<Local>, hands: seq<set<nat>>,
                             place: seq<Place>, malformed: set<nat>, calls: seq<nat>, seen: seq<nat>)

  const RECEIVED := 0
  const FREED := 1
  const REFUSED := 2

  datatype Event =
    | Send(tid: nat)
    | Receive(tid: nat, nonBlocking: bool)
    | SetState(tid: nat, newState: bool)
    | Run(tid: nat, spurious: bool)

  function NewMailbox(m: nat, n: nat, malformed: set<nat>): Mailbox {
    Mailbox(NewSystem(m, n), false, seq(n, _ => Outside), [{}, {}, {}], [], malformed, seq(n, _ => 0), seq(n, _ => 0))
  }

  predicate Shaped(b: Mailbox) {
    && |b.sys.queue.cells| > 0
    && |b.locals| == |b.calls| == |b.seen| == |b.sys.threads|
    && |b.hands| == 3
  }

  /** Messages on their way in that hold no ticket yet. */
  function Unclaimed(threads: seq<Phase<nat>>): nat {
    if threads == [] then 0
    else Unclaimed(threads[..|threads| - 1]) + (if threads[|threads| - 1].PushAdd? then 1 else 0)
  }

  /** What a drain may still find. */
  function Backlog(s: System<nat>): nat {
    Unclaimed(s.threads) + Max(s.queue.head - s.queue.tail, 0)
  }

  /** One more step of the queue call thread i is in. */
  function Inside(b: Mailbox, i: nat, spurious: bool): (b': Mailbox)
    requires Shaped(b) && i < |b.locals|
    ensures Shaped(b') && |b'.locals| == |b.locals| && |b'.sys.queue.cells| == |b.sys.queue.cells|
  {
    b.(sys := QueueThreads.Next(b.sys, Step(i, spurious)),
       place := Moved(b.sys.queue, b.sys.threads, b.place, i, spurious),
       seen := if b.sys.threads[i].SizeTest? then b.seen[i := Backlog(b.sys)] else b.seen)
  }

  predicate Draining(l: Local) { l.DrainEmpty? || l.DrainPop? }

  /** What the code between two queue calls does to the mailbox. */
  datatype Effect = Quiet | Accept | Give(msg: nat, hand: nat) | Flag(newState: bool)

  /** Either the thread is still inside its queue call, or it goes on at `to` with the call
      `call`. */
  datatype Turn = Inner | Go(to: Local, call: Phase<nat>, effect: Effect)

  /** The text of `push`, `pop` and `setState`, with `nextId` the next message number. */
  function Decide(l: Local, p: Phase<nat>, active: bool, malformed: set<nat>, nextId: nat): Turn {
    match l
    case Outside => Go(Outside, Idle, Quiet)
    case SendCheck =>
      if active then Go(Sending, PushAdd(nextId), Accept) else Go(Outside, Idle, Quiet)
    case Sending => if p.Done? then Go(Outside, Idle, Quiet) else Inner
    case ReceiveCheck(nonBlocking) =>
      if !active then Go(Outside, Idle, Quiet)
      else Go(Receiving, if nonBlocking then TryPopLoad else PopAdd, Quiet)
    case Receiving =>
      if !p.Done? then Inner
      else Go(Outside, Idle, if p.reply.Got? then Give(p.reply.elem, RECEIVED) else Quiet)
    case SetCheck(newState) =>
      if active == newState then Go(Outside, Idle, Quiet)
      else if newState then Go(Outside, Idle, Flag(true))
      else Go(DrainEmpty, SizeLoad, Flag(false))
    case DrainEmpty =>
      if !p.Done? then Inner
      else if p.reply == Count(0) then Go(Outside, Idle, Quiet)
      else Go(DrainPop, TryPopLoad, Quiet)
    case DrainPop =>
      if !p.Done? then Inner
      else if !p.reply.Got? then Go(DrainEmpty, SizeLoad, Quiet)
      else Go(DrainEmpty, SizeLoad, Give(p.reply.elem, if p.reply.elem in malformed then REFUSED else FREED))
  }

  function Affect(b: Mailbox, i: nat, effect: Effect): (b': Mailbox)
    requires Shaped(b)
    ensures Shaped(b') && b'.sys == b.sys && b'.locals == b.locals
    ensures b'.calls == b.calls && b'.seen == b.seen
  {
    match effect
    case Quiet => b
    case Accept => b.(place := b.place + [AtThread(i)])
    case Flag(newState) => b.(active := newState)
    case Give(e, hand) =>
      if e < |b.place| && hand < 3 then
        b.(hands := b.hands[hand := b.hands[hand] + {e}], place := b.place[e := InHand(hand)])
      else b
  }

  function TurnOf(b: Mailbox, i: nat): Turn
    requires Shaped(b) && i < |b.locals|
  {
    Decide(b.locals[i], b.sys.threads[i], b.active, b.malformed, |b.place|)
  }

  function RunStep(b: Mailbox, i: nat, spurious: bool): (b': Mailbox)
    requires Shaped(b) && i < |b.locals|
    ensures Shaped(b') && |b'.locals| == |b.locals| && |b'.sys.queue.cells| == |b.sys.queue.cells|
  {
    match TurnOf(b, i)
    case Inner => Inside(b, i, spurious)
    case Go(to, call, effect) =>
      Affect(b, i, effect).(sys := b.sys.(threads := b.sys.threads[i := call]),
                            locals := b.locals[i := to],
                            calls := if Draining(to) then b.calls[i := b.calls[i] + 1] else b.calls)
  }

  function Next(b: Mailbox, a: Event): (b': Mailbox)
    requires Shaped(b)
    ensures Shaped(b') && |b'.locals| == |b.locals| && |b'.sys.queue.cells| == |b.sys.queue.cells|
  {
    if a.tid >= |b.locals| then b
    else
      match a
      case Send(i) => if b.locals[i].Outside? then b.(locals := b.locals[i := SendCheck]) else b
      case Receive(i, nonBlocking) =>
        if b.locals[i].Outside? then b.(locals := b.locals[i := ReceiveCheck(nonBlocking)]) else b
      case SetState(i, newState) =>
        if b.locals[i].Outside? then b.(locals := b.locals[i := SetCheck(newState)]) else b
      case Run(i, spurious) => RunStep(b, i, spurious)
  }

  function Exec(b: Mailbox, schedule: seq<Event>): (b': Mailbox)
    requires Shaped(b)
    ensures Shaped(b') && |b'.locals| == |b.locals|
    decreases |schedule|
  {
    if schedule == [] then b else Exec(Next(b, schedule[0]), schedule[1..])
  }

  // ---------------------------------------------------------------- invariant

  /** The queue call a thread may be in at each place of the mailbox code. */
  predicate Agrees(l: Local, p: Phase<nat>) {
    match l
    case Sending => p.PushAdd? || p.Storing? || p == Done(Accepted)
    case Receiving => Popping(p) || p.PopAdd?
    case DrainEmpty => p.SizeLoad? || p.SizeTest? || (p.Done? && p.reply.Count?)
    case DrainPop => Popping(p)
    case _ => p.Idle?
  }

  predicate Popping(p: Phase<nat>) {
    p.TryPopLoad? || p.TryPopTest? || p.TryPopCas? || p.Taking? || (p.Done? && (p.reply.Got? || p.reply.Nothing?))
  }

  ghost predicate Books(b: Mailbox) {
    Placed(b.sys.queue, b.sys.threads, b.hands, b.place)
  }

  ghost predicate LocalsOk(b: Mailbox)
    requires Shaped(b)
  {
    forall i :: 0 <= i < |b.locals| ==> Agrees(b.locals[i], b.sys.threads[i])
  }

  ghost predicate Inv(b: Mailbox) {
    Shaped(b) && SysInv(b.sys) && Books(b) && LocalsOk(b)
  }

  lemma NewMailboxInv(m: nat, n: nat, malformed: set<nat>)
    requires m > 0
    ensures Inv(NewMailbox(m, n, malformed))
  {
    NewSystemInv<nat>(m, n);
  }

  /** The code agrees with its queue calls: it leaves a call only when the call is over, and
      the next call starts from its beginning. */
  lemma TurnAgrees(q: Queue<nat>, l: Local, p: Phase<nat>, active: bool, malformed: set<nat>, nextId: nat, spurious: bool)
    requires |q.cells| > 0 && Agrees(l, p)
    ensures match Decide(l, p, active, malformed, nextId)
            case Inner => Agrees(l, PhaseStep(q, p, spurious))
            case Go(to, call, effect) =>
              && Agrees(to, call) && (p.Idle? || p.Done?) && Starts(call)
              && (effect.Accept? <==> call.PushAdd?) && (call.PushAdd? ==> p.Idle? && call.elem == nextId)
              && (effect.Give? <==> p.Done? && p.reply.Got?)
              && (effect.Give? ==> effect.msg == p.reply.elem && effect.hand < 3)
  {
  }

  predicate Starts(p: Phase<nat>) {
    p.Idle? || p.PushAdd? || p.TryPopLoad? || p.PopAdd? || p.SizeLoad?
  }

  lemma RunSystem(b: Mailbox, i: nat, spurious: bool)
    requires Shaped(b) && SysInv(b.sys) && i < |b.locals| && Agrees(b.locals[i], b.sys.threads[i])
    ensures SysInv(RunStep(b, i, spurious).sys)
  {
    TurnAgrees(b.sys.queue, b.locals[i], b.sys.threads[i], b.active, b.malformed, |b.place|, spurious);
    match TurnOf(b, i)
    case Inner => QueueThreads.NextInv(b.sys, Step(i, spurious));
    case Go(_, call, _) => CallInv(b.sys, i, call);
  }

  lemma RunLocals(b: Mailbox, i: nat, spurious: bool)
    requires Shaped(b) && LocalsOk(b) && i < |b.locals|
    ensures LocalsOk(RunStep(b, i, spurious))
  {
    TurnAgrees(b.sys.queue, b.locals[i], b.sys.threads[i], b.active, b.malformed, |b.place|, spurious);
  }

  lemma RunBook(b: Mailbox, i: nat, spurious: bool)
    requires Shaped(b) && Books(b) && i < |b.locals| && Agrees(b.locals[i], b.sys.threads[i])
    ensures Books(RunStep(b, i, spurious))
  {
    var q, threads, p := b.sys.queue, b.sys.threads, b.sys.threads[i];
    TurnAgrees(q, b.locals[i], p, b.active, b.malformed, |b.place|, spurious);
    match TurnOf(b, i)
    case Inner => RunBooks(q, threads, b.hands, b.place, i, spurious);
    case Go(_, call, effect) =>
      match effect {
        case Accept => GrowBooks(q, threads, b.hands, b.place, i);
        case Give(e, hand) =>
          assert Carries(p, e);
          HandBooks(q, threads, b.hands, b.place, threads[i := call], b.hands[hand := b.hands[hand] + {e}], e, InHand(hand));
        case _ => KeepBooks(q, threads, b.hands, b.place, q, i, call);
      }
  }

  lemma NextInv(b: Mailbox, a: Event)
    requires Inv(b)
    ensures Inv(Next(b, a))
  {
    if a.Run? && a.tid < |b.locals| {
      RunInv(b, a.tid, a.spurious);
    } else {
      EnterInv(b, a);
    }
  }

  lemma RunInv(b: Mailbox, i: nat, spurious: bool)
    requires Inv(b) && i < |b.locals|
    ensures Inv(RunStep(b, i, spurious))
  {
    RunSystem(b, i, spurious);
    RunLocals(b, i, spurious);
    RunBook(b, i, spurious);
    InvIs(RunStep(b, i, spurious));
  }

  lemma InvIs(b: Mailbox)
    requires Shaped(b) && SysInv(b.sys) && Books(b) && LocalsOk(b)
    ensures Inv(b)
  {
  }

  lemma EnterInv(b: Mailbox, a: Event)
    requires Inv(b) && (!a.Run? || a.tid >= |b.locals|)
    ensures Inv(Next(b, a))
  {
    var b' := Next(b, a);
    assert b'.sys == b.sys;
    EnterLocals(b, a);
    assert Books(b');
  }

  lemma EnterLocals(b: Mailbox, a: Event)
    requires Shaped(b) && LocalsOk(b) && (!a.Run? || a.tid >= |b.locals|)
    ensures LocalsOk(Next(b, a))
  {
  }

  lemma {:induction false} ExecInv(b: Mailbox, schedule: seq<Event>)
    requires Inv(b)
    ensures Inv(Exec(b, schedule))
    decreases |schedule|
  {
    if schedule != [] {
      NextInv(b, schedule[0]);
      ExecInv(Next(b, schedule[0]), schedule[1..]);
    }
  }

  // ---------------------------------------------------------------- every message, once

  /** Message e has been received, freed or refused. */
  predicate Handed(b: Mailbox, e: nat) {
    e < |b.place| && b.place[e].InHand?
  }

  predicate In(b: Mailbox, e: nat, hand: nat) {
    e < |b.place| && b.place[e] == InHand(hand)
  }

  /** Where a message belongs that the queue hands to thread i: to the receiver if it is in
      `pop`, otherwise to `deallocate`, which refuses malformed ones. */
  function Due(b: Mailbox, i: nat, e: nat): nat
    requires i < |b.locals|
  {
    if b.locals[i].Receiving? then RECEIVED else if e in b.malformed then REFUSED else FREED
  }

  /** 1 if this is the step at which a thread whose queue call has answered with message e goes
      on, and `hand` is where e belongs. */
  function Given(b: Mailbox, a: Event, e: nat, hand: nat): nat
    requires Shaped(b)
  {
    if a.Run? && a.tid < |b.locals| && b.sys.threads[a.tid] == Done(Got(e)) && Due(b, a.tid, e) == hand then 1 else 0
  }

  /** How often that happens to message e along a run. */
  function Gives(b: Mailbox, schedule: seq<Event>, e: nat, hand: nat): nat
    requires Shaped(b)
    decreases |schedule|
  {
    if schedule == [] then 0 else Given(b, schedule[0], e, hand) + Gives(Next(b, schedule[0]), schedule[1..], e, hand)
  }

  /** The queue call of a thread moves nothing out of a hand or into one. */
  lemma MovedKeepsHands(q: Queue<nat>, threads: seq<Phase<nat>>, hands: seq<set<nat>>, place: seq<Place>, i: nat, spurious: bool, e: nat)
    requires Placed(q, threads, hands, place) && |q.cells| > 0 && i < |threads| && e < |place|
    ensures var place' := Moved(q, threads, place, i, spurious);
            place'[e].InHand? == place[e].InHand? && (place[e].InHand? ==> place'[e] == place[e])
  {
    OnePlace(q, threads, hands, place, e);
    assert Carries(threads[i], e) <==> place[e] == AtThread(i);
  }

  lemma GoHands(b: Mailbox, i: nat, spurious: bool, e: nat, hand: nat)
    requires Shaped(b) && Books(b) && i < |b.locals| && Agrees(b.locals[i], b.sys.threads[i]) && TurnOf(b, i).Go?
    ensures var b' := RunStep(b, i, spurious);
            && |b.place| <= |b'.place|
            && (Handed(b, e) ==> e < |b'.place| && b'.place[e] == b.place[e] && Given(b, Run(i, spurious), e, hand) == 0)
            && (!Handed(b, e) ==> (In(b', e, hand) <==> Given(b, Run(i, spurious), e, hand) == 1))
  {
    var p := b.sys.threads[i];
    TurnAgrees(b.sys.queue, b.locals[i], p, b.active, b.malformed, |b.place|, spurious);
    if p == Done(Got(e)) {
      assert Carries(p, e);
    }
  }

  /** A message that was handed over stays where it went and is not handed over again; any
      other comes into a hand exactly by the step of the thread whose call answered with it. */
  lemma StepHands(b: Mailbox, a: Event, e: nat, hand: nat)
    requires Shaped(b) && Books(b)
    requires a.tid < |b.locals| ==> Agrees(b.locals[a.tid], b.sys.threads[a.tid])
    ensures var b' := Next(b, a);
            && |b.place| <= |b'.place|
            && (Handed(b, e) ==> e < |b'.place| && b'.place[e] == b.place[e] && Given(b, a, e, hand) == 0)
            && (!Handed(b, e) ==> (In(b', e, hand) <==> Given(b, a, e, hand) == 1))
  {
    if a.Run? && a.tid < |b.locals| {
      if TurnOf(b, a.tid).Go? {
        GoHands(b, a.tid, a.spurious, e, hand);
      } else {
        TurnAgrees(b.sys.queue, b.locals[a.tid], b.sys.threads[a.tid], b.active, b.malformed, |b.place|, a.spurious);
        if e < |b.place| {
          MovedKeepsHands(b.sys.queue, b.sys.threads, b.hands, b.place, a.tid, a.spurious, e);
        }
      }
    }
  }

  lemma {:induction false} RunHands(b: Mailbox, schedule: seq<Event>, e: nat, hand: nat)
    requires Inv(b)
    ensures var b' := Exec(b, schedule);
            && |b.place| <= |b'.place|
            && (Handed(b, e) ==> e < |b'.place| && b'.place[e] == b.place[e] && Gives(b, schedule, e, hand) == 0)
            && (!Handed(b, e) ==> Gives(b, schedule, e, hand) == if In(b', e, hand) then 1 else 0)
    decreases |schedule|
  {
    if schedule != [] {
      StepHands(b, schedule[0], e, hand);
      NextInv(b, schedule[0]);
      RunHands(Next(b, schedule[0]), schedule[1..], e, hand);
    }
  }

  /** Messages are accepted exactly by senders that find the mailbox active, and the flag is what
      the last `setState` that got through asked for. */
  lemma StepAccepts(b: Mailbox, a: Event)
    requires Shaped(b) && (a.tid < |b.locals| ==> Agrees(b.locals[a.tid], b.sys.threads[a.tid]))
    ensures var b' := Next(b, a);
            var runs := a.Run? && a.tid < |b.locals|;
            && |b'.place| == |b.place| + (if runs && b.locals[a.tid].SendCheck? && b.active then 1 else 0)
            && b'.active == (if runs && b.locals[a.tid].SetCheck? then b.locals[a.tid].newState else b.active)
            && b'.malformed == b.malformed
  {
  }

  /** Every message that passed the activity check is in exactly one place: with a thread, in
      one slot, received, freed, or refused by `deallocate`. It was received exactly if one
      `pop` answered with it, and freed or refused exactly if one drain did. */
  lemma MessagesAccountedFor(m: nat, n: nat, malformed: set<nat>, schedule: seq<Event>, e: nat)
    requires m > 0
    ensures var b := Exec(NewMailbox(m, n, malformed), schedule);
            && (forall hand :: 0 <= hand < 3 ==>
                  Gives(NewMailbox(m, n, malformed), schedule, e, hand) == if e in b.hands[hand] then 1 else 0)
            && (e < |b.place| ==>
                  && Somewhere(b.sys.queue, b.sys.threads, b.hands, e)
                  && (forall r :: 0 <= r < |b.sys.queue.cells| ==> (b.sys.queue.cells[r].slot == Full(e) <==> b.place[e] == InSlot(r)))
                  && (forall i :: 0 <= i < |b.sys.threads| ==> (Carries(b.sys.threads[i], e) <==> b.place[e] == AtThread(i)))
                  && (forall i :: 0 <= i < |b.hands| ==> (e in b.hands[i] <==> b.place[e] == InHand(i))))
  {
    var b0 := NewMailbox(m, n, malformed);
    var b := Exec(b0, schedule);
    NewMailboxInv(m, n, malformed);
    ExecInv(b0, schedule);
    HandsAreIn(b, e);
    forall hand | 0 <= hand < 3 ensures Gives(b0, schedule, e, hand) == if e in b.hands[hand] then 1 else 0 {
      RunHands(b0, schedule, e, hand);
    }
    if e < |b.place| {
      OnePlace(b.sys.queue, b.sys.threads, b.hands, b.place, e);
    }
  }

  lemma HandsAreIn(b: Mailbox, e: nat)
    requires Shaped(b) && Books(b)
    ensures forall hand :: 0 <= hand < 3 ==> (e in b.hands[hand] <==> In(b, e, hand))
  {
    if e < |b.place| {
      OnePlace(b.sys.queue, b.sys.threads, b.hands, b.place, e);
    }
  }

  /** What has been received, freed or refused stays so for the rest of the run. */
  lemma HandedIsFinal(m: nat, n: nat, malformed: set<nat>, schedule: seq<Event>, rest: seq<Event>, e: nat, hand: nat)
    requires m > 0 && hand < 3
    ensures var b := Exec(NewMailbox(m, n, malformed), schedule);
            e in b.hands[hand] ==> e in Exec(b, rest).hands[hand] && forall other :: Gives(b, rest, e, other) == 0
  {
    var b := Exec(NewMailbox(m, n, malformed), schedule);
    NewMailboxInv(m, n, malformed);
    ExecInv(NewMailbox(m, n, malformed), schedule);
    HandsAreIn(b, e);
    if e in b.hands[hand] {
      RunHands(b, rest, e, hand);
      ExecInv(b, rest);
      HandsAreIn(Exec(b, rest), e);
      forall other ensures Gives(b, rest, e, other) == 0 {
        RunHands(b, rest, e, other);
      }
    }
  }

  // ---------------------------------------------------------------- the drain

  lemma {:induction false} UnclaimedUpdate(threads: seq<Phase<nat>>, i: nat, p: Phase<nat>)
    requires i < |threads|
    ensures Unclaimed(threads[i := p]) + (if threads[i].PushAdd? then 1 else 0)
            == Unclaimed(threads) + (if p.PushAdd? then 1 else 0)
  {
    var n := |threads| - 1;
    if i == n {
      assert threads[i := p][..n] == threads[..n];
    } else {
      assert threads[i := p][..n] == threads[..n][i := p];
      UnclaimedUpdate(threads[..n], i, p);
    }
  }

  /** A queue call shortens the backlog or leaves it: a push claim moves one message from one
      part of it to the other, a successful tryPop claim takes one message off. */
  lemma CallBacklog(s: System<nat>, i: nat, spurious: bool)
    requires |s.queue.cells| > 0 && i < |s.threads| && !s.threads[i].TryPushCas? && PhaseOk(s.queue, i, s.threads[i])
    ensures var s' := QueueThreads.Next(s, Step(i, spurious));
            && Unclaimed(s'.threads) <= Unclaimed(s.threads) && Backlog(s') <= Backlog(s)
            && (s.threads[i].TryPopCas? && s'.threads[i].Taking? ==> Backlog(s') == Backlog(s) - 1)
  {
    UnclaimedUpdate(s.threads, i, PhaseStep(s.queue, s.threads[i], spurious));
  }

  ghost predicate Ready(b: Mailbox, i: nat)
    requires Shaped(b) && i < |b.locals|
  {
    PhaseOk(b.sys.queue, i, b.sys.threads[i]) && Agrees(b.locals[i], b.sys.threads[i])
  }

  lemma InvReady(b: Mailbox, i: nat)
    requires Inv(b) && i < |b.locals|
    ensures Ready(b, i)
  {
  }

  /** While the mailbox is inactive no message is accepted and the backlog never grows. */
  lemma InactiveStep(b: Mailbox, a: Event)
    requires Shaped(b) && !b.active
    requires a.tid < |b.locals| ==> Ready(b, a.tid)
    ensures var b' := Next(b, a);
            && |b'.place| == |b.place|
            && Unclaimed(b'.sys.threads) <= Unclaimed(b.sys.threads) && Backlog(b'.sys) <= Backlog(b.sys)
  {
    if a.Run? && a.tid < |b.locals| {
      var i := a.tid;
      match TurnOf(b, i)
      case Inner => CallBacklog(b.sys, i, a.spurious);
      case Go(_, call, _) => UnclaimedUpdate(b.sys.threads, i, call);
    }
  }

  /** Thread i has seen messages and not yet finished the iteration that this started. */
  predicate Observing(l: Local, p: Phase<nat>) {
    l.DrainPop? || (l.DrainEmpty? && p.Done? && p.reply != Count(0))
  }

  /** During such an iteration the backlog stays within what was seen, and once the iteration's
      tryPop has been decided, either way, it is strictly smaller. */
  ghost predicate DrainOk(l: Local, p: Phase<nat>, unclaimed: nat, backlog: nat, seen: nat) {
    Observing(l, p) ==>
      if l.DrainPop? && (p.Taking? || p.Done?) then backlog < seen
      else backlog <= seen && unclaimed < seen
  }

  ghost predicate DrainInv(b: Mailbox, i: nat)
    requires Shaped(b) && i < |b.locals|
  {
    DrainOk(b.locals[i], b.sys.threads[i], Unclaimed(b.sys.threads), Backlog(b.sys), b.seen[i])
  }

  /** What bounds the queue calls, looks and tryPops, that the drain of thread i can still start:
      one of each for every message within reach. */
  function Left(b: Mailbox, i: nat): nat
    requires Shaped(b) && i < |b.locals|
  {
    match b.locals[i]
    case DrainEmpty =>
      if !b.sys.threads[i].Done? then 2 * Backlog(b.sys)
      else if b.sys.threads[i].reply == Count(0) then 0 else 2 * b.seen[i]
    case DrainPop => if b.seen[i] == 0 then 0 else 2 * b.seen[i] - 1
    case _ => 0
  }

  lemma OwnCallDrain(b: Mailbox, i: nat, spurious: bool)
    requires Shaped(b) && i < |b.locals| && PhaseOk(b.sys.queue, i, b.sys.threads[i])
    requires Agrees(b.locals[i], b.sys.threads[i]) && DrainInv(b, i) && TurnOf(b, i).Inner?
    ensures var b' := Inside(b, i, spurious);
            DrainInv(b', i) && b'.calls == b.calls && Left(b', i) <= Left(b, i)
  {
    CallBacklog(b.sys, i, spurious);
  }

  lemma OwnTurnDrain(b: Mailbox, i: nat, spurious: bool)
    requires Shaped(b) && i < |b.locals| && !b.active
    requires Agrees(b.locals[i], b.sys.threads[i]) && DrainInv(b, i) && TurnOf(b, i).Go?
    ensures var b' := RunStep(b, i, spurious);
            DrainInv(b', i) && b'.calls[i] + Left(b', i) <= b.calls[i] + Left(b, i)
  {
    UnclaimedUpdate(b.sys.threads, i, TurnOf(b, i).call);
  }

  lemma DrainStep(b: Mailbox, a: Event, i: nat)
    requires Shaped(b) && !b.active && i < |b.locals| && DrainInv(b, i) && Ready(b, i)
    requires a.tid < |b.locals| ==> Ready(b, a.tid)
    ensures var b' := Next(b, a);
            DrainInv(b', i) && b'.calls[i] + Left(b', i) <= b.calls[i] + Left(b, i)
  {
    if a.Run? && a.tid == i {
      if TurnOf(b, i).Inner? {
        OwnCallDrain(b, i, a.spurious);
      } else {
        OwnTurnDrain(b, i, a.spurious);
      }
    } else {
      InactiveStep(b, a);
      OthersLeaveThread(b, a, i);
    }
  }

  lemma OthersLeaveThread(b: Mailbox, a: Event, i: nat)
    requires Shaped(b) && i < |b.locals| && (a.tid != i || !a.Run?)
    ensures var b' := Next(b, a);
            && b'.sys.threads[i] == b.sys.threads[i] && b'.seen[i] == b.seen[i] && b'.calls[i] == b.calls[i]
            && (b'.locals[i] == b.locals[i] || (!Draining(b'.locals[i]) && b.locals[i].Outside?))
  {
  }

  ghost predicate AlwaysInactive(b: Mailbox, schedule: seq<Event>)
    requires Shaped(b)
    decreases |schedule|
  {
    !b.active && (schedule != [] ==> AlwaysInactive(Next(b, schedule[0]), schedule[1..]))
  }

  /** As long as the flag stays cleared, a draining thread starts at most as many tryPops,
      successful or not, and looks at the queue at most as many times more, as there were
      messages within reach when it last looked; nothing is accepted meanwhile, so whatever is
      left had passed the check before. */
  lemma {:induction false} DrainTerminates(b: Mailbox, schedule: seq<Event>, i: nat)
    requires Inv(b) && i < |b.locals| && DrainInv(b, i) && AlwaysInactive(b, schedule)
    ensures var b' := Exec(b, schedule);
            && b'.calls[i] - b.calls[i] <= Left(b, i)
            && |b'.place| == |b.place| && Backlog(b'.sys) <= Backlog(b.sys)
            && b'.calls[i] + Left(b', i) <= b.calls[i] + Left(b, i)
    decreases |schedule|
  {
    if schedule != [] {
      var a := schedule[0];
      NextInv(b, a);
      InvReady(b, i);
      if a.tid < |b.locals| {
        InvReady(b, a.tid);
      }
      InactiveStep(b, schedule[0]);
      DrainStep(b, schedule[0], i);
      DrainTerminates(Next(b, schedule[0]), schedule[1..], i);
    }
  }

  /** A queue without claimed operations counts its elements by its counters. */
  lemma QuietQueueEmpty(s: System<nat>)
    requires SysInv(s) && s.queue.puts.Keys == {} && s.queue.takes.Keys == {}
    ensures s.queue.head - s.queue.tail <= 0 <==> forall r :: 0 <= r < |s.queue.cells| ==> s.queue.cells[r].slot.Nil?
  {
    GapAccount(s);
    OccupiedZero(s.queue.cells);
  }

  /** With no other call in flight the drain stops looking exactly when the queue is empty. */
  lemma QuietDrainEnds(b: Mailbox, i: nat, spurious: bool)
    requires Inv(b) && i < |b.locals| && b.sys.threads[i] == SizeTest(b.sys.queue.head)
    requires b.sys.queue.puts.Keys == {} && b.sys.queue.takes.Keys == {}
    ensures Next(b, Run(i, spurious)).sys.threads[i] == Done(Count(0))
            <==> forall r :: 0 <= r < |b.sys.queue.cells| ==> b.sys.queue.cells[r].slot.Nil?
  {
    QuietQueueEmpty(b.sys);
    InvReady(b, i);
    LastLook(b, i, spurious);
  }

  lemma LastLook(b: Mailbox, i: nat, spurious: bool)
    requires Shaped(b) && i < |b.locals| && Ready(b, i) && b.sys.threads[i] == SizeTest(b.sys.queue.head)
    ensures Next(b, Run(i, spurious)).sys.threads[i] == Done(Count(0)) <==> b.sys.queue.head - b.sys.queue.tail <= 0
  {
  }

  lemma {:induction false} OccupiedZero(cells: seq<Cell<nat>>)
    ensures Occupied(cells) == 0 <==> forall r :: 0 <= r < |cells| ==> cells[r].slot.Nil?
  {
    if cells != [] {
      OccupiedZero(cells[..|cells| - 1]);
      assert forall r :: 0 <= r < |cells| - 1 ==> cells[r] == cells[..|cells| - 1][r];
    }
  }
}
