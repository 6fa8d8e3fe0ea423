/** The single-producer single-consumer ring as its two callers see it: every call is answered
    about its own element, and none takes long unless the ring is full or empty. */
module SpscCalls {
  import opened Bits
  import opened TicketQueue
  import opened QueueMachine
  import opened Spsc

  /** `may` tells a tryPush, or tryPop, from a blocking call. */
  datatype Offer<E> = Offer(elem: E, may: bool)
  datatype Answer<E> = Answer(elem: E, accepted: bool)

  /** The calls of both sides and what they returned, in order; a failed tryPop returned NIL. */
  datatype Log<E> = Log(offers: seq<Offer<E>>, answers: seq<Answer<E>>, asks: seq<bool>, replies: seq<Slot<E>>)

  function Note<E>(s: Ring<E>, a: Move<E>, log: Log<E>): Log<E> {
    match a
    case StartPush(x) => if s.producer.PIdle? then log.(offers := log.offers + [Offer(x, false)]) else log
    case StartTryPush(x) => if s.producer.PIdle? then log.(offers := log.offers + [Offer(x, true)]) else log
    case LeavePush =>
      if s.producer.PDone? then log.(answers := log.answers + [Answer(s.producer.elem, s.producer.accepted)]) else log
    case StartPop => if s.consumer.CIdle? then log.(asks := log.asks + [false]) else log
    case StartTryPop => if s.consumer.CIdle? then log.(asks := log.asks + [true]) else log
    case LeavePop =>
      if s.consumer.CGot? then log.(replies := log.replies + [Full(s.consumer.elem)])
      else if s.consumer.CNothing? then log.(replies := log.replies + [Nil]) else log
    case _ => log
  }

  function Logged<E>(s: Ring<E>, schedule: seq<Move<E>>, log: Log<E>): Log<E>
    requires |s.slots| > 0
    decreases |schedule|
  {
    if schedule == [] then log else Logged(Spsc.Next(s, schedule[0]), schedule[1..], Note(s, schedule[0], log))
  }

  /** The elements of the accepted pushes, and of the successful pops. */
  function Accepted<E>(answers: seq<Answer<E>>): seq<E> {
    if answers == [] then []
    else
      var last := answers[|answers| - 1];
      Accepted(answers[..|answers| - 1]) + (if last.accepted then [last.elem] else [])
  }

  function Received<E>(replies: seq<Slot<E>>): seq<E> {
    if replies == [] then []
    else
      var last := replies[|replies| - 1];
      Received(replies[..|replies| - 1]) + (if last.Full? then [last.elem] else [])
  }

  lemma AcceptedAppend<E>(answers: seq<Answer<E>>, x: Answer<E>)
    ensures Accepted(answers + [x]) == Accepted(answers) + (if x.accepted then [x.elem] else [])
  {
    assert (answers + [x])[..|answers|] == answers;
  }

  lemma ReceivedAppend<E>(replies: seq<Slot<E>>, x: Slot<E>)
    ensures Received(replies + [x]) == Received(replies) + (if x.Full? then [x.elem] else [])
  {
    assert (replies + [x])[..|replies|] == replies;
  }

  /** The producer's call is the last one offered, and it works on its element; only a tryPush
      can be refused. */
  ghost predicate PushesOk<E>(p: Producer<E>, pushed: seq<E>, offers: seq<Offer<E>>, answers: seq<Answer<E>>) {
    && |offers| == |answers| + (if p.PIdle? then 0 else 1)
    && (forall k :: 0 <= k < |answers| ==> answers[k].elem == offers[k].elem && (answers[k].accepted || offers[k].may))
    && (!p.PIdle? ==> p.elem == offers[|answers|].elem)
    && (p.TryPushLoad? || p.TryPushTest? || p.TryPushAdvance? || (p.PDone? && !p.accepted) ==> offers[|answers|].may)
    && (p.PushLoad? || p.PushAdvance? ==> !offers[|answers|].may)
    && pushed == Accepted(answers) + (if p.PDone? && p.accepted then [p.elem] else [])
  }

  ghost predicate PopsOk<E>(c: Consumer<E>, popped: seq<E>, asks: seq<bool>, replies: seq<Slot<E>>) {
    && |asks| == |replies| + (if c.CIdle? then 0 else 1)
    && (forall k :: 0 <= k < |replies| ==> replies[k].Full? || asks[k])
    && (c.TryPopLoad? || c.TryPopTest? || c.TryPopAdvance? || c.CNothing? ==> asks[|replies|])
    && (c.PopLoad? || c.PopAdvance? ==> !asks[|replies|])
    && popped == Received(replies) + (if c.CGot? then [c.elem] else [])
  }

  lemma PushReturns<E>(s: Ring<E>, log: Log<E>)
    requires |s.slots| > 0 && PushesOk(s.producer, s.pushed, log.offers, log.answers) && s.producer.PDone?
    ensures var s', log' := Spsc.Next(s, LeavePush), Note(s, LeavePush, log);
            PushesOk(s'.producer, s'.pushed, log'.offers, log'.answers)
  {
    AcceptedAppend(log.answers, Answer(s.producer.elem, s.producer.accepted));
  }

  lemma PushGoesOn<E>(s: Ring<E>, offers: seq<Offer<E>>, answers: seq<Answer<E>>)
    requires |s.slots| > 0 && PushesOk(s.producer, s.pushed, offers, answers)
    ensures PushesOk(ProducerStep(s).producer, ProducerStep(s).pushed, offers, answers)
  {
  }

  lemma PushesStep<E>(s: Ring<E>, a: Move<E>, log: Log<E>)
    requires |s.slots| > 0 && PushesOk(s.producer, s.pushed, log.offers, log.answers)
    ensures var s', log' := Spsc.Next(s, a), Note(s, a, log);
            PushesOk(s'.producer, s'.pushed, log'.offers, log'.answers)
  {
    if a.StepProducer? {
      PushGoesOn(s, log.offers, log.answers);
    } else if a.LeavePush? && s.producer.PDone? {
      PushReturns(s, log);
    } else if a.StepConsumer? {
      ConsumerLeavesPushes(s);
    }
  }

  lemma ConsumerLeavesPushes<E>(s: Ring<E>)
    requires |s.slots| > 0
    ensures ConsumerStep(s).producer == s.producer && ConsumerStep(s).pushed == s.pushed
  {
  }

  lemma PopReturns<E>(s: Ring<E>, log: Log<E>)
    requires |s.slots| > 0 && PopsOk(s.consumer, s.popped, log.asks, log.replies)
    requires s.consumer.CGot? || s.consumer.CNothing?
    ensures var s', log' := Spsc.Next(s, LeavePop), Note(s, LeavePop, log);
            PopsOk(s'.consumer, s'.popped, log'.asks, log'.replies)
  {
    ReceivedAppend(log.replies, if s.consumer.CGot? then Full(s.consumer.elem) else Nil);
  }

  lemma PopGoesOn<E>(s: Ring<E>, asks: seq<bool>, replies: seq<Slot<E>>)
    requires |s.slots| > 0 && PopsOk(s.consumer, s.popped, asks, replies)
    ensures PopsOk(ConsumerStep(s).consumer, ConsumerStep(s).popped, asks, replies)
  {
  }

  lemma ProducerLeavesPops<E>(s: Ring<E>)
    requires |s.slots| > 0
    ensures ProducerStep(s).consumer == s.consumer && ProducerStep(s).popped == s.popped
  {
  }

  lemma PopsStep<E>(s: Ring<E>, a: Move<E>, log: Log<E>)
    requires |s.slots| > 0 && PopsOk(s.consumer, s.popped, log.asks, log.replies)
    ensures var s', log' := Spsc.Next(s, a), Note(s, a, log);
            PopsOk(s'.consumer, s'.popped, log'.asks, log'.replies)
  {
    if a.StepConsumer? {
      PopGoesOn(s, log.asks, log.replies);
    } else if a.LeavePop? && (s.consumer.CGot? || s.consumer.CNothing?) {
      PopReturns(s, log);
    } else if a.StepProducer? {
      ProducerLeavesPops(s);
    }
  }

  lemma {:induction false} RunLogged<E>(s: Ring<E>, schedule: seq<Move<E>>, log: Log<E>)
    requires |s.slots| > 0
    requires PushesOk(s.producer, s.pushed, log.offers, log.answers) && PopsOk(s.consumer, s.popped, log.asks, log.replies)
    ensures var s', log' := Spsc.Exec(s, schedule), Logged(s, schedule, log);
            && PushesOk(s'.producer, s'.pushed, log'.offers, log'.answers)
            && PopsOk(s'.consumer, s'.popped, log'.asks, log'.replies)
    decreases |schedule|
  {
    if schedule != [] {
      PushesStep(s, schedule[0], log);
      PopsStep(s, schedule[0], log);
      RunLogged(Spsc.Next(s, schedule[0]), schedule[1..], Note(s, schedule[0], log));
    }
  }

  /** What the consumer's calls have returned, in order, is what the producer's accepted calls had
      brought, in order and without a gap; every push was answered about its own element; only
      tries are refused or fail. In flight are at most one call of each side. */
  lemma CallsAreFifo<E>(bits: nat, e: nat, schedule: seq<Move<E>>)
    requires 2 * bits <= e <= 30
    ensures var log := Logged(NewRing<E>(bits, Pow2(e)), schedule, Log([], [], [], []));
            && |log.answers| <= |log.offers| <= |log.answers| + 1 && |log.replies| <= |log.asks| <= |log.replies| + 1
            && (forall k :: 0 <= k < |log.answers| ==>
                  log.answers[k].elem == log.offers[k].elem && (log.answers[k].accepted || log.offers[k].may))
            && (forall k :: 0 <= k < |log.replies| ==> log.replies[k].Full? || log.asks[k])
            && Received(log.replies) <= Accepted(log.answers) + (if |log.offers| > |log.answers| then [log.offers[|log.answers|].elem] else [])
  {
    var s0 := NewRing<E>(bits, Pow2(e));
    var s := Spsc.Exec(s0, schedule);
    var log := Logged(s0, schedule, Log([], [], [], []));
    RunLogged(s0, schedule, Log([], [], [], []));
    SpscFifo<E>(bits, e, schedule);
    var r, p := Received(log.replies), s.pushed;
    assert r <= s.popped <= p;
    assert p <= Accepted(log.answers) + (if |log.offers| > |log.answers| then [log.offers[|log.answers|].elem] else []);
  }

  // ---------------------------------------------------------------- no call takes long

  function PushRank<E>(p: Producer<E>): nat {
    match p
    case TryPushLoad(_) => 5
    case TryPushTest(_, _) => 4
    case PushLoad(_) => 4
    case TryPushAdvance(_, _) => 3
    case PushAdvance(_, _) => 3
    case AwaitNil(_, _) => 2
    case Write(_, _) => 1
    case _ => 0
  }

  function PopRank<E>(c: Consumer<E>): nat {
    match c
    case TryPopLoad => 5
    case TryPopTest(_) => 4
    case PopLoad => 4
    case TryPopAdvance(_) => 3
    case PopAdvance(_) => 3
    case AwaitElem(_) => 2
    case Clear(_, _) => 1
    case _ => 0
  }

  /** Each step of a call brings its end nearer, so that it ends within five, except that a claimed
      push waits exactly while the ring is full and a claimed pop exactly while it is empty. */
  lemma CallsAdvance<E>(bits: nat, e: nat, schedule: seq<Move<E>>, s: Ring<E>)
    requires 2 * bits <= e <= 30 && s == Spsc.Exec(NewRing<E>(bits, Pow2(e)), schedule)
    ensures PushRank(s.producer) > 0 ==>
              if s.producer.AwaitNil? && |s.pushed| == |s.popped| + Pow2(e) then ProducerStep(s) == s
              else PushRank(ProducerStep(s).producer) < PushRank(s.producer) && !ProducerStep(s).producer.PIdle?
    ensures PopRank(s.consumer) > 0 ==>
              if s.consumer.AwaitElem? && s.pushed == s.popped then ConsumerStep(s) == s
              else PopRank(ConsumerStep(s).consumer) < PopRank(s.consumer) && !ConsumerStep(s).consumer.CIdle?
  {
    SpscNoDeadlock(bits, e, schedule, s);
  }
}
