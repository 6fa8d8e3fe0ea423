/** The single-producer single-consumer discipline of the queue, with its 32-bit counters and
    its separate load and store of a slot. Each side owns one counter, so here no assumption
    about stale counters is needed. */
module Spsc {
  import opened Bits
  import opened IndexMap
  import opened Residues
  import opened TicketQueue
  import opened QueueMachine

  /** The arguments are the locals of the call: the element and the loaded own counter. */
  datatype Producer<E> =
    | PIdle
    | TryPushLoad(elem: E)
    | TryPushTest(elem: E, head: nat)
    | TryPushAdvance(elem: E, head: nat)
    | PushLoad(elem: E)
    | PushAdvance(elem: E, head: nat)
    | AwaitNil(elem: E, head: nat)
    | Write(elem: E, head: nat)
    | PDone(accepted: bool, elem: E)

  datatype Consumer<E> =
    | CIdle
    | TryPopLoad
    | TryPopTest(tail: nat)
    | TryPopAdvance(tail: nat)
    | PopLoad
    | PopAdvance(tail: nat)
    | AwaitElem(tail: nat)
    | Clear(tail: nat, elem: E)
    | CGot(elem: E)
    | CNothing

  /** `pushed` and `popped` list the elements in the order of the slot stores. */
  datatype Ring<E> = Ring(bits: nat, head: nat, tail: nat, slots: seq<Slot<E>>,
                          producer: Producer<E>, consumer: Consumer<E>, pushed: seq<E>, popped: seq<E>)

  datatype Move<E> =
    | StartPush(elem: E) | StartTryPush(elem: E) | StepProducer | LeavePush
    | StartPop | StartTryPop | StepConsumer | LeavePop

  function NewRing<E>(bits: nat, m: nat): Ring<E> {
    Ring(bits, 0, 0, seq(m, _ => Nil), PIdle, CIdle, [], [])
  }

  function Look<E>(s: Ring<E>, counter: nat): Slot<E>
    requires |s.slots| > 0
  {
    var k := SlotIndex(s.bits, |s.slots|, counter);
    if k < |s.slots| then s.slots[k] else Nil
  }

  function Put<E>(s: Ring<E>, counter: nat, x: Slot<E>): Ring<E>
    requires |s.slots| > 0
  {
    var k := SlotIndex(s.bits, |s.slots|, counter);
    if k < |s.slots| then s.(slots := s.slots[k := x]) else s
  }

  function ProducerStep<E>(s: Ring<E>): Ring<E>
    requires |s.slots| > 0
  {
    match s.producer
    case TryPushLoad(e) => s.(producer := TryPushTest(e, s.head))
    case TryPushTest(e, h) =>
      if Signed(Word(h - s.tail)) >= Signed(Word(|s.slots|)) then s.(producer := PDone(false, e))
      else s.(producer := TryPushAdvance(e, h))
    case TryPushAdvance(e, h) => s.(head := Word(h + 1), producer := AwaitNil(e, h))
    case PushLoad(e) => s.(producer := PushAdvance(e, s.head))
    case PushAdvance(e, h) => s.(head := Word(h + 1), producer := AwaitNil(e, h))
    case AwaitNil(e, h) => if Look(s, h).Full? then s else s.(producer := Write(e, h))
    case Write(e, h) => Put(s, h, Full(e)).(producer := PDone(true, e), pushed := s.pushed + [e])
    case _ => s
  }

  function ConsumerStep<E>(s: Ring<E>): Ring<E>
    requires |s.slots| > 0
  {
    match s.consumer
    case TryPopLoad => s.(consumer := TryPopTest(s.tail))
    case TryPopTest(t) =>
      if Signed(Word(s.head - t)) <= 0 then s.(consumer := CNothing) else s.(consumer := TryPopAdvance(t))
    case TryPopAdvance(t) => s.(tail := Word(t + 1), consumer := AwaitElem(t))
    case PopLoad => s.(consumer := PopAdvance(s.tail))
    case PopAdvance(t) => s.(tail := Word(t + 1), consumer := AwaitElem(t))
    case AwaitElem(t) => if Look(s, t).Nil? then s else s.(consumer := Clear(t, Look(s, t).elem))
    case Clear(t, e) => Put(s, t, Nil).(consumer := CGot(e), popped := s.popped + [e])
    case _ => s
  }

  function Next<E>(s: Ring<E>, a: Move<E>): (s': Ring<E>)
    requires |s.slots| > 0
    ensures |s'.slots| == |s.slots| && s'.bits == s.bits
  {
    match a
    case StartPush(e) => if s.producer.PIdle? then s.(producer := PushLoad(e)) else s
    case StartTryPush(e) => if s.producer.PIdle? then s.(producer := TryPushLoad(e)) else s
    case LeavePush => if s.producer.PDone? then s.(producer := PIdle) else s
    case StepProducer => ProducerStep(s)
    case StartPop => if s.consumer.CIdle? then s.(consumer := PopLoad) else s
    case StartTryPop => if s.consumer.CIdle? then s.(consumer := TryPopLoad) else s
    case LeavePop => if s.consumer.CGot? || s.consumer.CNothing? then s.(consumer := CIdle) else s
    case StepConsumer => ConsumerStep(s)
  }

  function Exec<E>(s: Ring<E>, schedule: seq<Move<E>>): (s': Ring<E>)
    requires |s.slots| > 0
    ensures |s'.slots| == |s.slots| && s'.bits == s.bits
    decreases |schedule|
  {
    if schedule == [] then s else Exec(Next(s, schedule[0]), schedule[1..])
  }

  // ---------------------------------------------------------------- slots of consecutive elements

  /** The slot of the k-th element. */
  function Home(bits: nat, e: nat, k: nat): (r: nat)
    requires 2 * bits <= e <= 31
    ensures r < Pow2(e)
  {
    LaneOfWord(k, e);
    RemapPermutes(Lane(k, Pow2(e)), bits, e);
    SlotIndex(bits, Pow2(e), Word(k))
  }

  /** Slots repeat after m_size elements and not before. */
  lemma HomeRepeats(bits: nat, e: nat, k: nat, next: nat)
    requires 2 * bits <= e <= 31 && next == k + Pow2(e)
    ensures Home(bits, e, next) == Home(bits, e, k)
  {
    LaneOfWord(k, e);
    LaneOfWord(next, e);
    LaneWraps(k, Pow2(e));
  }

  lemma HomesDiffer(bits: nat, e: nat, j: nat, k: nat)
    requires 2 * bits <= e <= 31 && j < k < j + Pow2(e)
    ensures Home(bits, e, j) != Home(bits, e, k)
  {
    var m := Pow2(e);
    LaneOfWord(j, e);
    LaneOfWord(k, e);
    RemapPermutes(Lane(j, m), bits, e);
    RemapPermutes(Lane(k, m), bits, e);
    if Lane(j, m) == Lane(k, m) {
      LaneSpacing(j, k, m);
    }
  }

  // ---------------------------------------------------------------- invariant

  /** With c elements popped, the slots hold exactly the pushed elements after the first c. */
  ghost predicate SlotsOk<E>(slots: seq<Slot<E>>, bits: nat, e: nat, pushed: seq<E>, c: nat)
    requires 2 * bits <= e <= 31
  {
    && |slots| == Pow2(e) && c <= |pushed| <= c + Pow2(e)
    && (forall k :: c <= k < |pushed| ==> slots[Home(bits, e, k)] == Full(pushed[k]))
    && (forall k :: |pushed| <= k < c + Pow2(e) ==> slots[Home(bits, e, k)] == Nil)
  }

  lemma NewSlotsOk<E>(slots: seq<Slot<E>>, bits: nat, e: nat)
    requires 2 * bits <= e <= 31 && |slots| == Pow2(e) && forall k :: 0 <= k < |slots| ==> slots[k] == Nil
    ensures SlotsOk(slots, bits, e, [], 0)
  {
  }

  ghost predicate ProducerOk<E>(s: Ring<E>, e: nat) {
    var p := |s.pushed|;
    match s.producer
    case AwaitNil(_, h) => h == Word(p) && s.head == Word(p + 1)
    case Write(_, h) => h == Word(p) && s.head == Word(p + 1) && p < |s.popped| + Pow2(e)
    case TryPushTest(_, h) => h == s.head == Word(p)
    case TryPushAdvance(_, h) => h == s.head == Word(p)
    case PushAdvance(_, h) => h == s.head == Word(p)
    case _ => s.head == Word(p)
  }

  ghost predicate ConsumerOk<E>(s: Ring<E>) {
    var c := |s.popped|;
    match s.consumer
    case AwaitElem(t) => t == Word(c) && s.tail == Word(c + 1)
    case Clear(t, x) => t == Word(c) && s.tail == Word(c + 1) && c < |s.pushed| && x == s.pushed[c]
    case TryPopTest(t) => t == s.tail == Word(c)
    case TryPopAdvance(t) => t == s.tail == Word(c)
    case PopAdvance(t) => t == s.tail == Word(c)
    case CGot(x) => s.tail == Word(c) && c > 0 && x == s.popped[c - 1]
    case _ => s.tail == Word(c)
  }

  ghost predicate Inv<E>(s: Ring<E>, e: nat) {
    && 2 * s.bits <= e <= 30
    && SlotsOk(s.slots, s.bits, e, s.pushed, |s.popped|)
    && s.popped <= s.pushed
    && ProducerOk(s, e)
    && ConsumerOk(s)
  }

  lemma NewRingInv<E>(bits: nat, e: nat)
    requires 2 * bits <= e <= 30
    ensures Inv(NewRing<E>(bits, Pow2(e)), e)
  {
  }

  /** The slot the producer waits for is NIL exactly when the ring has room. */
  lemma RoomIsNil<E>(s: Ring<E>, e: nat)
    requires 2 * s.bits <= e <= 30 && SlotsOk(s.slots, s.bits, e, s.pushed, |s.popped|)
    ensures Look(s, Word(|s.pushed|)).Nil? <==> |s.pushed| < |s.popped| + Pow2(e)
    ensures Look(s, Word(|s.popped|)).Full? <==> |s.popped| < |s.pushed|
    ensures |s.popped| < |s.pushed| ==> Look(s, Word(|s.popped|)) == Full(s.pushed[|s.popped|])
  {
    var p, c := |s.pushed|, |s.popped|;
    assert Look(s, Word(p)) == s.slots[Home(s.bits, e, p)];
    assert Look(s, Word(c)) == s.slots[Home(s.bits, e, c)];
    if p == c + Pow2(e) {
      HomeRepeats(s.bits, e, c, p);
    }
  }

  lemma WriteSlots<E>(slots: seq<Slot<E>>, bits: nat, e: nat, pushed: seq<E>, c: nat, x: E)
    requires 2 * bits <= e <= 31 && SlotsOk(slots, bits, e, pushed, c) && |pushed| < c + Pow2(e)
    ensures SlotsOk(slots[Home(bits, e, |pushed|) := Full(x)], bits, e, pushed + [x], c)
  {
    var p, slots' := |pushed|, slots[Home(bits, e, |pushed|) := Full(x)];
    forall k | c <= k < c + Pow2(e) && k != p ensures slots'[Home(bits, e, k)] == slots[Home(bits, e, k)] {
      if k < p { HomesDiffer(bits, e, k, p); } else { HomesDiffer(bits, e, p, k); }
    }
  }

  lemma ClearSlots<E>(slots: seq<Slot<E>>, bits: nat, e: nat, pushed: seq<E>, c: nat)
    requires 2 * bits <= e <= 31 && SlotsOk(slots, bits, e, pushed, c) && c < |pushed|
    ensures SlotsOk(slots[Home(bits, e, c) := Nil], bits, e, pushed, c + 1)
  {
    var slots' := slots[Home(bits, e, c) := Nil];
    HomeRepeats(bits, e, c, c + Pow2(e));
    forall k | c < k < c + Pow2(e) ensures slots'[Home(bits, e, k)] == slots[Home(bits, e, k)] {
      HomesDiffer(bits, e, c, k);
    }
  }

  lemma WriteInv<E>(s: Ring<E>, e: nat)
    requires Inv(s, e) && s.producer.Write?
    ensures Inv(ProducerStep(s), e)
  {
    NextWord(|s.pushed|);
    WriteSlots(s.slots, s.bits, e, s.pushed, |s.popped|, s.producer.elem);
    assert Home(s.bits, e, |s.pushed|) == SlotIndex(s.bits, |s.slots|, s.producer.head);
  }

  /** Steps before the slot store touch only the producer's own counter and phase. */
  lemma ProducerMoves<E>(s: Ring<E>, e: nat)
    requires |s.slots| > 0 && ProducerOk(s, e) && !s.producer.Write?
    requires Look(s, Word(|s.pushed|)).Nil? ==> |s.pushed| < |s.popped| + Pow2(e)
    ensures var s' := ProducerStep(s);
            && ProducerOk(s', e)
            && s' == Ring(s.bits, s'.head, s.tail, s.slots, s'.producer, s.consumer, s.pushed, s.popped)
  {
    NextWord(|s.pushed|);
  }

  lemma ProducerStepInv<E>(s: Ring<E>, e: nat)
    requires Inv(s, e)
    ensures Inv(ProducerStep(s), e)
  {
    if s.producer.Write? {
      WriteInv(s, e);
    } else {
      RoomIsNil(s, e);
      ProducerMoves(s, e);
    }
  }

  lemma ClearInv<E>(s: Ring<E>, e: nat)
    requires Inv(s, e) && s.consumer.Clear?
    ensures Inv(ConsumerStep(s), e)
  {
    NextWord(|s.popped|);
    ClearSlots(s.slots, s.bits, e, s.pushed, |s.popped|);
    assert Home(s.bits, e, |s.popped|) == SlotIndex(s.bits, |s.slots|, s.consumer.tail);
  }

  lemma ConsumerMoves<E>(s: Ring<E>)
    requires |s.slots| > 0 && ConsumerOk(s) && !s.consumer.Clear?
    requires Look(s, Word(|s.popped|)).Full? ==> |s.popped| < |s.pushed| && Look(s, Word(|s.popped|)) == Full(s.pushed[|s.popped|])
    ensures var s' := ConsumerStep(s);
            && ConsumerOk(s')
            && s' == Ring(s.bits, s.head, s'.tail, s.slots, s.producer, s'.consumer, s.pushed, s.popped)
  {
    NextWord(|s.popped|);
  }

  lemma ConsumerStepInv<E>(s: Ring<E>, e: nat)
    requires Inv(s, e)
    ensures Inv(ConsumerStep(s), e)
  {
    if s.consumer.Clear? {
      ClearInv(s, e);
    } else {
      RoomIsNil(s, e);
      ConsumerMoves(s);
    }
  }

  lemma NextInv<E>(s: Ring<E>, e: nat, a: Move<E>)
    requires Inv(s, e)
    ensures Inv(Next(s, a), e)
  {
    match a
    case StepProducer => ProducerStepInv(s, e);
    case StepConsumer => ConsumerStepInv(s, e);
    case _ =>
  }

  lemma {:induction false} ExecInv<E>(s: Ring<E>, e: nat, schedule: seq<Move<E>>)
    requires Inv(s, e)
    ensures Inv(Exec(s, schedule), e)
    decreases |schedule|
  {
    if schedule != [] {
      NextInv(s, e, schedule[0]);
      ExecInv(Next(s, schedule[0]), e, schedule[1..]);
    }
  }

  // ---------------------------------------------------------------- main results

  /** In every interleaving the consumer receives a prefix of what the producer sent, and the
      ring never holds more than its capacity, although head moves before the slot is free. */
  lemma SpscFifo<E>(bits: nat, e: nat, schedule: seq<Move<E>>)
    requires 2 * bits <= e <= 30
    ensures var s := Exec(NewRing<E>(bits, Pow2(e)), schedule);
            && s.popped <= s.pushed && |s.pushed| <= |s.popped| + Pow2(e)
            && (s.consumer.CGot? ==> |s.popped| > 0 && s.consumer.elem == s.popped[|s.popped| - 1])
  {
    NewRingInv<E>(bits, e);
    ExecInv(NewRing<E>(bits, Pow2(e)), e, schedule);
  }

  /** A producer waits exactly while the ring is full and a consumer exactly while it is empty,
      so the two sides never wait for each other at the same time. */
  lemma SpscNoDeadlock<E>(bits: nat, e: nat, schedule: seq<Move<E>>, s: Ring<E>)
    requires 2 * bits <= e <= 30 && s == Exec(NewRing<E>(bits, Pow2(e)), schedule)
    ensures s.producer.AwaitNil? ==> (ProducerStep(s) == s <==> |s.pushed| == |s.popped| + Pow2(e))
    ensures s.consumer.AwaitElem? ==> (ConsumerStep(s) == s <==> s.pushed == s.popped)
    ensures s.producer.AwaitNil? && s.consumer.AwaitElem? ==> ProducerStep(s) != s || ConsumerStep(s) != s
  {
    NewRingInv<E>(bits, e);
    ExecInv(NewRing<E>(bits, Pow2(e)), e, schedule);
    RoomIsNil(s, e);
  }

  /** Pushes whose element no pop has claimed yet, as the producer's test counts them: a consumer
      that waits for its slot or is emptying it has claimed already. */
  function Ahead<E>(s: Ring<E>): int {
    |s.pushed| - |s.popped| - (if s.consumer.AwaitElem? || s.consumer.Clear? then 1 else 0)
  }

  /** The same as the consumer's test counts them: a producer that waits for its slot or is
      filling it has claimed already. */
  function There<E>(s: Ring<E>): int {
    |s.pushed| + (if s.producer.AwaitNil? || s.producer.Write? then 1 else 0) - |s.popped|
  }

  lemma PushTestDecides<E>(s: Ring<E>, e: nat)
    requires Inv(s, e) && s.producer.TryPushTest?
    ensures ProducerStep(s) == s.(producer := if Ahead(s) >= Pow2(e) then PDone(false, s.producer.elem)
                                              else TryPushAdvance(s.producer.elem, s.producer.head))
  {
    CapacityFits(e);
    CapacityBound(e);
    SignedDifference(|s.pushed|, |s.popped|);
    SignedDifference(|s.pushed|, |s.popped| + 1);
  }

  lemma PopTestDecides<E>(s: Ring<E>, e: nat)
    requires Inv(s, e) && s.consumer.TryPopTest?
    ensures ConsumerStep(s) == s.(consumer := if There(s) == 0 then CNothing else TryPopAdvance(s.consumer.tail))
  {
    CapacityBound(e);
    SignedDifference(|s.pushed|, |s.popped|);
    SignedDifference(|s.pushed| + 1, |s.popped|);
  }

  /** In every reachable state the tests decide by the true counts: tryPush is refused exactly if
      2^e pushes are ahead of the pops, and then the ring is full; tryPop fails exactly if no push
      is ahead of the pops, and then the ring is empty; otherwise the call goes on to claim. */
  lemma SpscRefusals<E>(bits: nat, e: nat, schedule: seq<Move<E>>, s: Ring<E>)
    requires 2 * bits <= e <= 30 && s == Exec(NewRing<E>(bits, Pow2(e)), schedule)
    ensures s.producer.TryPushTest? ==>
              && ProducerStep(s).producer == (if Ahead(s) >= Pow2(e) then PDone(false, s.producer.elem)
                                              else TryPushAdvance(s.producer.elem, s.producer.head))
              && (Ahead(s) >= Pow2(e) ==> |s.pushed| == |s.popped| + Pow2(e))
    ensures s.consumer.TryPopTest? ==>
              && ConsumerStep(s).consumer == (if There(s) == 0 then CNothing else TryPopAdvance(s.consumer.tail))
              && (There(s) == 0 ==> s.pushed == s.popped)
  {
    NewRingInv<E>(bits, e);
    ExecInv(NewRing<E>(bits, Pow2(e)), e, schedule);
    if s.producer.TryPushTest? {
      PushTestDecides(s, e);
    }
    if s.consumer.TryPopTest? {
      PopTestDecides(s, e);
    }
  }
}
