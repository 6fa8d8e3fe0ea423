/** `LockFreeQueue` used by one caller at a time: the array, the two wrapping counters and the
    shuffled slots together are a bounded FIFO queue, for any number of calls. */
module LockFreeQueues {
  import opened Bits
  import opened IndexMap
  import opened TicketQueue
  import opened TicketOrder
  import opened QueueMachine
  import Spsc

  /** The template constants m_size and SHUFFLE_BITS. */
  method TemplateConstants(capacity: nat, elementsPerCacheLine: nat) returns (m: nat, bits: nat, ghost e: nat)
    requires 1 <= capacity <= Pow2(31)
    ensures LeastPower(m, capacity) && bits == ShuffleBits(m, elementsPerCacheLine)
    ensures m == Pow2(e) && 2 * bits <= e <= 31
  {
    WordIsPower();
    RoundUpToPowerOf2IsLeast(capacity);
    m := RoundUpToPowerOf2(capacity);
    bits := ShuffleBits(m, elementsPerCacheLine);
    e :| m == Pow2(e);
    ShuffleBitsFit(e, elementsPerCacheLine);
    if e > 31 {
      Pow2Strict(31, e);
    }
  }

  /** The signed difference of the counters, up to the first length it cannot tell. */
  lemma GapOfCounters(h: nat, t: nat)
    requires t <= h <= t + HALF
    ensures Signed(Word(Word(h) - Word(t))) == if h == t + HALF then -HALF else h - t
  {
  }

  class LockFreeQueue<T> {
    const size: nat
    const bits: nat
    ghost const exponent: nat
    var head: nat
    var tail: nat
    const queue: array<Slot<T>>

    /** Everything ever pushed, and how much of it has been popped. */
    ghost var history: seq<T>
    ghost var popped: nat

    ghost predicate Valid()
      reads this, queue
    {
      && 2 * bits <= exponent <= 31
      && size == Pow2(exponent) == queue.Length
      && Spsc.SlotsOk(queue[..], bits, exponent, history, popped)
      && head == Word(|history|)
      && tail == Word(popped)
    }

    ghost function Contents(): seq<T>
      reads this, queue
      requires Valid()
    {
      history[popped..]
    }

    constructor (capacity: nat, elementsPerCacheLine: nat)
      requires 1 <= capacity <= Pow2(31)
      ensures Valid() && Contents() == [] && fresh(queue)
      ensures LeastPower(size, capacity) && bits == ShuffleBits(size, elementsPerCacheLine)
    {
      var m, b;
      ghost var e;
      m, b, e := TemplateConstants(capacity, elementsPerCacheLine);
      var slots := new Slot<T>[m];
      for p := 0 to m
        invariant forall k :: 0 <= k < p ==> slots[k] == Nil
      {
        slots[p] := Nil;
      }
      Spsc.NewSlotsOk(slots[..], b, e);
      size := m;
      bits := b;
      exponent := e;
      head, tail := 0, 0;
      queue := slots;
      history, popped := [], 0;
    }

    /** `doPush`: the slot of a claimed ticket receives the element. */
    method DoPush(element: T, ticket: nat)
      requires Valid() && ticket == head && |Contents()| < size
      modifies this, queue
      ensures Valid() && Contents() == old(Contents()) + [element]
    {
      NextPushSlot(element);
      var k := SlotIndex(bits, size, ticket);
      queue[k] := Full(element);
      assert queue[..] == old(queue[..])[k := Full(element)];
      head := Word(ticket + 1);
      history := history + [element];
    }

    /** `doPop`. */
    method DoPop(ticket: nat) returns (element: T)
      requires Valid() && ticket == tail && Contents() != []
      modifies this, queue
      ensures Valid() && [element] + Contents() == old(Contents())
    {
      NextPopSlot();
      var k := SlotIndex(bits, size, ticket);
      element := queue[k].elem;
      queue[k] := Nil;
      assert queue[..] == old(queue[..])[k := Nil];
      tail := Word(ticket + 1);
      popped := popped + 1;
    }

    /** The slot the next push works on, and what it makes of the slots. */
    lemma NextPushSlot(element: T)
      requires Valid() && |Contents()| < size
      ensures var k := SlotIndex(bits, size, head);
              && k < size
              && Spsc.SlotsOk(queue[..][k := Full(element)], bits, exponent, history + [element], popped)
      ensures Word(head + 1) == Word(|history + [element]|)
    {
      assert SlotIndex(bits, size, head) == Spsc.Home(bits, exponent, |history|);
      Spsc.WriteSlots(queue[..], bits, exponent, history, popped, element);
      NextWord(|history|);
    }

    lemma NextPopSlot()
      requires Valid() && Contents() != []
      ensures var k := SlotIndex(bits, size, tail);
              && k < size && queue[k] == Full(Contents()[0])
              && Spsc.SlotsOk(queue[..][k := Nil], bits, exponent, history, popped + 1)
      ensures Word(tail + 1) == Word(popped + 1)
    {
      assert SlotIndex(bits, size, tail) == Spsc.Home(bits, exponent, popped);
      Spsc.ClearSlots(queue[..], bits, exponent, history, popped);
      NextWord(popped);
    }

    /** Refused when full, and always by a queue of 2^31 slots, whose size reads as negative. */
    method TryPush(element: T) returns (ok: bool)
      requires Valid()
      modifies this, queue
      ensures Valid()
      ensures ok <==> |old(Contents())| < size <= HALF / 2
      ensures Contents() == old(Contents()) + (if ok then [element] else [])
    {
      GapIsLength();
      if Signed(Word(head - tail)) >= Signed(Word(size)) {
        return false;
      }
      DoPush(element, head);
      ok := true;
    }

    /** NIL stands for the untouched out-parameter of a failed tryPop. A difference of 2^31
        reads as negative. */
    method TryPop() returns (element: Slot<T>)
      requires Valid()
      modifies this, queue
      ensures Valid()
      ensures element.Nil? <==> old(Contents()) == [] || |old(Contents())| == HALF
      ensures old(Contents()) == (if element.Full? then [element.elem] else []) + Contents()
    {
      GapIsLength();
      if Signed(Word(head - tail)) <= 0 {
        return Nil;
      }
      var x := DoPop(tail);
      element := Full(x);
    }

    /** A lone caller that pushes into a full queue never returns. */
    method Push(element: T)
      requires Valid() && |Contents()| < size
      modifies this, queue
      ensures Valid() && Contents() == old(Contents()) + [element]
    {
      DoPush(element, head);
    }

    /** A lone caller that pops from an empty queue never returns. */
    method Pop() returns (element: T)
      requires Valid() && Contents() != []
      modifies this, queue
      ensures Valid() && [element] + Contents() == old(Contents())
    {
      element := DoPop(tail);
    }

    method Size() returns (n: nat)
      requires Valid()
      ensures n == if |Contents()| == HALF then 0 else |Contents()|
    {
      GapIsLength();
      n := Max(Signed(Word(head - tail)), 0);
    }

    method Empty() returns (empty: bool)
      requires Valid()
      ensures empty <==> Contents() == [] || |Contents()| == HALF
    {
      var n := Size();
      empty := n == 0;
    }

    method IsFull() returns (full: bool)
      requires Valid()
      ensures full <==> |Contents()| == size || size == HALF
    {
      GapIsLength();
      var n := Size();
      full := n >= Signed(Word(size));
    }

    lemma GapIsLength()
      requires Valid()
      ensures |Contents()| <= size <= HALF
      ensures Signed(Word(head - tail)) == if |Contents()| == HALF then -HALF else |Contents()|
      ensures Signed(Word(size)) == if size == HALF then -HALF else size
      ensures size == HALF || size <= HALF / 2
    {
      WordIsPower();
      if exponent <= 30 {
        CapacityBound(exponent);
      }
      GapOfCounters(|history|, popped);
    }
  }
}
