/** `ItcMailbox` as one caller sees it: the flag, the identity fields and the receive queue,
    changed in place. */
module MailboxObjects {
  import opened Bits
  import opened IndexMap
  import opened TicketQueue
  import opened LockFreeQueues

  const QUEUE_SIZE: nat := 1024
  const ID_DEFAULT: nat := 0xFFFF_FFFF
  const FLAG_DEFAULT: nat := 0
  const NON_BLOCKING: nat := 1

  /** A message as the mailbox sees it; `sound` is the verdict of `deallocate` on it. */
  datatype Message = Message(id: nat, sound: bool)

  function Sound(messages: seq<Message>): (r: seq<Message>)
    ensures |r| <= |messages|
  {
    if messages == [] then []
    else Sound(messages[..|messages| - 1]) + (if messages[|messages| - 1].sound then [messages[|messages| - 1]] else [])
  }

  lemma SoundAppend(a: seq<Message>, x: Message)
    ensures Sound(a + [x]) == Sound(a) + (if x.sound then [x] else [])
  {
    assert (a + [x])[..|a|] == a;
  }

  lemma QueueSizeIsPower()
    ensures 1 <= QUEUE_SIZE <= Pow2(31)
    ensures forall r :: LeastPower(r, QUEUE_SIZE) ==> r == QUEUE_SIZE
  {
    Pow2Monotone(10, 31);
    assert Pow2(10) == QUEUE_SIZE;
  }

  class ItcMailbox {
    var mailboxId: nat
    var flags: nat
    var isActive: bool
    const rxMsgQueue: LockFreeQueue<Message>

    ghost predicate Valid()
      reads this, rxMsgQueue, rxMsgQueue.queue
    {
      rxMsgQueue.Valid() && rxMsgQueue.size == QUEUE_SIZE
    }

    ghost function Queued(): seq<Message>
      reads this, rxMsgQueue, rxMsgQueue.queue
      requires Valid()
    {
      rxMsgQueue.Contents()
    }

    constructor (flags: nat)
      ensures Valid() && fresh(rxMsgQueue) && fresh(rxMsgQueue.queue)
      ensures Queued() == [] && !isActive && mailboxId == ID_DEFAULT && this.flags == flags
    {
      QueueSizeIsPower();
      rxMsgQueue := new LockFreeQueue(QUEUE_SIZE, 8);
      mailboxId, this.flags, isActive := ID_DEFAULT, flags, false;
      new;
      assert LeastPower(rxMsgQueue.size, QUEUE_SIZE);
    }

    /** Accepted exactly while the mailbox is active; a lone caller needs room in the queue. */
    method Push(msg: Message) returns (accepted: bool)
      requires Valid() && (isActive ==> |Queued()| < QUEUE_SIZE)
      modifies rxMsgQueue, rxMsgQueue.queue
      ensures Valid() && accepted == isActive
      ensures Queued() == old(Queued()) + (if accepted then [msg] else [])
    {
      if !isActive {
        return false;
      }
      rxMsgQueue.Push(msg);
      accepted := true;
    }

    /** NIL is the null pointer: no message, or not active. */
    method Pop(mode: nat) returns (msg: Slot<Message>)
      requires Valid() && (isActive && mode % 2 != NON_BLOCKING ==> Queued() != [])
      modifies rxMsgQueue, rxMsgQueue.queue
      ensures Valid()
      ensures msg.Full? <==> isActive && old(Queued()) != []
      ensures old(Queued()) == (if msg.Full? then [msg.elem] else []) + Queued()
    {
      if !isActive {
        return Nil;
      }
      if mode % 2 == NON_BLOCKING {
        msg := rxMsgQueue.TryPop();
        return;
      }
      var m := rxMsgQueue.Pop();
      msg := Full(m);
    }

    /** A change to inactive resets the identity and empties the queue, freeing each sound
        message once in queue order; any other call changes the flag at most. */
    method SetState(newState: bool) returns (freed: seq<Message>)
      requires Valid()
      modifies this, rxMsgQueue, rxMsgQueue.queue
      ensures Valid() && isActive == newState
      ensures old(isActive) && !newState ==>
                Queued() == [] && freed == Sound(old(Queued())) && mailboxId == ID_DEFAULT && flags == FLAG_DEFAULT
      ensures !old(isActive) || newState ==>
                Queued() == old(Queued()) && freed == [] && mailboxId == old(mailboxId) && flags == old(flags)
    {
      freed := [];
      if isActive == newState {
        return;
      }
      isActive := newState;
      if !newState {
        mailboxId, flags := ID_DEFAULT, FLAG_DEFAULT;
        freed := Drain();
      }
    }

    /** The loop of `setState`: take, free, look again. */
    method Drain() returns (freed: seq<Message>)
      requires Valid()
      modifies rxMsgQueue, rxMsgQueue.queue
      ensures Valid() && Queued() == [] && freed == Sound(old(Queued()))
    {
      freed := [];
      ghost var before := Queued();
      ghost var drained: seq<Message> := [];
      var empty := rxMsgQueue.Empty();
      while !empty
        invariant Valid() && before == drained + Queued() && freed == Sound(drained)
        invariant empty <==> Queued() == []
        decreases |Queued()|
      {
        var adminMsg := rxMsgQueue.TryPop();
        SoundAppend(drained, adminMsg.elem);
        drained := drained + [adminMsg.elem];
        if adminMsg.Full? && adminMsg.elem.sound {
          freed := freed + [adminMsg.elem];
        }
        empty := rxMsgQueue.Empty();
      }
      assert drained == before;
    }
  }
}
