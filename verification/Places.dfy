/** Where the elements of the queue are while threads hand them in and out: in one slot, with
    one thread inside a call, or with one holder outside the queue. */
module Places {
  import opened TicketQueue
  import opened QueueThreads
  import opened QueueRuns

  datatype Place = InSlot(slotNo: nat) | AtThread(tid: nat) | InHand(owner: nat)

  predicate Carries(p: Phase<nat>, e: nat) {
    match p
    case TryPushLoad(x) => x == e
    case TryPushTest(x, _) => x == e
    case TryPushCas(x, _) => x == e
    case PushAdd(x) => x == e
    case Storing(x, _) => x == e
    case Done(Got(x)) => x == e
    case Done(Refused(x)) => x == e
    case _ => false
  }

  /** The books agree with the slots, the threads and the hands, in both directions. */
  ghost predicate Placed(q: Queue<nat>, threads: seq<Phase<nat>>, hands: seq<set<nat>>, place: seq<Place>) {
    && (forall r :: 0 <= r < |q.cells| && q.cells[r].slot.Full? ==>
          q.cells[r].slot.elem < |place| && place[q.cells[r].slot.elem] == InSlot(r))
    && (forall i, e: nat {:trigger Carries(threads[i], e)} :: 0 <= i < |threads| && Carries(threads[i], e) ==> e < |place| && place[e] == AtThread(i))
    && (forall i, e {:trigger e in hands[i]} :: 0 <= i < |hands| && e in hands[i] ==> e < |place| && place[e] == InHand(i))
    && (forall e :: 0 <= e < |place| ==> Located(q, threads, hands, e, place[e]))
  }

  ghost predicate Located(q: Queue<nat>, threads: seq<Phase<nat>>, hands: seq<set<nat>>, e: nat, p: Place) {
    match p
    case InSlot(r) => r < |q.cells| && q.cells[r].slot == Full(e)
    case AtThread(i) => i < |threads| && Carries(threads[i], e)
    case InHand(i) => i < |hands| && e in hands[i]
  }

  /** Where the element goes when thread i makes a step. */
  function Moved(q: Queue<nat>, threads: seq<Phase<nat>>, place: seq<Place>, i: nat, spurious: bool): (place': seq<Place>)
    requires |q.cells| > 0 && i < |threads|
    ensures |place'| == |place|
  {
    match (threads[i], PhaseStep(q, threads[i], spurious))
    case (Storing(e, t), Done(_)) => if e < |place| then place[e := InSlot(LaneOf(q, t))] else place
    case (Taking(t), Done(Got(e))) => if e < |place| then place[e := AtThread(i)] else place
    case _ => place
  }

  /** A step that moves no entry. */
  lemma KeepBooks(q: Queue<nat>, threads: seq<Phase<nat>>, hands: seq<set<nat>>, place: seq<Place>,
                  q': Queue<nat>, i: nat, p: Phase<nat>)
    requires Placed(q, threads, hands, place) && q'.cells == q.cells && i < |threads|
    requires forall e: nat :: Carries(p, e) <==> Carries(threads[i], e)
    ensures Placed(q', threads[i := p], hands, place)
  {
    var threads' := threads[i := p];
    forall e | 0 <= e < |place| ensures Located(q', threads', hands, e, place[e]) {
      assert Located(q, threads, hands, e, place[e]);
    }
    forall j, e: nat | 0 <= j < |threads'| && Carries(threads'[j], e) ensures e < |place| && place[e] == AtThread(j) {
      assert Carries(threads[j], e);
    }
  }

  /** An entry moves from a thread into its lane. */
  lemma StoreBooks(q: Queue<nat>, threads: seq<Phase<nat>>, hands: seq<set<nat>>, place: seq<Place>, i: nat, t: nat, e: nat)
    requires |q.cells| > 0 && Placed(q, threads, hands, place) && i < |threads| && threads[i] == Storing(e, t)
    requires q.cells[LaneOf(q, t)].slot.Nil?
    ensures e < |place| && Placed(Put(q, t, e), threads[i := Done(Accepted)], hands, place[e := InSlot(LaneOf(q, t))])
  {
    assert Carries(threads[i], e);
    var q', threads', place' := Put(q, t, e), threads[i := Done(Accepted)], place[e := InSlot(LaneOf(q, t))];
    forall x | 0 <= x < |place'| ensures Located(q', threads', hands, x, place'[x]) {
      assert Located(q, threads, hands, x, place[x]);
    }
    forall j, x: nat | 0 <= j < |threads'| && Carries(threads'[j], x) ensures x < |place'| && place'[x] == AtThread(j) {
      assert Carries(threads[j], x);
    }
  }

  /** An entry moves from its lane to the thread that popped it. */
  lemma TakeBooks(q: Queue<nat>, threads: seq<Phase<nat>>, hands: seq<set<nat>>, place: seq<Place>, i: nat, t: nat, e: nat)
    requires |q.cells| > 0 && Placed(q, threads, hands, place) && i < |threads| && threads[i] == Taking(t)
    requires q.cells[LaneOf(q, t)].slot == Full(e)
    ensures e < |place| && Placed(Take(q, t), threads[i := Done(Got(e))], hands, place[e := AtThread(i)])
  {
    var q', threads', place' := Take(q, t), threads[i := Done(Got(e))], place[e := AtThread(i)];
    forall x | 0 <= x < |place'| ensures Located(q', threads', hands, x, place'[x]) {
      assert Located(q, threads, hands, x, place[x]);
    }
    forall j, x: nat | 0 <= j < |threads'| && Carries(threads'[j], x) ensures x < |place'| && place'[x] == AtThread(j) {
      assert j != i ==> Carries(threads[j], x);
    }
  }

  lemma RunBooks(q: Queue<nat>, threads: seq<Phase<nat>>, hands: seq<set<nat>>, place: seq<Place>, i: nat, spurious: bool)
    requires Placed(q, threads, hands, place) && i < |threads| && |q.cells| > 0
    ensures Placed(QueueStep(q, i, threads[i], spurious), threads[i := PhaseStep(q, threads[i], spurious)], hands,
                   Moved(q, threads, place, i, spurious))
  {
    var p' := PhaseStep(q, threads[i], spurious);
    if threads[i].Storing? && p'.Done? {
      StoreBooks(q, threads, hands, place, i, threads[i].ticket, threads[i].elem);
    } else if threads[i].Taking? && p'.Done? {
      TakeBooks(q, threads, hands, place, i, threads[i].ticket, p'.reply.elem);
    } else {
      KeepBooks(q, threads, hands, place, QueueStep(q, i, threads[i], spurious), i, p');
    }
  }

  /** An entry moves between a hand and its thread, or from hand to hand. */
  lemma HandBooks(q: Queue<nat>, threads: seq<Phase<nat>>, hands: seq<set<nat>>, place: seq<Place>,
                  threads': seq<Phase<nat>>, hands': seq<set<nat>>, e: nat, to: Place)
    requires Placed(q, threads, hands, place) && e < |place| && !place[e].InSlot? && !to.InSlot?
    requires |threads'| == |threads| && |hands'| == |hands|
    requires forall j, x: nat :: 0 <= j < |threads| && x != e ==> (Carries(threads'[j], x) <==> Carries(threads[j], x))
    requires forall j, x :: 0 <= j < |hands| && x != e ==> (x in hands'[j] <==> x in hands[j])
    requires forall j :: 0 <= j < |threads| ==> (Carries(threads'[j], e) <==> to == AtThread(j))
    requires forall j :: 0 <= j < |hands| ==> (e in hands'[j] <==> to == InHand(j))
    requires to.AtThread? ==> to.tid < |threads|
    requires to.InHand? ==> to.owner < |hands|
    ensures Placed(q, threads', hands', place[e := to])
  {
    var place' := place[e := to];
    forall x | 0 <= x < |place'| ensures Located(q, threads', hands', x, place'[x]) {
      assert Located(q, threads, hands, x, place[x]);
    }
  }

  /** A new element enters with thread i. */
  lemma GrowBooks(q: Queue<nat>, threads: seq<Phase<nat>>, hands: seq<set<nat>>, place: seq<Place>, i: nat)
    requires Placed(q, threads, hands, place) && i < |threads| && threads[i].Idle?
    ensures Placed(q, threads[i := PushAdd(|place|)], hands, place + [AtThread(i)])
  {
    var threads', place' := threads[i := PushAdd(|place|)], place + [AtThread(i)];
    forall x | 0 <= x < |place'| ensures Located(q, threads', hands, x, place'[x]) {
      assert x < |place| ==> Located(q, threads, hands, x, place[x]);
    }
    forall j, x: nat | 0 <= j < |threads'| && Carries(threads'[j], x) ensures x < |place'| && place'[x] == AtThread(j) {
      assert j != i ==> Carries(threads[j], x);
    }
  }

  /** An element is in a slot, with a thread or in a hand. */
  ghost predicate Somewhere(q: Queue<nat>, threads: seq<Phase<nat>>, hands: seq<set<nat>>, e: nat) {
    || (exists r :: 0 <= r < |q.cells| && q.cells[r].slot == Full(e))
    || (exists i :: 0 <= i < |threads| && Carries(threads[i], e))
    || (exists i :: 0 <= i < |hands| && e in hands[i])
  }

  /** An element is where the books say, and nowhere else. */
  lemma OnePlace(q: Queue<nat>, threads: seq<Phase<nat>>, hands: seq<set<nat>>, place: seq<Place>, e: nat)
    requires Placed(q, threads, hands, place) && e < |place|
    ensures Located(q, threads, hands, e, place[e]) && Somewhere(q, threads, hands, e)
    ensures forall r :: 0 <= r < |q.cells| ==> (q.cells[r].slot == Full(e) <==> place[e] == InSlot(r))
    ensures forall i :: 0 <= i < |threads| ==> (Carries(threads[i], e) <==> place[e] == AtThread(i))
    ensures forall i :: 0 <= i < |hands| ==> (e in hands[i] <==> place[e] == InHand(i))
  {
    assert Located(q, threads, hands, e, place[e]);
  }

  // ---------------------------------------------------------------- counting elements

  ghost function Resting(place: seq<Place>): set<nat> {
    set e | 0 <= e < |place| && place[e].InSlot?
  }

  /** Elements whose thread has a ticket and waits for the slot. */
  ghost function StoringSet(threads: seq<Phase<nat>>, place: seq<Place>): set<nat> {
    set e | 0 <= e < |place| && place[e].AtThread? && place[e].tid < |threads| && threads[place[e].tid].Storing?
  }

  ghost function FullLanes(cells: seq<Cell<nat>>): set<nat> {
    set r | 0 <= r < |cells| && cells[r].slot.Full?
  }

  lemma {:induction false} FullLanesCount(cells: seq<Cell<nat>>)
    ensures |FullLanes(cells)| == Occupied(cells)
  {
    if cells != [] {
      var n := |cells| - 1;
      FullLanesCount(cells[..n]);
      if cells[n].slot.Full? {
        assert FullLanes(cells) == FullLanes(cells[..n]) + {n};
      } else {
        assert FullLanes(cells) == FullLanes(cells[..n]);
      }
    }
  }

  lemma RestingCount(q: Queue<nat>, threads: seq<Phase<nat>>, hands: seq<set<nat>>, place: seq<Place>)
    requires Placed(q, threads, hands, place)
    ensures |Resting(place)| == Occupied(q.cells)
  {
    var f := map e | e in Resting(place) :: place[e].slotNo;
    forall r | r in FullLanes(q.cells) ensures exists e :: e in f && f[e] == r {
      assert q.cells[r].slot.elem in f && f[q.cells[r].slot.elem] == r;
    }
    assert forall e :: e in f ==> Located(q, threads, hands, e, place[e]);
    InjectiveCard(f, FullLanes(q.cells));
    assert f.Keys == Resting(place);
    FullLanesCount(q.cells);
  }

  /** The pending put tickets and the elements their threads carry. */
  lemma CarriedByStorer(s: System<nat>, hands: seq<set<nat>>, place: seq<Place>, t: nat) returns (e: nat)
    requires Placed(s.queue, s.threads, hands, place) && OwnersOk(s.queue, s.threads) && t in s.queue.puts
    ensures e in StoringSet(s.threads, place) && place[e] == AtThread(s.queue.puts[t])
    ensures s.threads[s.queue.puts[t]] == Storing(e, t)
  {
    e := s.threads[s.queue.puts[t]].elem;
    assert Carries(s.threads[s.queue.puts[t]], e);
  }

  lemma StoringCount(s: System<nat>, hands: seq<set<nat>>, place: seq<Place>)
    requires Placed(s.queue, s.threads, hands, place) && OwnersOk(s.queue, s.threads) && PhasesOk(s.queue, s.threads)
    ensures |StoringSet(s.threads, place)| == |s.queue.puts.Keys|
  {
    var q, threads := s.queue, s.threads;
    var f := map e | e in StoringSet(threads, place) :: threads[place[e].tid].ticket;
    forall e | e in f ensures f[e] in q.puts && q.puts[f[e]] == place[e].tid && threads[place[e].tid].elem == e {
      assert Located(q, threads, hands, e, place[e]) && PhaseOk(q, place[e].tid, threads[place[e].tid]);
    }
    forall t | t in q.puts.Keys ensures exists e :: e in f && f[e] == t {
      var e := CarriedByStorer(s, hands, place, t);
      assert e in f && f[e] == t;
    }
    InjectiveCard(f, q.puts.Keys);
    assert f.Keys == StoringSet(threads, place);
  }
}
