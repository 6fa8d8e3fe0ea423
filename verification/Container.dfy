/** `ConcurrentContainer` as an exclusive free list: its entries wait in the lock-free queue,
    clients take one with the blocking pop and give it back with tryPush. */
module Containers {
  import opened Residues
  import opened TicketQueue
  import opened TicketOrder
  import opened QueueThreads
  import opened QueueRuns
  import opened QueueMachine
  import opened Places

  /** Entries are 0 .. |place|-1; `hands[i]` are those client i holds between its calls. */
  datatype Container = Container(sys: System<nat>, hands: seq<set<nat>>, place: seq<Place>)

  datatype Event =
    | Acquire(tid: nat)
    | Return(tid: nat, entry: nat)
    | AskSize(tid: nat)
    | Run(tid: nat, spurious: bool)
    | Leave(tid: nat)
    | Pass(tid: nat, other: nat, entry: nat)

  /** The constructor's loop after k entries: each tryPush claims and stores undisturbed. */
  function Filled(m: nat, k: nat): (q: Queue<nat>)
    requires m > 0
    ensures |q.cells| == m
  {
    if k == 0 then NewQueue(m) else Put(ClaimPut(Filled(m, k - 1), 0, k - 1), k - 1, k - 1)
  }

  function NewContainer(m: nat, size: nat, n: nat): Container
    requires m > 0
  {
    Container(System(Filled(m, size), seq(n, _ => Idle)), seq(n, _ => {}),
              seq(size, k requires 0 <= k => InSlot(k)))
  }

  function Act(c: Container, a: Action<nat>): System<nat>
    requires |c.sys.queue.cells| > 0
  {
    QueueThreads.Next(c.sys, a)
  }

  function Next(c: Container, a: Event): (c': Container)
    requires |c.sys.queue.cells| > 0
    ensures |c'.sys.queue.cells| == |c.sys.queue.cells|
  {
    var i := a.tid;
    if i >= |c.sys.threads| || i >= |c.hands| then c
    else
      var p := c.sys.threads[i];
      match a
      case Acquire(_) => c.(sys := Act(c, Invoke(i, Pop)))
      case AskSize(_) => c.(sys := Act(c, Invoke(i, Size)))
      case Return(_, e) =>
        if p.Idle? && e in c.hands[i] && e < |c.place| then
          Container(Act(c, Invoke(i, TryPush(e))), c.hands[i := c.hands[i] - {e}], c.place[e := AtThread(i)])
        else c
      case Run(_, spurious) => 
        Container(Act(c, Step(i, spurious)), c.hands, Moved(c.sys.queue, c.sys.threads, c.place, i, spurious))
      case Leave(_) =>
        if p.Done? && (p.reply.Got? || p.reply.Refused?) && p.reply.elem < |c.place| then
          Container(Act(c, Collect(i)), c.hands[i := c.hands[i] + {p.reply.elem}],
                    c.place[p.reply.elem := InHand(i)])
        else c.(sys := Act(c, Collect(i)))
      case Pass(_, j, e) =>
        if j < |c.hands| && e in c.hands[i] && e < |c.place| then
          var without := c.hands[i := c.hands[i] - {e}];
          c.(hands := without[j := without[j] + {e}], place := c.place[e := InHand(j)])
        else c
  }

  function Exec(c: Container, schedule: seq<Event>): (c': Container)
    requires |c.sys.queue.cells| > 0
    ensures |c'.sys.queue.cells| == |c.sys.queue.cells|
    decreases |schedule|
  {
    if schedule == [] then c else Exec(Next(c, schedule[0]), schedule[1..])
  }

  // ---------------------------------------------------------------- invariant

  ghost predicate Inv(c: Container) {
    && SysInv(c.sys)
    && |c.hands| == |c.sys.threads|
    && |c.place| <= |c.sys.queue.cells|
    && Placed(c.sys.queue, c.sys.threads, c.hands, c.place)
    && NoneRefused(c.sys.threads)
  }

  // ---------------------------------------------------------------- counting entries

  ghost function Held(c: Container): set<nat> {
    set e | 0 <= e < |c.place| && c.place[e].InHand?
  }

  ghost predicate Books(c: Container) {
    Placed(c.sys.queue, c.sys.threads, c.hands, c.place)
  }

  lemma DisjointWithin(a: set<nat>, b: set<nat>, e: nat, n: nat)
    requires a !! b && e !in a + b && e < n && forall i :: i in a + b ==> i < n
    ensures |a| + |b| < n
  {
    var all := Below(n);
    SubsetCard(a + b + {e}, all);
  }

  lemma Elsewhere(c: Container, i: nat, e: nat)
    requires Books(c) && i < |c.sys.threads| && Carries(c.sys.threads[i], e) && !c.sys.threads[i].Storing?
    ensures e < |c.place| && e !in Resting(c.place) && e !in StoringSet(c.sys.threads, c.place)
  {
  }

  /** An entry a thread carries outside the queue is missing from the queue. */
  lemma OneMissing(c: Container, e: nat)
    requires |Resting(c.place)| == Occupied(c.sys.queue.cells)
    requires |StoringSet(c.sys.threads, c.place)| == |c.sys.queue.puts.Keys|
    requires e < |c.place| && e !in Resting(c.place) && e !in StoringSet(c.sys.threads, c.place)
    ensures Occupied(c.sys.queue.cells) + |c.sys.queue.puts.Keys| < |c.place|
  {
    DisjointWithin(Resting(c.place), StoringSet(c.sys.threads, c.place), e, |c.place|);
  }

  /** A client that is giving an entry back always finds room: the queue can hold all entries
      and this one is not in it, even while blocked pops have pushed tail past head. */
  lemma RoomForReturn(c: Container, i: nat, e: nat, h: nat)
    requires Inv(c) && i < |c.sys.threads| && c.sys.threads[i] == TryPushTest(e, h)
    ensures h - c.sys.queue.tail < |c.sys.queue.cells|
  {
    Elsewhere(c, i, e);
    RestingCount(c.sys.queue, c.sys.threads, c.hands, c.place);
    StoringCount(c.sys, c.hands, c.place);
    OneMissing(c, e);
    GapAccount(c.sys);
    assert PhaseOk(c.sys.queue, i, c.sys.threads[i]);
  }

  // ---------------------------------------------------------------- every event keeps the books

  lemma CallBooks(c: Container, a: Event)
    requires Books(c) && |c.sys.queue.cells| > 0 && |c.hands| == |c.sys.threads| && a.tid < |c.hands|
    requires a.Acquire? || a.AskSize?
    ensures Books(Next(c, a))
  {
    var c' := Next(c, a);
    KeepBooks(c.sys.queue, c.sys.threads, c.hands, c.place, c'.sys.queue, a.tid, c'.sys.threads[a.tid]);
    assert c'.sys.threads == c.sys.threads[a.tid := c'.sys.threads[a.tid]];
  }

  lemma ReturnBooks(c: Container, a: Event)
    requires Books(c) && |c.sys.queue.cells| > 0 && |c.hands| == |c.sys.threads| && a.tid < |c.hands| && a.Return?
    ensures Books(Next(c, a))
  {
    var c' := Next(c, a);
    if c.sys.threads[a.tid].Idle? && a.entry in c.hands[a.tid] && a.entry < |c.place| {
      HandBooks(c.sys.queue, c.sys.threads, c.hands, c.place, c'.sys.threads, c'.hands, a.entry, AtThread(a.tid));
    }
  }

  lemma LeaveBooks(c: Container, a: Event)
    requires Books(c) && |c.sys.queue.cells| > 0 && |c.hands| == |c.sys.threads| && a.tid < |c.hands| && a.Leave?
    ensures Books(Next(c, a))
  {
    var c', i := Next(c, a), a.tid;
    var p := c.sys.threads[i];
    if p.Done? && (p.reply.Got? || p.reply.Refused?) {
      assert Carries(p, p.reply.elem);
      HandBooks(c.sys.queue, c.sys.threads, c.hands, c.place, c'.sys.threads, c'.hands, p.reply.elem, InHand(i));
    } else {
      KeepBooks(c.sys.queue, c.sys.threads, c.hands, c.place, c'.sys.queue, i, c'.sys.threads[i]);
      assert c'.sys.threads == c.sys.threads[i := c'.sys.threads[i]];
    }
  }

  lemma PassBooks(c: Container, a: Event)
    requires Books(c) && |c.sys.queue.cells| > 0 && |c.hands| == |c.sys.threads| && a.tid < |c.hands| && a.Pass?
    ensures Books(Next(c, a))
  {
    var c' := Next(c, a);
    if a.other < |c.hands| && a.entry in c.hands[a.tid] && a.entry < |c.place| {
      HandBooks(c.sys.queue, c.sys.threads, c.hands, c.place, c'.sys.threads, c'.hands, a.entry, InHand(a.other));
    }
  }

  lemma NextBooks(c: Container, a: Event)
    requires Books(c) && |c.sys.queue.cells| > 0 && |c.hands| == |c.sys.threads|
    ensures Books(Next(c, a)) && |Next(c, a).hands| == |Next(c, a).sys.threads|
  {
    if a.tid < |c.hands| {
      match a
      case Acquire(_) => CallBooks(c, a);
      case AskSize(_) => CallBooks(c, a);
      case Return(_, _) => ReturnBooks(c, a);
      case Run(i, spurious) => RunBooks(c.sys.queue, c.sys.threads, c.hands, c.place, i, spurious);
      case Leave(_) => LeaveBooks(c, a);
      case Pass(_, _, _) => PassBooks(c, a);
    }
  }

  ghost predicate NoneRefused(threads: seq<Phase<nat>>) {
    forall i :: 0 <= i < |threads| ==> !(threads[i].Done? && threads[i].reply.Refused?)
  }

  ghost predicate RoomForAll(s: System<nat>) {
    forall i :: 0 <= i < |s.threads| && s.threads[i].TryPushTest? ==> s.threads[i].head - s.queue.tail < |s.queue.cells|
  }

  lemma InvGivesRoom(c: Container)
    requires Inv(c)
    ensures RoomForAll(c.sys)
  {
    forall i | 0 <= i < |c.sys.threads| && c.sys.threads[i].TryPushTest?
      ensures c.sys.threads[i].head - c.sys.queue.tail < |c.sys.queue.cells|
    {
      RoomForReturn(c, i, c.sys.threads[i].elem, c.sys.threads[i].head);
    }
  }

  lemma NextUnrefused(c: Container, a: Event)
    requires NoneRefused(c.sys.threads) && |c.sys.queue.cells| > 0
    requires RoomForAll(c.sys)
    ensures NoneRefused(Next(c, a).sys.threads)
  {
  }

  /** The queue action behind an event. */
  function QueueAction(a: Event): Action<nat> {
    match a
    case Acquire(i) => Invoke(i, Pop)
    case AskSize(i) => Invoke(i, Size)
    case Return(i, e) => Invoke(i, TryPush(e))
    case Run(i, spurious) => Step(i, spurious)
    case Leave(i) => Collect(i)
    case Pass(i, _, _) => Collect(i)
  }

  lemma EventIsAction(c: Container, a: Event)
    requires |c.sys.queue.cells| > 0
    ensures Next(c, a).sys == c.sys || Next(c, a).sys == QueueThreads.Next(c.sys, QueueAction(a))
  {
  }

  lemma NextSystem(c: Container, a: Event)
    requires SysInv(c.sys)
    ensures SysInv(Next(c, a).sys)
  {
    EventIsAction(c, a);
    QueueThreads.NextInv(c.sys, QueueAction(a));
  }

  lemma NextInv(c: Container, a: Event)
    requires Inv(c)
    ensures Inv(Next(c, a)) && |Next(c, a).place| == |c.place|
  {
    InvGivesRoom(c);
    NextUnrefused(c, a);
    NextBooks(c, a);
    NextSystem(c, a);
    NextPlaces(c, a);
    InvIs(Next(c, a));
  }

  lemma NextPlaces(c: Container, a: Event)
    requires |c.sys.queue.cells| > 0
    ensures |Next(c, a).place| == |c.place|
  {
  }

  lemma InvIs(c: Container)
    requires SysInv(c.sys) && |c.hands| == |c.sys.threads| && |c.place| <= |c.sys.queue.cells|
    requires Books(c) && NoneRefused(c.sys.threads)
    ensures Inv(c)
  {
  }

  lemma {:induction false} ExecInv(c: Container, schedule: seq<Event>)
    requires Inv(c)
    ensures Inv(Exec(c, schedule)) && |Exec(c, schedule).place| == |c.place|
    decreases |schedule|
  {
    if schedule != [] {
      NextInv(c, schedule[0]);
      ExecInv(Next(c, schedule[0]), schedule[1..]);
    }
  }

  lemma {:induction false} FilledSlots(m: nat, k: nat)
    requires 0 < m && k <= m
    ensures var q := Filled(m, k);
            && q.head == k && q.tail == 0 && q.puts == map[] && q.takes == map[]
            && (forall r :: 0 <= r < m ==> q.cells[r].slot == if r < k then Full(r) else Nil)
  {
    if k > 0 {
      FilledSlots(m, k - 1);
      assert map[k - 1 := 0] - {k - 1} == map[];
    }
  }

  lemma {:induction false} FilledHead(m: nat, k: nat)
    requires 0 < m
    ensures Filled(m, k).head == k
  {
    if k > 0 {
      FilledHead(m, k - 1);
    }
  }

  lemma EmptyFilled(m: nat, k: nat)
    requires 0 < m && k == 0
    ensures TicketQueue.Inv(Filled(m, k))
  {
    NewQueueInv<nat>(m);
  }

  lemma FilledNext(m: nat, j: nat, k: nat)
    requires 0 < m && k == j + 1 && TicketQueue.Inv(Filled(m, j))
    ensures TicketQueue.Inv(Filled(m, k))
  {
    FilledHead(m, j);
    FilledOneMore(m, j, k);
    FillStep(Filled(m, j), j, Filled(m, k));
  }

  lemma FilledOneMore(m: nat, j: nat, k: nat)
    requires 0 < m && k == j + 1
    ensures Filled(m, k) == Put(ClaimPut(Filled(m, j), 0, j), j, j)
  {
  }

  lemma {:induction false} FilledInv(m: nat, k: nat)
    requires 0 < m
    ensures TicketQueue.Inv(Filled(m, k))
  {
    if k == 0 {
      EmptyFilled(m, k);
    } else {
      var j := k - 1;
      FilledInv(m, j);
      FilledNext(m, j, k);
    }
  }

  lemma FillStep(q: Queue<nat>, k: nat, q': Queue<nat>)
    requires TicketQueue.Inv(q) && q.head == k && q' == Put(ClaimPut(q, 0, k), k, k)
    ensures TicketQueue.Inv(q')
  {
    var claimed := ClaimPut(q, 0, k);
    ClaimPutInv(q, 0, k);
    assert claimed.claimed[k] == k by { assert PutsOk(q); }
    PutInv(claimed, k, k);
  }

  lemma NewSystemOk(m: nat, size: nat, n: nat)
    requires 0 < m && size <= m
    ensures SysInv(NewContainer(m, size, n).sys)
  {
    FilledInv(m, size);
    FilledSlots(m, size);
  }

  lemma NewContainerInv(m: nat, size: nat, n: nat)
    requires 0 < m && size <= m
    ensures Inv(NewContainer(m, size, n))
  {
    NewSystemOk(m, size, n);
    NewBooks(m, size, n);
  }

  lemma NewBooks(m: nat, size: nat, n: nat)
    requires 0 < m && size <= m
    ensures Books(NewContainer(m, size, n))
  {
    FilledSlots(m, size);
  }

  // ---------------------------------------------------------------- main results

  /** In every interleaving each entry is in exactly one slot, or with exactly one thread on
      its way, or in exactly one client's hands. */
  lemma EntriesAreExclusive(m: nat, size: nat, n: nat, schedule: seq<Event>, e: nat)
    requires 0 < m && size <= m && e < size
    ensures var c := Exec(NewContainer(m, size, n), schedule);
            && e < |c.place| && Somewhere(c.sys.queue, c.sys.threads, c.hands, e)
            && (forall r :: 0 <= r < m ==> (c.sys.queue.cells[r].slot == Full(e) <==> c.place[e] == InSlot(r)))
            && (forall i :: 0 <= i < |c.sys.threads| ==> (Carries(c.sys.threads[i], e) <==> c.place[e] == AtThread(i)))
            && (forall i :: 0 <= i < |c.hands| ==> (e in c.hands[i] <==> c.place[e] == InHand(i)))
  {
    var c := Exec(NewContainer(m, size, n), schedule);
    NewContainerInv(m, size, n);
    ExecInv(NewContainer(m, size, n), schedule);
    OnePlace(c.sys.queue, c.sys.threads, c.hands, c.place, e);
  }

  /** Giving back a held entry never fails. */
  lemma ReturnNeverFails(m: nat, size: nat, n: nat, schedule: seq<Event>)
    requires 0 < m && size <= m
    ensures NoneRefused(Exec(NewContainer(m, size, n), schedule).sys.threads)
  {
    NewContainerInv(m, size, n);
    ExecInv(NewContainer(m, size, n), schedule);
  }

  /** Between calls, `size()` is the number of entries in clients' hands. */
  lemma QuietSize(c: Container)
    requires Inv(c) && forall i :: 0 <= i < |c.sys.threads| ==> c.sys.threads[i].Idle?
    ensures |c.place| - Max(c.sys.queue.head - c.sys.queue.tail, 0) == |Held(c)|
  {
    GapAccount(c.sys);
    QuietClaims(c.sys);
    RestingCount(c.sys.queue, c.sys.threads, c.hands, c.place);
    QuietPlaces(c);
  }

  lemma QuietClaims(s: System<nat>)
    requires OwnersOk(s.queue, s.threads) && forall i :: 0 <= i < |s.threads| ==> s.threads[i].Idle?
    ensures s.queue.puts.Keys == {} && s.queue.takes.Keys == {}
  {
  }

  lemma QuietPlaces(c: Container)
    requires Books(c) && forall i :: 0 <= i < |c.sys.threads| ==> c.sys.threads[i].Idle?
    ensures |c.place| == |Resting(c.place)| + |Held(c)|
  {
    var all := Below(|c.place|);
    assert Resting(c.place) !! Held(c);
    forall e: nat | e in all ensures e in Resting(c.place) + Held(c) {
      assert Located(c.sys.queue, c.sys.threads, c.hands, e, c.place[e]);
    }
    assert all == Resting(c.place) + Held(c);
  }
}
