/** Theorems about whole runs of the MPMC queue. */
module QueueRuns {
  import opened Residues
  import opened TicketQueue
  import opened TicketOrder
  import opened QueueThreads

  // ---------------------------------------------------------------- replies

  /** A refused tryPush met a full queue and a failed tryPop an empty one, at the very step
      that decided it, although the other counter was loaded earlier; an accepted try met
      room, or an element, at its claim. */
  lemma TryOutcomeJustified<E>(s: System<E>, i: nat, spurious: bool)
    requires SysInv(s) && i < |s.threads|
    ensures var q, p, p' := s.queue, s.threads[i], Next(s, Step(i, spurious)).threads[i];
            && (p.TryPushTest? ==> p' == Done(Refused(p.elem)) || p' == TryPushCas(p.elem, p.head))
            && (p.TryPopTest? ==> p' == Done(Nothing) || p' == TryPopCas(p.tail))
            && (p.TryPushTest? && p'.Done? ==> q.head - q.tail >= |q.cells|)
            && (p.TryPopTest? && p'.Done? ==> q.head - q.tail <= 0)
            && (p.TryPushCas? && p'.Storing? ==> q.head - q.tail < |q.cells| && p'.ticket == q.head)
            && (p.TryPopCas? && p'.Taking? ==> q.head - q.tail > 0 && p'.ticket == q.tail)
  {
    assert PhaseOk(s.queue, i, s.threads[i]);
  }

  /** A pop returns an element that one push brought to the same lane, and from then on that
      push counts as delivered to this pop. */
  lemma PopReturnsPushed<E>(s: System<E>, i: nat, spurious: bool) returns (t: nat)
    requires SysInv(s) && i < |s.threads| && s.threads[i].Taking?
    requires Next(s, Step(i, spurious)).threads[i].Done?
    ensures var q', u := Next(s, Step(i, spurious)).queue, s.threads[i].ticket;
            && Delivered(q', t, u) && t < |q'.claimed| && LaneOf(q', t) == LaneOf(q', u)
            && Next(s, Step(i, spurious)).threads[i] == Done(Got(q'.claimed[t]))
            && (forall v :: !Delivered(s.queue, t, v))
  {
    var u, q, q' := s.threads[i].ticket, s.queue, Next(s, Step(i, spurious)).queue;
    assert PhaseOk(q, i, s.threads[i]);
    var r := LaneOf(q, u);
    LaneBooks(q, r);
    var k := |q.cells[r].taken|;
    t := q.cells[r].written[k].ticket;
    assert DeliveredAt(q', r, k, t, u);
    assert Stored(q, t);
    PushOnce(q, t);
  }

  /** head - tail counts the stored elements and the waiting pushes less the waiting pops. */
  lemma GapAccount<E>(s: System<E>)
    requires SysInv(s)
    ensures s.queue.head - s.queue.tail == |s.queue.puts.Keys| + Occupied(s.queue.cells) - |s.queue.takes.Keys|
  {
    OccupiedIsDifference(s.queue.cells);
  }

  /** Exactly-once delivery in every run of any mix of operations: each claimed push is waiting,
      stored, or delivered to exactly one pop, and each finished pop received the element of
      exactly one push, which no other pop received. */
  lemma ExactlyOnce<E>(m: nat, n: nat, schedule: seq<Action<E>>, q: Queue<E>, t: nat)
    requires m > 0 && q == Exec(NewSystem<E>(m, n), schedule).queue
    ensures |q.cells| > 0
    ensures t < q.head ==>
              && (t in q.puts || Stored(q, t) || exists u :: Delivered(q, t, u))
              && !(t in q.puts && Stored(q, t))
              && (forall u :: Delivered(q, t, u) ==> t !in q.puts && !Stored(q, t))
              && (forall u, v :: Delivered(q, t, u) && Delivered(q, t, v) ==> u == v)
    ensures t < q.tail && t !in q.takes ==>
              && (exists s :: Delivered(q, s, t))
              && (forall s, r :: Delivered(q, s, t) && Delivered(q, r, t) ==> s == r)
  {
    NewSystemInv<E>(m, n);
    ExecInv(NewSystem<E>(m, n), schedule);
    assert Inv(q);
    if t < q.head {
      PushSomewhere(q, t);
      PushOnce(q, t);
    }
    if t < q.tail && t !in q.takes {
      PopSource(q, t);
    }
  }

  function Elems<E>(items: seq<Item<E>>): seq<E> { seq(|items|, k requires 0 <= k < |items| => items[k].elem) }

  lemma CellIsFifo<E>(l: Cell<E>)
    requires CellOk(l)
    ensures Elems(l.written) == Elems(l.taken) + (if l.slot.Full? then [l.slot.elem] else [])
  {
  }

  /** In any run whatsoever each slot is a FIFO channel: what its pops took, followed by what it
      holds now, is what its pushes wrote, in that order; and all of them had its tickets. */
  lemma LanesAreFifo<E>(m: nat, n: nat, schedule: seq<Action<E>>, r: nat, l: Cell<E>)
    requires r < m && l == Exec(NewSystem<E>(m, n), schedule).queue.cells[r]
    ensures Elems(l.written) == Elems(l.taken) + (if l.slot.Full? then [l.slot.elem] else [])
    ensures forall k :: 0 <= k < |l.written| ==> l.written[k].ticket % m == r
    ensures forall k :: 0 <= k < |l.taken| ==> l.taken[k].ticket % m == r
  {
    NewSystemInv<E>(m, n);
    ExecInv(NewSystem<E>(m, n), schedule);
    LaneBooks(Exec(NewSystem<E>(m, n), schedule).queue, r);
    CellIsFifo(l);
    forall k | 0 <= k < |l.written| ensures l.written[k].ticket % m == r {
      LaneIsModulo(l.written[k].ticket, m);
    }
    forall k | 0 <= k < |l.taken| ensures l.taken[k].ticket % m == r {
      LaneIsModulo(l.taken[k].ticket, m);
    }
  }

  // ---------------------------------------------------------------- deadlock

  ghost predicate SystemStuck<E>(s: System<E>)
    requires |s.queue.cells| > 0
  {
    forall i :: 0 <= i < |s.threads| ==> !CanMove(s.queue, s.threads[i])
  }

  function Storers<E>(s: System<E>): set<nat> {
    set i | 0 <= i < |s.threads| && s.threads[i].Storing?
  }

  function Takers<E>(s: System<E>): set<nat> {
    set i | 0 <= i < |s.threads| && s.threads[i].Taking?
  }

  lemma {:induction false} InjectiveCard(f: map<nat, nat>, image: set<nat>)
    requires forall t :: t in f ==> f[t] in image
    requires forall i :: i in image ==> exists t :: t in f && f[t] == i
    requires forall t, u :: t in f && u in f && t != u ==> f[t] != f[u]
    ensures |f.Keys| == |image|
    decreases f.Keys
  {
    if f.Keys == {} {
      assert image == {};
    } else {
      var t :| t in f;
      var f', image' := f - {t}, image - {f[t]};
      assert f'.Keys == f.Keys - {t};
      forall i | i in image' ensures exists u :: u in f' && f'[u] == i {
        var u :| u in f && f[u] == i;
        assert u in f' && f'[u] == i;
      }
      InjectiveCard(f', image');
    }
  }

  lemma WaitersAreThreads<E>(s: System<E>)
    requires SysInv(s)
    ensures |s.queue.puts.Keys| == |Storers(s)| && |s.queue.takes.Keys| == |Takers(s)|
  {
    var q := s.queue;
    forall i | i in Storers(s) ensures exists t :: t in q.puts && q.puts[t] == i {
      assert PhaseOk(q, i, s.threads[i]);
      assert s.threads[i].ticket in q.puts && q.puts[s.threads[i].ticket] == i;
    }
    forall i | i in Takers(s) ensures exists t :: t in q.takes && q.takes[t] == i {
      assert PhaseOk(q, i, s.threads[i]);
      assert s.threads[i].ticket in q.takes && q.takes[s.threads[i].ticket] == i;
    }
    InjectiveCard(q.puts, Storers(s));
    InjectiveCard(q.takes, Takers(s));
  }

  lemma StuckSystemStuckQueue<E>(s: System<E>)
    requires |s.queue.cells| > 0 && OwnersOk(s.queue, s.threads) && SystemStuck(s)
    ensures Stuck(s.queue)
  {
    var q := s.queue;
    forall t | t in q.puts ensures q.cells[LaneOf(q, t)].slot.Full? {
      assert !CanMove(q, s.threads[q.puts[t]]);
    }
    forall t | t in q.takes ensures q.cells[LaneOf(q, t)].slot.Nil? {
      assert !CanMove(q, s.threads[q.takes[t]]);
    }
  }

  lemma StuckSystemShape<E>(s: System<E>)
    requires SysInv(s) && SystemStuck(s)
    ensures var gap := s.queue.head - s.queue.tail;
            && (gap <= 0 ==> Occupied(s.queue.cells) == 0 && |Storers(s)| == 0 && |Takers(s)| == -gap)
            && (gap >= 0 ==> Occupied(s.queue.cells) == Min(gap, |s.queue.cells|) && |Takers(s)| == 0
                             && |Storers(s)| == Max(gap - |s.queue.cells|, 0))
  {
    StuckSystemStuckQueue(s);
    StuckShape(s.queue);
    WaitersAreThreads(s);
    OccupiedExtremes(s.queue.cells);
  }

  /** Blocking pushes and pops never deadlock each other: in any run, when no claimed
      operation can move, only surplus pops wait on an empty queue, or only surplus pushes
      wait on a queue that is as full as the surplus allows. */
  lemma NoMutualDeadlock<E>(m: nat, n: nat, schedule: seq<Action<E>>, s: System<E>)
    requires m > 0 && s == Exec(NewSystem<E>(m, n), schedule) && SystemStuck(s)
    ensures var gap := s.queue.head - s.queue.tail;
            && (gap <= 0 ==> Occupied(s.queue.cells) == 0 && |Storers(s)| == 0 && |Takers(s)| == -gap)
            && (gap >= 0 ==> Occupied(s.queue.cells) == Min(gap, m) && |Takers(s)| == 0
                             && |Storers(s)| == Max(gap - m, 0))
  {
    NewSystemInv<E>(m, n);
    ExecInv(NewSystem<E>(m, n), schedule);
    StuckSystemShape(s);
  }

  // ---------------------------------------------------------------- runs without blocking pops or pushes

  predicate NoBlockingPop<E>(a: Action<E>) { a.Invoke? ==> !a.op.Pop? }
  predicate NoBlockingPush<E>(a: Action<E>) { a.Invoke? ==> !a.op.Push? }

  predicate PopsTry<E>(schedule: seq<Action<E>>) {
    forall k :: 0 <= k < |schedule| ==> NoBlockingPop(schedule[k])
  }

  predicate PushesTry<E>(schedule: seq<Action<E>>) {
    forall k :: 0 <= k < |schedule| ==> NoBlockingPush(schedule[k])
  }

  predicate TryOnly<E>(schedule: seq<Action<E>>) {
    PopsTry(schedule) && PushesTry(schedule)
  }

  predicate PopsBounded<E>(s: System<E>) {
    && s.queue.tail <= s.queue.head
    && (forall i :: 0 <= i < |s.threads| ==> !s.threads[i].PopAdd?)
  }

  predicate PushesBounded<E>(s: System<E>) {
    && s.queue.head <= s.queue.tail + |s.queue.cells|
    && (forall i :: 0 <= i < |s.threads| ==> !s.threads[i].PushAdd?)
  }

  lemma NextPopsBounded<E>(s: System<E>, a: Action<E>)
    requires |s.queue.cells| > 0 && PhasesOk(s.queue, s.threads) && PopsBounded(s) && NoBlockingPop(a)
    ensures PopsBounded(Next(s, a))
  {
    assert a.tid < |s.threads| ==> PhaseOk(s.queue, a.tid, s.threads[a.tid]);
  }

  lemma NextPushesBounded<E>(s: System<E>, a: Action<E>)
    requires |s.queue.cells| > 0 && PhasesOk(s.queue, s.threads) && PushesBounded(s) && NoBlockingPush(a)
    ensures PushesBounded(Next(s, a))
  {
    assert a.tid < |s.threads| ==> PhaseOk(s.queue, a.tid, s.threads[a.tid]);
  }

  /** Without blocking pops, stale loads and CAS retries never push tail past head. */
  lemma {:induction false} ExecPopsBounded<E>(s: System<E>, schedule: seq<Action<E>>)
    requires SysInv(s) && PopsBounded(s) && PopsTry(schedule)
    ensures PopsBounded(Exec(s, schedule))
    decreases |schedule|
  {
    if schedule != [] {
      assert NoBlockingPop(schedule[0]);
      NextInv(s, schedule[0]);
      NextPopsBounded(s, schedule[0]);
      ExecPopsBounded(Next(s, schedule[0]), schedule[1..]);
    }
  }

  /** Without blocking pushes they never push head past tail + m_size. */
  lemma {:induction false} ExecPushesBounded<E>(s: System<E>, schedule: seq<Action<E>>)
    requires SysInv(s) && PushesBounded(s) && PushesTry(schedule)
    ensures PushesBounded(Exec(s, schedule))
    decreases |schedule|
  {
    if schedule != [] {
      assert NoBlockingPush(schedule[0]);
      NextInv(s, schedule[0]);
      NextPushesBounded(s, schedule[0]);
      ExecPushesBounded(Next(s, schedule[0]), schedule[1..]);
    }
  }

  /** Another thread whose slot step, on the slot of thread i, is possible right now. */
  ghost predicate HasPartner<E>(s: System<E>, i: nat)
    requires |s.queue.cells| > 0 && i < |s.threads| && (s.threads[i].Storing? || s.threads[i].Taking?)
  {
    exists j :: 0 <= j < |s.threads| && CanMove(s.queue, s.threads[j])
                && LaneOf(s.queue, s.threads[j].ticket) == LaneOf(s.queue, s.threads[i].ticket)
  }

  lemma PushPartner<E>(s: System<E>, i: nat)
    requires |s.queue.cells| > 0 && OwnersOk(s.queue, s.threads) && i < |s.threads| && s.threads[i].Taking?
    requires !CanMove(s.queue, s.threads[i]) && PushNear(s.queue, s.threads[i].ticket)
    ensures HasPartner(s, i)
  {
    var q := s.queue;
    var u :| u in q.puts && LaneOf(q, u) == LaneOf(q, s.threads[i].ticket);
    assert CanMove(q, s.threads[q.puts[u]]);
  }

  lemma PopPartner<E>(s: System<E>, i: nat)
    requires |s.queue.cells| > 0 && OwnersOk(s.queue, s.threads) && i < |s.threads| && s.threads[i].Storing?
    requires !CanMove(s.queue, s.threads[i]) && PopNear(s.queue, s.threads[i].ticket)
    ensures HasPartner(s, i)
  {
    var q := s.queue;
    var u :| u in q.takes && LaneOf(q, u) == LaneOf(q, s.threads[i].ticket);
    assert CanMove(q, s.threads[q.takes[u]]);
  }

  lemma TakerProceeds<E>(s: System<E>, i: nat)
    requires SysInv(s) && s.queue.tail <= s.queue.head && i < |s.threads| && s.threads[i].Taking?
    ensures CanMove(s.queue, s.threads[i]) || HasPartner(s, i)
  {
    if !CanMove(s.queue, s.threads[i]) {
      assert PhaseOk(s.queue, i, s.threads[i]);
      WaitingPopHasPush(s.queue, s.threads[i].ticket);
      PushPartner(s, i);
    }
  }

  lemma StorerProceeds<E>(s: System<E>, i: nat)
    requires SysInv(s) && s.queue.head <= s.queue.tail + |s.queue.cells| && i < |s.threads| && s.threads[i].Storing?
    ensures CanMove(s.queue, s.threads[i]) || HasPartner(s, i)
  {
    if !CanMove(s.queue, s.threads[i]) {
      assert PhaseOk(s.queue, i, s.threads[i]);
      WaitingPushHasPop(s.queue, s.threads[i].ticket);
      PopPartner(s, i);
    }
  }

  /** In a run without blocking pops, whatever the pushes, no claimed pop is ever stuck: its
      slot is full, or a push that has claimed the slot can move. */
  lemma TryPopsProceed<E>(m: nat, n: nat, schedule: seq<Action<E>>, s: System<E>, i: nat)
    requires m > 0 && PopsTry(schedule) && s == Exec(NewSystem<E>(m, n), schedule) && i < n
    ensures s.queue.tail <= s.queue.head
    ensures s.threads[i].Taking? ==> CanMove(s.queue, s.threads[i]) || HasPartner(s, i)
  {
    NewSystemInv<E>(m, n);
    ExecInv(NewSystem<E>(m, n), schedule);
    ExecPopsBounded(NewSystem<E>(m, n), schedule);
    if s.threads[i].Taking? {
      TakerProceeds(s, i);
    }
  }

  /** In a run without blocking pushes, whatever the pops, no claimed push is ever stuck. */
  lemma TryPushesProceed<E>(m: nat, n: nat, schedule: seq<Action<E>>, s: System<E>, i: nat)
    requires m > 0 && PushesTry(schedule) && s == Exec(NewSystem<E>(m, n), schedule) && i < n
    ensures s.queue.head <= s.queue.tail + m
    ensures s.threads[i].Storing? ==> CanMove(s.queue, s.threads[i]) || HasPartner(s, i)
  {
    NewSystemInv<E>(m, n);
    ExecInv(NewSystem<E>(m, n), schedule);
    ExecPushesBounded(NewSystem<E>(m, n), schedule);
    if s.threads[i].Storing? {
      StorerProceeds(s, i);
    }
  }

  // ---------------------------------------------------------------- runs of tryPush and tryPop only

  predicate Bounded<E>(s: System<E>) {
    PopsBounded(s) && PushesBounded(s)
  }

  lemma TryRunsStayBounded<E>(m: nat, n: nat, schedule: seq<Action<E>>, s: System<E>)
    requires m > 0 && TryOnly(schedule) && s == Exec(NewSystem<E>(m, n), schedule)
    ensures SysInv(s) && Bounded(s) && 0 <= s.queue.head - s.queue.tail <= m
  {
    NewSystemInv<E>(m, n);
    ExecInv(NewSystem<E>(m, n), schedule);
    ExecPopsBounded(NewSystem<E>(m, n), schedule);
    ExecPushesBounded(NewSystem<E>(m, n), schedule);
  }

  /** Some claimed operation can move as long as there is one. */
  lemma ClaimedCanMove<E>(s: System<E>) returns (i: nat)
    requires SysInv(s) && Bounded(s) && Open(s) > 0
    ensures i < |s.threads| && CanMove(s.queue, s.threads[i])
  {
    var q := s.queue;
    if q.puts.Keys != {} {
      var t :| t in q.puts;
      i := q.puts[t];
      StorerProceeds(s, i);
    } else {
      var t :| t in q.takes;
      i := q.takes[t];
      TakerProceeds(s, i);
    }
    if !CanMove(q, s.threads[i]) {
      var j :| 0 <= j < |s.threads| && CanMove(q, s.threads[j]);
      i := j;
    }
  }

  /** The slot step of thread i, when it is possible, takes one claimed operation off. */
  lemma MoveFinishes<E>(s: System<E>, i: nat)
    requires |s.queue.cells| > 0 && i < |s.threads| && CanMove(s.queue, s.threads[i])
    requires PhaseOk(s.queue, i, s.threads[i])
    ensures var s' := Next(s, Step(i, false));
            && s'.threads[i].Done? && s'.queue.head == s.queue.head && s'.queue.tail == s.queue.tail
            && |s'.queue.puts.Keys| + |s'.queue.takes.Keys| == |s.queue.puts.Keys| + |s.queue.takes.Keys| - 1
  {
    var t := s.threads[i].ticket;
    if s.threads[i].Storing? {
      PutSettles(s.queue, t, s.threads[i].elem);
    } else {
      TakeSettles(s.queue, t);
    }
  }

  /** Claimed operations that have not reached their slot yet. */
  ghost function Open<E>(s: System<E>): nat { |s.queue.puts.Keys| + |s.queue.takes.Keys| }

  lemma OneFinishes<E>(s: System<E>) returns (i: nat, s': System<E>)
    requires SysInv(s) && Bounded(s) && Open(s) > 0
    ensures s' == Next(s, Step(i, false)) && SysInv(s') && Bounded(s') && Open(s') == Open(s) - 1
    ensures s'.queue.head == s.queue.head && s'.queue.tail == s.queue.tail
  {
    i := ClaimedCanMove(s);
    s' := Next(s, Step(i, false));
    NextInv(s, Step(i, false));
    NextPopsBounded(s, Step(i, false));
    NextPushesBounded(s, Step(i, false));
    assert PhaseOk(s.queue, i, s.threads[i]);
    MoveFinishes(s, i);
  }

  predicate Steps<E>(schedule: seq<Action<E>>) {
    forall k :: 0 <= k < |schedule| ==> schedule[k].Step? && !schedule[k].spurious
  }

  /** In a try-only run claimed operations need nobody else: each of them finishes, in some
      order, in one step apiece. */
  lemma {:induction false} ClaimedFinish<E>(s: System<E>) returns (schedule: seq<Action<E>>)
    requires SysInv(s) && Bounded(s)
    ensures |schedule| == Open(s) && Steps(schedule)
    ensures var s' := Exec(s, schedule);
            Open(s') == 0 && s'.queue.head == s.queue.head && s'.queue.tail == s.queue.tail
    decreases Open(s)
  {
    if Open(s) == 0 {
      schedule := [];
    } else {
      var i, s' := OneFinishes(s);
      var rest := ClaimedFinish(s');
      schedule := StepFirst(s, i, s', rest);
    }
  }

  lemma StepFirst<E>(s: System<E>, i: nat, s': System<E>, rest: seq<Action<E>>) returns (schedule: seq<Action<E>>)
    requires |s.queue.cells| > 0 && s' == Next(s, Step(i, false)) && Steps(rest)
    ensures |schedule| == |rest| + 1 && Steps(schedule) && Exec(s, schedule) == Exec(s', rest)
  {
    schedule := [Step(i, false)] + rest;
    ExecCons(s, Step(i, false), rest);
  }
}
