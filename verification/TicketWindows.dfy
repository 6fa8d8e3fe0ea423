/** When pops receive pushes in ticket order: as long as no two unfinished operations of one kind
    share a slot, and, for runs of tries, exactly with at most two threads. */
module TicketWindows {
  import opened Residues
  import opened TicketQueue
  import opened TicketOrder
  import opened QueueThreads
  import opened QueueRuns
  import opened QueueScripts

  // ---------------------------------------------------------------- order under a window

  /** The window holds in every state of the run. */
  ghost predicate AlwaysWindow<E>(s: System<E>, schedule: seq<Action<E>>)
    requires |s.queue.cells| > 0
    decreases |schedule|
  {
    Window(s.queue) && (schedule != [] ==> AlwaysWindow(Next(s, schedule[0]), schedule[1..]))
  }

  lemma ClaimPutInOrder<E>(q: Queue<E>, owner: nat, e: E)
    requires Inv(q) && InOrder(q) && Window(ClaimPut(q, owner, e))
    ensures InOrder(ClaimPut(q, owner, e))
  {
    var q', m := ClaimPut(q, owner, e), |q.cells|;
    assert q'.puts.Keys == q.puts.Keys + {q.head};
    forall r | 0 <= r < m
      ensures Sorted(q'.cells[r].written, q'.puts.Keys, m, r)
      ensures Sorted(q'.cells[r].taken, q'.takes.Keys, m, r)
    {
      LaneBooks(q, r);
      SortedClaim(q.cells[r].written, q.puts.Keys, q.head, m, r);
    }
  }

  lemma ClaimTakeInOrder<E>(q: Queue<E>, owner: nat)
    requires Inv(q) && InOrder(q) && Window(ClaimTake(q, owner))
    ensures InOrder(ClaimTake(q, owner))
  {
    var q', m := ClaimTake(q, owner), |q.cells|;
    assert q'.takes.Keys == q.takes.Keys + {q.tail};
    forall r | 0 <= r < m
      ensures Sorted(q'.cells[r].written, q'.puts.Keys, m, r)
      ensures Sorted(q'.cells[r].taken, q'.takes.Keys, m, r)
    {
      LaneBooks(q, r);
      SortedClaim(q.cells[r].taken, q.takes.Keys, q.tail, m, r);
    }
  }

  lemma PutInOrder<E>(q: Queue<E>, t: nat, e: E)
    requires Inv(q) && InOrder(q) && Window(q) && t in q.puts
    ensures InOrder(Put(q, t, e))
  {
    var q', m, c := Put(q, t, e), |q.cells|, LaneOf(q, t);
    if q.cells[c].slot.Nil? {
      assert q'.puts.Keys == q.puts.Keys - {t};
      forall r | 0 <= r < m
        ensures Sorted(q'.cells[r].written, q'.puts.Keys, m, r)
        ensures Sorted(q'.cells[r].taken, q'.takes.Keys, m, r)
      {
        if r == c {
          SortedSettle(q.cells[c].written, q.puts.Keys, m, c, Item(t, e));
        }
      }
    }
  }

  lemma TakeInOrder<E>(q: Queue<E>, t: nat)
    requires Inv(q) && InOrder(q) && Window(q) && t in q.takes
    ensures InOrder(Take(q, t))
  {
    var q', m, c := Take(q, t), |q.cells|, LaneOf(q, t);
    if q.cells[c].slot.Full? {
      assert q'.takes.Keys == q.takes.Keys - {t};
      forall r | 0 <= r < m
        ensures Sorted(q'.cells[r].written, q'.puts.Keys, m, r)
        ensures Sorted(q'.cells[r].taken, q'.takes.Keys, m, r)
      {
        if r == c {
          SortedSettle(q.cells[c].taken, q.takes.Keys, m, c, Item(t, q.cells[c].slot.elem));
        }
      }
    }
  }

  lemma NextInOrder<E>(s: System<E>, a: Action<E>)
    requires SysInv(s) && InOrder(s.queue) && Window(s.queue) && Window(Next(s, a).queue)
    ensures InOrder(Next(s, a).queue)
  {
    if a.tid < |s.threads| && a.Step? {
      var i, q := a.tid, s.queue;
      assert PhaseOk(q, i, s.threads[i]);
      match s.threads[i]
      case TryPushCas(e, h) => if !a.spurious && h == q.head { ClaimPutInOrder(q, i, e); }
      case PushAdd(e) => ClaimPutInOrder(q, i, e);
      case Storing(e, t) => PutInOrder(q, t, e);
      case TryPopCas(t) => if !a.spurious && t == q.tail { ClaimTakeInOrder(q, i); }
      case PopAdd => ClaimTakeInOrder(q, i);
      case Taking(t) => TakeInOrder(q, t);
      case _ =>
    }
  }

  lemma {:induction false} ExecInOrder<E>(s: System<E>, schedule: seq<Action<E>>)
    requires SysInv(s) && InOrder(s.queue) && AlwaysWindow(s, schedule)
    ensures SysInv(Exec(s, schedule)) && InOrder(Exec(s, schedule).queue)
    decreases |schedule|
  {
    if schedule != [] {
      NextInv(s, schedule[0]);
      NextInOrder(s, schedule[0]);
      ExecInOrder(Next(s, schedule[0]), schedule[1..]);
    }
  }

  /** In a run whose unfinished push tickets, and whose unfinished pop tickets, always span
      fewer than m_size, every finished pop with ticket u has returned exactly what the push
      with ticket u brought. */
  lemma TicketFifo<E>(m: nat, n: nat, schedule: seq<Action<E>>, u: nat)
    requires m > 0 && AlwaysWindow(NewSystem<E>(m, n), schedule)
    requires var q := Exec(NewSystem<E>(m, n), schedule).queue; u < q.tail && u !in q.takes
    ensures var q := Exec(NewSystem<E>(m, n), schedule).queue;
            && u < |q.claimed| && Delivered(q, u, u)
            && Item(u, q.claimed[u]) in q.cells[LaneOf(q, u)].taken
  {
    var s := Exec(NewSystem<E>(m, n), schedule);
    NewSystemInv<E>(m, n);
    ExecInOrder(NewSystem<E>(m, n), schedule);
    PopSource(s.queue, u);
    var t :| Delivered(s.queue, t, u);
    InOrderDelivers(s.queue, t, u);
    var k := DeliveredLane(s.queue, u, u);
    assert s.queue.cells[LaneOf(s.queue, u)].taken[k] == Item(u, s.queue.claimed[u]);
  }

  // ---------------------------------------------------------------- two threads are in order

  ghost predicate TicketsInOrder<E>(q: Queue<E>) {
    forall t, u :: Delivered(q, t, u) ==> t == u
  }

  /** Beside a thread that has claimed nothing there is only one other. */
  lemma OneKindPending<E>(q: Queue<E>, threads: seq<Phase<E>>, i: nat)
    requires OwnersOk(q, threads) && i < |threads| <= 2 && !threads[i].Storing? && !threads[i].Taking?
    ensures q.puts.Keys == {} || q.takes.Keys == {}
  {
    if q.puts.Keys != {} {
      var t :| t in q.puts;
      var j := q.puts[t];
      assert j != i && threads[j].Storing?;
      forall u ensures u !in q.takes {
      }
    }
  }

  lemma ApartGrows(pending: set<nat>, n: nat, m: nat)
    requires m > 0 && Apart(pending, m) && InLane(pending, m, Lane(n, m)) == {}
    ensures Apart(pending + {n}, m)
  {
    forall t, u | t in pending + {n} && u in pending + {n} && t != u ensures Lane(t, m) != Lane(u, m) {
      assert t != n ==> t !in InLane(pending, m, Lane(n, m));
      assert u != n ==> u !in InLane(pending, m, Lane(n, m));
    }
  }

  lemma ClaimPutWindow<E>(q: Queue<E>, owner: nat, e: E)
    requires Inv(q) && Window(q) && q.head < q.tail + |q.cells| && (q.puts.Keys == {} || q.takes.Keys == {})
    ensures Window(ClaimPut(q, owner, e))
  {
    assert ClaimPut(q, owner, e).puts.Keys == q.puts.Keys + {q.head};
    if q.takes.Keys == {} {
      PushClaimApart(q);
    } else {
      NoneInLane(|q.cells|, Lane(q.head, |q.cells|));
    }
    ApartGrows(q.puts.Keys, q.head, |q.cells|);
  }

  lemma ClaimTakeWindow<E>(q: Queue<E>, owner: nat)
    requires Inv(q) && Window(q) && q.tail < q.head && (q.puts.Keys == {} || q.takes.Keys == {})
    ensures Window(ClaimTake(q, owner))
  {
    assert ClaimTake(q, owner).takes.Keys == q.takes.Keys + {q.tail};
    if q.puts.Keys == {} {
      PopClaimApart(q);
    } else {
      NoneInLane(|q.cells|, Lane(q.tail, |q.cells|));
    }
    ApartGrows(q.takes.Keys, q.tail, |q.cells|);
  }

  lemma SettledWindow<E>(q: Queue<E>, q': Queue<E>)
    requires |q.cells| == |q'.cells| > 0 && Window(q) && q'.puts.Keys <= q.puts.Keys && q'.takes.Keys <= q.takes.Keys
    ensures Window(q')
  {
  }

  lemma NextWindow<E>(s: System<E>, a: Action<E>)
    requires SysInv(s) && Bounded(s) && |s.threads| <= 2 && Window(s.queue)
    ensures Window(Next(s, a).queue)
  {
    if a.tid < |s.threads| && a.Step? {
      var i, q, q' := a.tid, s.queue, Next(s, a).queue;
      assert PhaseOk(q, i, s.threads[i]);
      match s.threads[i]
      case TryPushCas(e, h) =>
        OneKindPending(q, s.threads, i);
        if !a.spurious && h == q.head { ClaimPutWindow(q, i, e); }
      case TryPopCas(t) =>
        OneKindPending(q, s.threads, i);
        if !a.spurious && t == q.tail { ClaimTakeWindow(q, i); }
      case PushAdd(_) =>
      case PopAdd =>
      case _ => SettledWindow(q, q');
    }
  }

  lemma {:induction false} TwoThreadsKeepWindow<E>(s: System<E>, schedule: seq<Action<E>>)
    requires SysInv(s) && Bounded(s) && |s.threads| <= 2 && Window(s.queue) && TryOnly(schedule)
    ensures AlwaysWindow(s, schedule)
    decreases |schedule|
  {
    if schedule != [] {
      var a := schedule[0];
      assert NoBlockingPop(a) && NoBlockingPush(a);
      NextInv(s, a);
      NextPopsBounded(s, a);
      NextPushesBounded(s, a);
      NextWindow(s, a);
      TwoThreadsKeepWindow(Next(s, a), schedule[1..]);
    }
  }

  lemma TwoThreadsInOrder<E>(m: nat, n: nat, schedule: seq<Action<E>>)
    requires m > 0 && n <= 2 && TryOnly(schedule)
    ensures TicketsInOrder(Exec(NewSystem<E>(m, n), schedule).queue)
  {
    var s0 := NewSystem<E>(m, n);
    NewSystemInv<E>(m, n);
    TwoThreadsKeepWindow(s0, schedule);
    ExecInOrder(s0, schedule);
    var q := Exec(s0, schedule).queue;
    forall t, u | Delivered(q, t, u) ensures t == u {
      InOrderDelivers(q, t, u);
    }
  }

  // ---------------------------------------------------------------- three threads can overtake

  /** The slots of the tickets 1 .. j. */
  function Row(j: nat): (s: set<nat>)
    ensures forall r: nat :: r in s <==> 1 <= r <= j
  {
    if j == 0 then {} else Row(j - 1) + {j}
  }

  /** Push 0 has stalled, pop 0 waits for it, and the pushes 1 .. j have gone by. */
  ghost predicate Passed<E>(s: System<E>, j: nat) {
    && j < |s.queue.cells| && |s.threads| >= 3 && s.threads[2] == Idle
    && s.queue.head == j + 1 && s.queue.tail == 1 && Holds(s.queue, Row(j)) && Young(s.queue)
    && s.queue.cells[0] == Cell(Nil, [], []) && 0 in s.queue.puts
  }

  lemma PassOne<E>(s: System<E>, j: nat, y: E) returns (schedule: seq<Action<E>>)
    requires Passed(s, j) && j + 1 < |s.queue.cells|
    ensures TryOnly(schedule) && Passed(Exec(s, schedule), j + 1) && Exec(s, schedule).threads == s.threads
  {
    assert LaneOf(s.queue, j + 1) == j + 1;
    PushedHolds(s.queue, 2, y, Row(j));
    assert Row(j) + {j + 1} == Row(j + 1);
    schedule := TryPushAlone(s, 2, y);
  }

  lemma {:induction false} PassMany<E>(s: System<E>, j: nat, y: E) returns (schedule: seq<Action<E>>)
    requires Passed(s, j)
    ensures TryOnly(schedule) && Exec(s, schedule).threads == s.threads
    ensures Passed(Exec(s, schedule), |s.queue.cells| - 1)
    decreases |s.queue.cells| - j
  {
    if j + 1 == |s.queue.cells| {
      schedule := [];
    } else {
      var one := PassOne(s, j, y);
      var rest := PassMany(Exec(s, one), j + 1, y);
      schedule := one + rest;
      ExecConcat(s, one, rest);
    }
  }

  lemma StalledPush<E>(m: nat, n: nat, x: E) returns (schedule: seq<Action<E>>)
    requires m > 0 && n >= 3
    ensures TryOnly(schedule)
    ensures var s := Exec(NewSystem<E>(m, n), schedule);
            |s.queue.cells| == m && Passed(s, 0) && s.threads[0] == Storing(x, 0) && s.threads[1] == Taking(0)
  {
    var s0 := NewSystem<E>(m, n);
    var push := ClaimPush(s0, 0, x);
    var pop := ClaimPop(Exec(s0, push), 1);
    schedule := push + pop;
    ExecConcat(s0, push, pop);
  }

  /** The push that comes round to the stalled push's slot, and the pop that takes its element. */
  lemma Overtake<E>(s: System<E>, y: E) returns (schedule: seq<Action<E>>)
    requires |s.queue.cells| > 0 && Passed(s, |s.queue.cells| - 1) && s.threads[1] == Taking(0)
    ensures TryOnly(schedule)
    ensures var s' := Exec(s, schedule);
            Delivered(s'.queue, |s.queue.cells|, 0) && 0 in s'.queue.puts && s'.threads[0] == s.threads[0]
  {
    var m := |s.queue.cells|;
    LaneWraps(0, m);
    PushedHolds(s.queue, 2, y, Row(m - 1));
    var push := TryPushAlone(s, 2, y);
    var s1 := Exec(s, push);
    assert s1.queue.cells[0] == Cell(Full(y), [Item(m, y)], []);
    schedule := push + [Step(1, false)];
    ExecSnoc(s, push, Step(1, false));
    assert DeliveredAt(Exec(s, schedule).queue, 0, 0, m, 0);
  }

  /** With three threads a push can overtake the stalled push 0 of its slot on a queue of any
      size, in a run of tries: pop 0 receives the element of push m_size. */
  lemma TicketOrderCanFail<E>(m: nat, n: nat, x: E, y: E) returns (schedule: seq<Action<E>>)
    requires m > 0 && n >= 3
    ensures TryOnly(schedule)
    ensures var s := Exec(NewSystem<E>(m, n), schedule);
            Delivered(s.queue, m, 0) && 0 in s.queue.puts && s.threads[0] == Storing(x, 0)
  {
    var s0 := NewSystem<E>(m, n);
    var stall := StalledPush(m, n, x);
    var s1 := Exec(s0, stall);
    var pass := PassMany(s1, 0, y);
    var over := Overtake(Exec(s1, pass), y);
    schedule := stall + (pass + over);
    ExecConcat(s1, pass, over);
    ExecConcat(s0, stall, pass + over);
  }

  /** Runs of tries keep ticket order, on a queue of any size, exactly with at most two threads. */
  lemma TicketOrderIffTwoThreads<E>(m: nat, n: nat, x: E)
    requires m > 0
    ensures (forall schedule: seq<Action<E>> :: TryOnly(schedule) ==> TicketsInOrder(Exec(NewSystem<E>(m, n), schedule).queue))
            <==> n <= 2
  {
    if n <= 2 {
      forall schedule: seq<Action<E>> | TryOnly(schedule)
        ensures TicketsInOrder(Exec(NewSystem<E>(m, n), schedule).queue)
      {
        TwoThreadsInOrder(m, n, schedule);
      }
    } else {
      var schedule := TicketOrderCanFail(m, n, x, x);
      assert !TicketsInOrder(Exec(NewSystem<E>(m, n), schedule).queue);
    }
  }
}
