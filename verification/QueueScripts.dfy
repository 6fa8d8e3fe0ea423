/** Runs in which one thread completes an operation while all others rest: what they do to the
    queue, and how they add up to runs that go wrong. */
module QueueScripts {
  import opened Residues
  import opened TicketQueue
  import opened TicketOrder
  import opened QueueThreads
  import opened QueueRuns

  lemma {:induction false} ExecConcat<E>(s: System<E>, a: seq<Action<E>>, b: seq<Action<E>>)
    requires |s.queue.cells| > 0
    ensures Exec(s, a + b) == Exec(Exec(s, a), b)
    decreases |a|
  {
    if a == [] {
      assert a + b == b;
    } else {
      ExecConcat(Next(s, a[0]), a[1..], b);
      assert (a + b)[1..] == a[1..] + b;
    }
  }

  /** One more action at the end of a run. */
  lemma Extend<E>(s0: System<E>, s: System<E>, schedule: seq<Action<E>>, a: Action<E>)
    returns (s': System<E>, schedule': seq<Action<E>>)
    requires |s0.queue.cells| > 0 && s == Exec(s0, schedule)
    ensures schedule' == schedule + [a] && s' == Exec(s0, schedule') == Next(s, a)
  {
    s', schedule' := Next(s, a), schedule + [a];
    ExecSnoc(s0, schedule, a);
  }

  /** The actions of thread i that never meet a counter test: blocking calls only. */
  predicate BlockingBy<E>(schedule: seq<Action<E>>, i: nat) {
    forall k :: 0 <= k < |schedule| ==>
      schedule[k].tid == i && (schedule[k].Invoke? ==> schedule[k].op.Push? || schedule[k].op.Pop?)
  }

  predicate By<E>(schedule: seq<Action<E>>, i: nat) {
    forall k :: 0 <= k < |schedule| ==> schedule[k].tid == i
  }

  // ---------------------------------------------------------------- claims

  /** An undisturbed tryPush with room gets as far as its claim. */
  lemma ClaimPush<E>(s: System<E>, i: nat, e: E) returns (schedule: seq<Action<E>>)
    requires |s.queue.cells| > 0 && i < |s.threads| && s.threads[i] == Idle
    requires s.queue.head - s.queue.tail < |s.queue.cells|
    ensures Exec(s, schedule) == System(ClaimPut(s.queue, i, e), s.threads[i := Storing(e, s.queue.head)])
    ensures TryOnly(schedule) && By(schedule, i)
  {
    var s';
    s', schedule := Extend(s, s, [], Invoke(i, TryPush(e)));
    s', schedule := Extend(s, s', schedule, Step(i, false));
    s', schedule := Extend(s, s', schedule, Step(i, false));
    s', schedule := Extend(s, s', schedule, Step(i, false));
    assert s'.threads == s.threads[i := Storing(e, s.queue.head)];
  }

  /** ... and so does a tryPop that sees an element. */
  lemma ClaimPop<E>(s: System<E>, i: nat) returns (schedule: seq<Action<E>>)
    requires |s.queue.cells| > 0 && i < |s.threads| && s.threads[i] == Idle
    requires s.queue.head - s.queue.tail > 0
    ensures Exec(s, schedule) == System(ClaimTake(s.queue, i), s.threads[i := Taking(s.queue.tail)])
    ensures TryOnly(schedule)
  {
    var s';
    s', schedule := Extend(s, s, [], Invoke(i, TryPop));
    s', schedule := Extend(s, s', schedule, Step(i, false));
    s', schedule := Extend(s, s', schedule, Step(i, false));
    s', schedule := Extend(s, s', schedule, Step(i, false));
    assert s'.threads == s.threads[i := Taking(s.queue.tail)];
  }

  // ---------------------------------------------------------------- whole operations

  /** The queue after one undisturbed push, and after one undisturbed pop. */
  function Pushed<E>(q: Queue<E>, i: nat, e: E): Queue<E>
    requires |q.cells| > 0
  {
    Put(ClaimPut(q, i, e), q.head, e)
  }

  function Popped<E>(q: Queue<E>, i: nat): Queue<E>
    requires |q.cells| > 0
  {
    Take(ClaimTake(q, i), q.tail)
  }

  /** The claimed push finishes and its caller leaves. */
  lemma FinishPush<E>(s: System<E>, i: nat) returns (schedule: seq<Action<E>>)
    requires |s.queue.cells| > 0 && i < |s.threads| && s.threads[i].Storing? && CanMove(s.queue, s.threads[i])
    ensures Exec(s, schedule) == System(Put(s.queue, s.threads[i].ticket, s.threads[i].elem), s.threads[i := Idle])
    ensures TryOnly(schedule) && BlockingBy(schedule, i)
  {
    var s';
    s', schedule := Extend(s, s, [], Step(i, false));
    s', schedule := Extend(s, s', schedule, Collect(i));
    assert s'.threads == s.threads[i := Idle];
  }

  lemma FinishPop<E>(s: System<E>, i: nat) returns (schedule: seq<Action<E>>)
    requires |s.queue.cells| > 0 && i < |s.threads| && s.threads[i].Taking? && CanMove(s.queue, s.threads[i])
    ensures Exec(s, schedule) == System(Take(s.queue, s.threads[i].ticket), s.threads[i := Idle])
    ensures TryOnly(schedule) && BlockingBy(schedule, i)
  {
    var s';
    s', schedule := Extend(s, s, [], Step(i, false));
    s', schedule := Extend(s, s', schedule, Collect(i));
    assert s'.threads == s.threads[i := Idle];
  }

  lemma TryPushAlone<E>(s: System<E>, i: nat, e: E) returns (schedule: seq<Action<E>>)
    requires |s.queue.cells| > 0 && i < |s.threads| && s.threads[i] == Idle
    requires s.queue.head - s.queue.tail < |s.queue.cells| && s.queue.cells[LaneOf(s.queue, s.queue.head)].slot.Nil?
    ensures Exec(s, schedule) == System(Pushed(s.queue, i, e), s.threads)
    ensures TryOnly(schedule) && By(schedule, i)
  {
    var claim := ClaimPush(s, i, e);
    var s' := Exec(s, claim);
    var finish := FinishPush(s', i);
    schedule := claim + finish;
    ExecConcat(s, claim, finish);
    assert s'.threads[i := Idle] == s.threads;
  }

  lemma BlockingClaim<E>(s: System<E>, i: nat, op: Op<E>, p: Phase<E>) returns (schedule: seq<Action<E>>)
    requires |s.queue.cells| > 0 && i < |s.threads| && s.threads[i] == Idle && (op.Push? || op.Pop?)
    requires p == PhaseStep(s.queue, Entry(op), false)
    ensures Exec(s, schedule) == System(QueueStep(s.queue, i, Entry(op), false), s.threads[i := p])
    ensures BlockingBy(schedule, i)
  {
    var s';
    s', schedule := Extend(s, s, [], Invoke(i, op));
    s', schedule := Extend(s, s', schedule, Step(i, false));
    assert s'.threads == s.threads[i := p];
  }

  lemma PushAlone<E>(s: System<E>, i: nat, e: E) returns (schedule: seq<Action<E>>)
    requires |s.queue.cells| > 0 && i < |s.threads| && s.threads[i] == Idle
    requires s.queue.cells[LaneOf(s.queue, s.queue.head)].slot.Nil?
    ensures Exec(s, schedule) == System(Pushed(s.queue, i, e), s.threads)
    ensures BlockingBy(schedule, i)
  {
    var claim := BlockingClaim(s, i, Push(e), Storing(e, s.queue.head));
    var s' := Exec(s, claim);
    var finish := FinishPush(s', i);
    schedule := claim + finish;
    ExecConcat(s, claim, finish);
    assert s'.threads[i := Idle] == s.threads;
  }

  lemma PopAlone<E>(s: System<E>, i: nat) returns (schedule: seq<Action<E>>)
    requires |s.queue.cells| > 0 && i < |s.threads| && s.threads[i] == Idle
    requires s.queue.cells[LaneOf(s.queue, s.queue.tail)].slot.Full?
    ensures Exec(s, schedule) == System(Popped(s.queue, i), s.threads)
    ensures BlockingBy(schedule, i)
  {
    var claim := BlockingClaim(s, i, Pop, Taking(s.queue.tail));
    var s' := Exec(s, claim);
    var finish := FinishPop(s', i);
    schedule := claim + finish;
    ExecConcat(s, claim, finish);
    assert s'.threads[i := Idle] == s.threads;
  }

  /** A push and a pop of the same ticket by one thread leave the slots as they were. */
  lemma CycleAlone<E>(s: System<E>, i: nat, e: E) returns (schedule: seq<Action<E>>)
    requires |s.queue.cells| > 0 && i < |s.threads| && s.threads[i] == Idle && s.queue.head == s.queue.tail
    requires s.queue.cells[LaneOf(s.queue, s.queue.head)].slot.Nil?
    ensures Exec(s, schedule) == System(Popped(Pushed(s.queue, i, e), i), s.threads)
    ensures BlockingBy(schedule, i)
  {
    var push := PushAlone(s, i, e);
    var s' := Exec(s, push);
    var pop := PopAlone(s', i);
    schedule := push + pop;
    ExecConcat(s, push, pop);
  }

  /** Which slots are occupied. */
  ghost predicate Holds<E>(q: Queue<E>, full: set<nat>) {
    forall r :: 0 <= r < |q.cells| ==> (q.cells[r].slot.Full? <==> r in full)
  }

  ghost predicate Young<E>(q: Queue<E>) {
    (forall t :: t in q.puts ==> t < q.head) && (forall t :: t in q.takes ==> t < q.tail)
  }

  lemma PushedHolds<E>(q: Queue<E>, i: nat, e: E, full: set<nat>)
    requires |q.cells| > 0 && Holds(q, full) && LaneOf(q, q.head) !in full && Young(q)
    ensures var q' := Pushed(q, i, e);
            && Holds(q', full + {LaneOf(q, q.head)}) && Young(q') && q'.head == q.head + 1 && q'.tail == q.tail
            && q'.puts == q.puts && q'.takes == q.takes && q'.claimed == q.claimed + [e]
            && q'.cells == q.cells[LaneOf(q, q.head) := Fill(q.cells[LaneOf(q, q.head)], q.head, e)]
  {
    assert q.puts[q.head := i] - {q.head} == q.puts;
  }

  lemma PoppedHolds<E>(q: Queue<E>, i: nat, full: set<nat>)
    requires |q.cells| > 0 && Holds(q, full) && LaneOf(q, q.tail) in full && Young(q)
    ensures var q' := Popped(q, i);
            && Holds(q', full - {LaneOf(q, q.tail)}) && Young(q') && q'.head == q.head && q'.tail == q.tail + 1
            && q'.puts == q.puts && q'.takes == q.takes
  {
    assert q.takes[q.tail := i] - {q.tail} == q.takes;
  }

  lemma CycleHolds<E>(q: Queue<E>, i: nat, e: E, full: set<nat>)
    requires |q.cells| > 0 && Holds(q, full) && q.head == q.tail && LaneOf(q, q.head) !in full && Young(q)
    ensures var q' := Popped(Pushed(q, i, e), i);
            && Holds(q', full) && Young(q') && q'.head == q'.tail == q.head + 1
            && q'.puts == q.puts && q'.takes == q.takes
  {
    var r := LaneOf(q, q.head);
    PushedHolds(q, i, e, full);
    PoppedHolds(Pushed(q, i, e), i, full + {r});
    assert full + {r} - {r} == full;
  }

  // ---------------------------------------------------------------- many cycles

  /** Cycles over tickets that keep clear of the occupied slots. */
  lemma {:induction false} CyclesAlone<E>(s: System<E>, i: nat, e: E, full: set<nat>, k: nat) returns (schedule: seq<Action<E>>)
    requires |s.queue.cells| > 0 && i < |s.threads| && s.threads[i] == Idle && Young(s.queue)
    requires s.queue.head == s.queue.tail && Holds(s.queue, full)
    requires forall t :: s.queue.head <= t < s.queue.head + k ==> Lane(t, |s.queue.cells|) !in full
    ensures BlockingBy(schedule, i)
    ensures var s' := Exec(s, schedule);
            && s'.threads == s.threads && s'.queue.head == s'.queue.tail == s.queue.head + k
            && Holds(s'.queue, full) && Young(s'.queue)
            && s'.queue.puts == s.queue.puts && s'.queue.takes == s.queue.takes
    decreases k
  {
    if k == 0 {
      schedule := [];
    } else {
      assert Lane(s.queue.head, |s.queue.cells|) !in full;
      CycleHolds(s.queue, i, e, full);
      var cycle := CycleAlone(s, i, e);
      var s' := Exec(s, cycle);
      var rest := CyclesAlone(s', i, e, full, k - 1);
      schedule := cycle + rest;
      ExecConcat(s, cycle, rest);
    }
  }

  // ---------------------------------------------------------------- a tryPop that is left waiting

  /** After one push, thread 0 has claimed the only element with a tryPop. */
  lemma ElementClaimed<E>(m: nat, n: nat, x: E) returns (schedule: seq<Action<E>>)
    requires m > 0 && n >= 2
    ensures var s := Exec(NewSystem<E>(m, n), schedule);
            && s.threads == NewSystem<E>(m, n).threads[0 := Taking(0)] && s.queue.head == s.queue.tail == 1
            && Holds(s.queue, {0}) && Young(s.queue) && s.queue.puts == map[] && s.queue.takes == map[0 := 0]
  {
    var s0 := NewSystem<E>(m, n);
    PushedHolds(s0.queue, 1, x, {});
    var push := PushAlone(s0, 1, x);
    var s1 := Exec(s0, push);
    var claim := ClaimPop(s1, 0);
    schedule := push + claim;
    ExecConcat(s0, push, claim);
  }

  /** Beside blocking pops a tryPop can be left waiting, on a queue of any size: another thread
      goes round once and takes the element that the tryPop saw. */
  lemma TryPopCanWait<E>(m: nat, n: nat, x: E) returns (schedule: seq<Action<E>>)
    requires m > 0 && n >= 2
    ensures var s := Exec(NewSystem<E>(m, n), schedule);
            && SystemStuck(s) && s.threads == NewSystem<E>(m, n).threads[0 := Taking(0)]
            && s.queue.head == m && s.queue.tail == m + 1
  {
    var s0 := NewSystem<E>(m, n);
    var claimed := ElementClaimed(m, n, x);
    var s1 := Exec(s0, claimed);
    var round := CyclesAlone(s1, 1, x, {0}, m - 1);
    var s2 := Exec(s1, round);
    LaneWraps(0, m);
    PoppedHolds(s2.queue, 1, {0});
    var last := PopAlone(s2, 1);
    schedule := claimed + (round + last);
    ExecConcat(s0, claimed, round + last);
    ExecConcat(s1, round, last);
  }
}
