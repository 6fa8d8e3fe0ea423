/** Runs of the 32-bit program in which a thread sleeps on a loaded counter for too long. They
    show, for every capacity, that the conditions of QueueMachine.StepSafe cannot be relaxed. */
module StaleCounters {
  import opened Bits
  import opened IndexMap
  import opened Residues
  import opened TicketQueue
  import opened TicketOrder
  import opened QueueThreads
  import opened QueueRuns
  import opened QueueScripts
  import opened QueueMachine

  predicate Blocking<E>(p: Phase<E>) {
    p.Idle? || p.PushAdd? || p.Storing? || p.PopAdd? || p.Taking? || p.Done?
  }

  /** Blocking calls test no counter, so nothing they do depends on the distance of counters. */
  lemma {:induction false} BlockingIsSafe<E>(s: System<E>, schedule: seq<Action<E>>, i: nat)
    requires |s.queue.cells| > 0 && i < |s.threads| && Blocking(s.threads[i]) && BlockingBy(schedule, i)
    ensures AlwaysSafe(s, schedule)
    decreases |schedule|
  {
    if schedule != [] {
      var a, rest := schedule[0], schedule[1..];
      assert a.tid == i && (a.Invoke? ==> a.op.Push? || a.op.Pop?);
      assert Blocking(Next(s, a).threads[i]);
      forall k | 0 <= k < |rest|
        ensures rest[k].tid == i && (rest[k].Invoke? ==> rest[k].op.Push? || rest[k].op.Pop?)
      {
        assert rest[k] == schedule[k + 1];
      }
      BlockingIsSafe(Next(s, a), rest, i);
    }
  }

  lemma {:induction false} SafeConcat<E>(s: System<E>, a: seq<Action<E>>, b: seq<Action<E>>)
    requires |s.queue.cells| > 0 && AlwaysSafe(s, a) && AlwaysSafe(Exec(s, a), b)
    ensures AlwaysSafe(s, a + b) && Exec(s, a + b) == Exec(Exec(s, a), b)
    decreases |a|
  {
    if a == [] {
      assert a + b == b;
    } else {
      SafeConcat(Next(s, a[0]), a[1..], b);
      assert (a + b)[1..] == a[1..] + b && (a + b)[0] == a[0];
    }
  }

  /** Thread 0 starts a call and loads its counter. */
  lemma LoadFirst<E>(m: nat, n: nat, op: Op<E>) returns (schedule: seq<Action<E>>)
    requires m > 0 && n >= 2 && (op.TryPush? || op.TryPop?)
    ensures AlwaysSafe(NewSystem<E>(m, n), schedule)
    ensures var s := Exec(NewSystem<E>(m, n), schedule);
            && s.queue == NewQueue(m) && |s.threads| == n && s.threads[1] == Idle
            && s.threads[0] == if op.TryPush? then TryPushTest(op.elem, 0) else TryPopTest(0)
  {
    var s0 := NewSystem<E>(m, n);
    var s1 := Next(s0, Invoke(0, op));
    var s2 := Next(s1, Step(0, false));
    schedule := [Invoke(0, op), Step(0, false)];
    assert schedule[1..] == [Step(0, false)] && schedule[1..][1..] == [];
    assert Exec(s1, schedule[1..]) == s2 && AlwaysSafe(s1, schedule[1..]);
  }

  /** ... and then sleeps while thread 1 pushes and pops k times. */
  lemma SleepOver<E>(m: nat, n: nat, op: Op<E>, e: E, k: nat) returns (schedule: seq<Action<E>>)
    requires m > 0 && n >= 2 && (op.TryPush? || op.TryPop?)
    ensures AlwaysSafe(NewSystem<E>(m, n), schedule)
    ensures var s := Exec(NewSystem<E>(m, n), schedule);
            && s.queue.head == s.queue.tail == k && Holds(s.queue, {}) && Young(s.queue)
            && |s.queue.cells| == m && |s.threads| == n && s.threads[1] == Idle
            && s.threads[0] == if op.TryPush? then TryPushTest(op.elem, 0) else TryPopTest(0)
  {
    var s0 := NewSystem<E>(m, n);
    var load := LoadFirst(m, n, op);
    var s1 := Exec(s0, load);
    var cycles := CyclesAlone(s1, 1, e, {}, k);
    BlockingIsSafe(s1, cycles, 1);
    schedule := load + cycles;
    SafeConcat(s0, load, cycles);
  }

  ghost predicate MachineEmpty<E>(c: Machine<E>) {
    c.head == c.tail && forall k :: 0 <= k < |c.slots| ==> c.slots[k].Nil?
  }

  lemma EmptySlots<E>(s: System<E>, bits: nat, e: nat)
    requires Layout(s, bits, e) && Holds(s.queue, {}) && s.queue.head == s.queue.tail
    ensures MachineEmpty(Machined(s, bits, e))
  {
    forall k | 0 <= k < |s.queue.cells| ensures Slots(s.queue.cells, bits, e)[k].Nil? {
      RemapPermutes(k, bits, e);
    }
  }

  lemma RefusalInWords<E>(s: System<E>, bits: nat, e: nat, x: E, k: nat, c: Machine<E>)
    requires Layout(s, bits, e) && e <= 30 && c == Machined(s, bits, e) && |s.threads| > 0
    requires s.threads[0] == TryPushTest(x, 0) && s.queue.tail == k && HALF < k <= WORD - Pow2(e)
    ensures c.threads[0] == TryPushTest(x, 0) && MachineStep(c, 0, false).threads[0] == Done(Refused(x))
  {
    CapacityFits(e);
    assert c.threads[0] == WordPhase(s.threads[0]);
    TestInWords(c, s.queue, s.threads[0], 0, false);
    LateGap(k, Pow2(e));
  }

  lemma LateGap(k: int, m: nat)
    requires HALF < k <= WORD - m && m > 0
    ensures Signed((0 - k) % WORD) >= m
  {
    Opposite(k);
    assert k % WORD == k && 0 - k == -k;
  }

  /** A tryPush that slept while tail went more than 2^31 past its loaded head finds the empty
      queue full; a little less sleep and it would have been let in. */
  lemma StaleTryPushRefused<E>(bits: nat, e: nat, n: nat, x: E, k: nat) returns (schedule: seq<Action<E>>)
    requires 2 * bits <= e <= 30 && n >= 2 && Pow2(e) + n < HALF && HALF < k <= WORD - Pow2(e)
    ensures var c := MachineExec(NewMachine<E>(bits, e, n), schedule);
            && |c.slots| == Pow2(e) && |c.threads| == n && MachineEmpty(c)
            && c.threads[0] == TryPushTest(x, 0) && c.head == Word(k)
            && MachineStep(c, 0, false).threads[0] == Done(Refused(x))
  {
    schedule := SleepOver(Pow2(e), n, TryPush(x), x, k);
    var s := Exec(NewSystem<E>(Pow2(e), n), schedule);
    ProgramFollowsIffSafe<E>(bits, e, n, schedule);
    EmptySlots(s, bits, e);
    RefusalInWords(s, bits, e, x, k, Machined(s, bits, e));
  }

  ghost predicate SomeElement<E>(c: Machine<E>) {
    exists j :: 0 <= j < |c.slots| && c.slots[j].Full?
  }

  lemma OccupiedInWords<E>(s: System<E>, bits: nat, e: nat, t: nat)
    requires Layout(s, bits, e) && e <= 30 && s.queue.cells[LaneOf(s.queue, t)].slot.Full?
    ensures SomeElement(Machined(s, bits, e))
  {
    SlotOfTicket(s.queue.cells, bits, e, t);
  }

  lemma FailureInWords<E>(s: System<E>, bits: nat, e: nat, k: nat, c: Machine<E>)
    requires Layout(s, bits, e) && c == Machined(s, bits, e) && |s.threads| > 0
    requires s.threads[0] == TryPopTest(0) && s.queue.head == k == s.queue.tail + 1 && HALF <= k < WORD
    ensures c.head == k == c.tail + 1
    ensures c.threads[0] == TryPopTest(0) && MachineStep(c, 0, false).threads[0] == Done(Nothing)
  {
    SignedGap(k, 0);
    assert c.threads[0] == WordPhase(s.threads[0]);
  }

  lemma SleepOverPush<E>(m: nat, n: nat, x: E, k: nat) returns (schedule: seq<Action<E>>)
    requires m > 0 && n >= 2 && k > 0
    ensures AlwaysSafe(NewSystem<E>(m, n), schedule)
    ensures var s := Exec(NewSystem<E>(m, n), schedule);
            && s.queue.head == k == s.queue.tail + 1 && |s.queue.cells| == m && |s.threads| == n
            && s.queue.cells[LaneOf(s.queue, s.queue.tail)].slot.Full? && s.threads[0] == TryPopTest(0)
  {
    var s0 := NewSystem<E>(m, n);
    var sleep := SleepOver(m, n, TryPop, x, k - 1);
    var s1 := Exec(s0, sleep);
    PushedHolds(s1.queue, 1, x, {});
    var push := PushAlone(s1, 1, x);
    BlockingIsSafe(s1, push, 1);
    schedule := sleep + push;
    SafeConcat(s0, sleep, push);
  }

  /** A tryPop that slept while head went 2^31 past its loaded tail finds an occupied queue
      empty. */
  lemma StaleTryPopFails<E>(bits: nat, e: nat, n: nat, x: E, k: nat) returns (schedule: seq<Action<E>>)
    requires 2 * bits <= e <= 30 && n >= 2 && Pow2(e) + n < HALF && HALF <= k < WORD
    ensures var c := MachineExec(NewMachine<E>(bits, e, n), schedule);
            && |c.slots| == Pow2(e) && |c.threads| == n && c.head == k == c.tail + 1
            && SomeElement(c)
            && c.threads[0] == TryPopTest(0)
            && MachineStep(c, 0, false).threads[0] == Done(Nothing)
  {
    schedule := SleepOverPush(Pow2(e), n, x, k);
    var s := Exec(NewSystem<E>(Pow2(e), n), schedule);
    ProgramFollowsIffSafe<E>(bits, e, n, schedule);
    OccupiedInWords(s, bits, e, s.queue.tail);
    FailureInWords(s, bits, e, k, Machined(s, bits, e));
  }

  // ---------------------------------------------------------------- a stale compare-and-swap

  /** The lanes of j tickets from `base` on. */
  function LanesFrom(base: nat, j: nat, m: nat): (s: set<nat>)
    requires m > 0
    ensures forall t: nat :: base <= t < base + j ==> Lane(t, m) in s
  {
    if j == 0 then {} else LanesFrom(base, j - 1, m) + {Lane(base + (j - 1), m)}
  }

  lemma {:induction false} LaneIsFree(base: nat, j: nat, m: nat, t: nat)
    requires base + j <= t < base + m
    ensures Lane(t, m) !in LanesFrom(base, j, m)
  {
    if j > 0 {
      LaneIsFree(base, j - 1, m, t);
      var u: nat := base + (j - 1);
      if Lane(u, m) == Lane(t, m) {
        LaneSpacing(u, t, m);
      }
    }
  }

  lemma LanesGrow(base: nat, j: nat, j': nat, m: nat, t: nat)
    requires m > 0 && j' == j + 1 && t == base + j
    ensures LanesFrom(base, j', m) == LanesFrom(base, j, m) + {Lane(t, m)}
  {
  }

  /** Thread i pushes until j slots are occupied. */
  lemma {:induction false} FillUp<E>(s: System<E>, i: nat, x: E, j: nat) returns (schedule: seq<Action<E>>)
    requires |s.queue.cells| > 0 && i < |s.threads| && s.threads[i] == Idle && Young(s.queue)
    requires s.queue.head == s.queue.tail && Holds(s.queue, {}) && j <= |s.queue.cells|
    ensures BlockingBy(schedule, i)
    ensures var s' := Exec(s, schedule);
            && s'.threads == s.threads && s'.queue.head == s.queue.head + j && s'.queue.tail == s.queue.tail
            && Holds(s'.queue, LanesFrom(s.queue.tail, j, |s.queue.cells|)) && Young(s'.queue)
  {
    if j == 0 {
      schedule := [];
    } else {
      var k: nat, base, m := j - 1, s.queue.tail, |s.queue.cells|;
      var before := FillUp(s, i, x, k);
      var s1 := Exec(s, before);
      LaneIsFree(base, k, m, s1.queue.head);
      LanesGrow(base, k, j, m, s1.queue.head);
      PushedHolds(s1.queue, i, x, LanesFrom(base, k, m));
      var push := PushAlone(s1, i, x);
      schedule := before + push;
      ExecConcat(s, before, push);
    }
  }

  lemma SleepBeforeCas<E>(m: nat, n: nat, x: E) returns (schedule: seq<Action<E>>)
    requires 0 < m <= WORD && n >= 2
    ensures AlwaysSafe(NewSystem<E>(m, n), schedule)
    ensures var s := Exec(NewSystem<E>(m, n), schedule);
            && s.queue == NewQueue(m) && |s.threads| == n && s.threads[1] == Idle && s.threads[0] == TryPushCas(x, 0)
  {
    var s0 := NewSystem<E>(m, n);
    var load := LoadFirst(m, n, TryPush(x));
    var s1 := Exec(s0, load);
    schedule := load + [Step(0, false)];
    assert AlwaysSafe(s1, [Step(0, false)]);
    SafeConcat(s0, load, [Step(0, false)]);
    ExecSnoc(s0, load, Step(0, false));
  }

  lemma SleepWhileFilled<E>(m: nat, n: nat, x: E) returns (schedule: seq<Action<E>>)
    requires 0 < m <= WORD && n >= 2
    ensures AlwaysSafe(NewSystem<E>(m, n), schedule)
    ensures var s := Exec(NewSystem<E>(m, n), schedule);
            && |s.queue.cells| == m && |s.threads| == n && s.threads[0] == TryPushCas(x, 0)
            && s.queue.head == WORD && s.queue.tail == WORD - m
  {
    var s0 := NewSystem<E>(m, n);
    var sleep := SleepBeforeCas(m, n, x);
    var s1 := Exec(s0, sleep);
    var cycles := CyclesAlone(s1, 1, x, {}, WORD - m);
    var s2 := Exec(s1, cycles);
    var fill := FillUp(s2, 1, x, m);
    BlockingIsSafe(s1, cycles, 1);
    BlockingIsSafe(s2, fill, 1);
    SafeConcat(s1, cycles, fill);
    schedule := sleep + (cycles + fill);
    SafeConcat(s0, sleep, cycles + fill);
  }

  lemma ClaimInWords<E>(s: System<E>, bits: nat, e: nat, x: E, c: Machine<E>)
    requires Layout(s, bits, e) && c == Machined(s, bits, e) && |s.threads| > 0
    requires s.threads[0] == TryPushCas(x, 0) && s.queue.head == WORD && s.queue.tail == WORD - Pow2(e)
    requires Pow2(e) < HALF
    ensures c.head == 0 && c.tail == WORD - Pow2(e)
    ensures MachineStep(c, 0, false).threads[0] == Storing(x, 0) && MachineStep(c, 0, false).head == 1
  {
    assert c.threads[0] == WordPhase(s.threads[0]);
  }

  /** A tryPush that slept between its test and its CAS while exactly 2^32 pushes went by finds
      its stale head confirmed, and claims a ticket of a queue that has become full. */
  lemma StaleClaimOnFullQueue<E>(bits: nat, e: nat, n: nat, x: E) returns (schedule: seq<Action<E>>)
    requires 2 * bits <= e <= 30 && n >= 2 && Pow2(e) + n < HALF
    ensures var c := MachineExec(NewMachine<E>(bits, e, n), schedule);
            && |c.slots| == Pow2(e) && |c.threads| == n
            && c.head == 0 && c.tail == WORD - Pow2(e)
            && MachineStep(c, 0, false).threads[0] == Storing(x, 0) && MachineStep(c, 0, false).head == 1
  {
    CapacityBound(e);
    schedule := SleepWhileFilled(Pow2(e), n, x);
    ProgramFollowsIffSafe<E>(bits, e, n, schedule);
    var s := Exec(NewSystem<E>(Pow2(e), n), schedule);
    ClaimInWords(s, bits, e, x, Machined(s, bits, e));
  }
}
