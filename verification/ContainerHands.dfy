/** Who holds which entry of the container, and what its calls do for a client that is alone. */
module ContainerHands {
  import opened Residues
  import opened TicketQueue
  import opened TicketOrder
  import opened QueueThreads
  import opened QueueRuns
  import opened QueueScripts
  import opened Places
  import opened Containers

  // ---------------------------------------------------------------- ownership

  /** Client j receives entry e: its own call returns it, or another client passes it on. */
  predicate Gains(c: Container, a: Event, j: nat, e: nat)
    requires j < |c.hands| == |c.sys.threads|
  {
    || (a.Leave? && a.tid == j && (c.sys.threads[j] == Done(Got(e)) || c.sys.threads[j] == Done(Refused(e))))
    || (a.Pass? && a.tid < |c.hands| && a.other == j && a.entry == e && e in c.hands[a.tid])
  }

  /** Client j gives entry e away: it returns it or passes it to somebody else. */
  predicate Yields(c: Container, a: Event, j: nat, e: nat)
    requires j < |c.hands| == |c.sys.threads|
  {
    || (a.Return? && a.tid == j && a.entry == e && c.sys.threads[j].Idle?)
    || (a.Pass? && a.tid == j && a.other < |c.hands| && a.other != j && a.entry == e)
  }

  /** Hands change by these events and no others. */
  lemma HandsChange(c: Container, a: Event, j: nat, e: nat)
    requires Books(c) && |c.sys.queue.cells| > 0 && j < |c.hands| == |c.sys.threads|
    ensures var c' := Containers.Next(c, a);
            && |c'.hands| == |c.hands|
            && (e in c'.hands[j] <==> (e in c.hands[j] && !Yields(c, a, j, e)) || Gains(c, a, j, e))
  {
    if a.tid < |c.hands| && a.Leave? {
      var p := c.sys.threads[a.tid];
      if p.Done? && (p.reply.Got? || p.reply.Refused?) {
        assert Carries(p, p.reply.elem);
      }
    }
    if a.tid < |c.hands| && (a.Pass? || a.Return?) {
      assert a.entry in c.hands[a.tid] ==> a.entry < |c.place|;
    }
  }

  /** The same seen from the start of a run: who gained e last and has not given it away since. */
  ghost function Holder(c: Container, schedule: seq<Event>, j: nat, e: nat, holds: bool): bool
    requires |c.sys.queue.cells| > 0 && j < |c.hands| == |c.sys.threads|
    decreases |schedule|
  {
    if schedule == [] then holds
    else
      var a, c' := schedule[0], Containers.Next(c, schedule[0]);
      if |c'.hands| == |c.hands| && |c'.sys.threads| == |c.sys.threads| then
        Holder(c', schedule[1..], j, e, (holds && !Yields(c, a, j, e)) || Gains(c, a, j, e))
      else holds
  }

  lemma {:induction false} HandsTrace(c: Container, schedule: seq<Event>, j: nat, e: nat)
    requires Containers.Inv(c) && j < |c.hands|
    ensures var c' := Containers.Exec(c, schedule);
            j < |c'.hands| && (e in c'.hands[j] <==> Holder(c, schedule, j, e, e in c.hands[j]))
    decreases |schedule|
  {
    if schedule != [] {
      HandsChange(c, schedule[0], j, e);
      Containers.NextInv(c, schedule[0]);
      HandsTrace(Containers.Next(c, schedule[0]), schedule[1..], j, e);
    }
  }

  /** In every run a client holds exactly the entries that its own calls returned, or that were
      passed to it, and that it has not given away since. */
  lemma HoldersAreTheirOwn(m: nat, size: nat, n: nat, schedule: seq<Event>, j: nat, e: nat)
    requires 0 < m && size <= m && j < n
    ensures var c0 := NewContainer(m, size, n);
            var c := Containers.Exec(c0, schedule);
            j < |c.hands| && (e in c.hands[j] <==> Holder(c0, schedule, j, e, false))
  {
    NewContainerInv(m, size, n);
    HandsTrace(NewContainer(m, size, n), schedule, j, e);
  }

  // ---------------------------------------------------------------- one client alone

  lemma {:induction false} RunsConcat(c: Container, x: seq<Event>, y: seq<Event>)
    requires |c.sys.queue.cells| > 0
    ensures Containers.Exec(c, x + y) == Containers.Exec(Containers.Exec(c, x), y)
    decreases |x|
  {
    if x == [] {
      assert x + y == y;
    } else {
      RunsConcat(Containers.Next(c, x[0]), x[1..], y);
      assert (x + y)[1..] == x[1..] + y;
    }
  }

  lemma Then(c: Container, d: Container, schedule: seq<Event>, a: Event) returns (d': Container, schedule': seq<Event>)
    requires |c.sys.queue.cells| > 0 && d == Containers.Exec(c, schedule)
    ensures schedule' == schedule + [a] && d' == Containers.Exec(c, schedule') == Containers.Next(d, a)
  {
    d', schedule' := Containers.Next(d, a), schedule + [a];
    RunsConcat(c, schedule, [a]);
    assert [a][1..] == [];
  }

  predicate ByClient(schedule: seq<Event>, i: nat) {
    forall k :: 0 <= k < |schedule| ==> schedule[k].tid == i
  }

  /** Client i is between calls. */
  predicate Resting(c: Container, i: nat) {
    |c.sys.queue.cells| > 0 && i < |c.sys.threads| == |c.hands| && c.sys.threads[i] == Idle
  }

  /** A call begins: an acquiring client goes to the blocking pop, a returning one to tryPush, and
      a question for the size to size. */
  lemma CallBegins(c: Container, a: Event, op: Op<nat>)
    requires Resting(c, a.tid)
    requires (a.Acquire? && op == Pop) || (a.AskSize? && op == Size)
             || (a.Return? && op == TryPush(a.entry) && a.entry in c.hands[a.tid] && a.entry < |c.place|)
    ensures Containers.Next(c, a).sys == System(c.sys.queue, c.sys.threads[a.tid := Entry(op)])
    ensures !a.Return? ==> Containers.Next(c, a).hands == c.hands && Containers.Next(c, a).place == c.place
    ensures a.Return? ==> Containers.Next(c, a).hands == c.hands[a.tid := c.hands[a.tid] - {a.entry}]
  {
  }

  /** A step inside a call moves no entry into a hand or out of one. */
  lemma CallGoesOn(c: Container, i: nat, p: Phase<nat>, q: Queue<nat>)
    requires |c.sys.queue.cells| > 0 && i < |c.sys.threads| == |c.hands|
    requires p == PhaseStep(c.sys.queue, c.sys.threads[i], false) && q == QueueStep(c.sys.queue, i, c.sys.threads[i], false)
    ensures var c' := Containers.Next(c, Run(i, false));
            && c'.sys == System(q, c.sys.threads[i := p]) && c'.hands == c.hands && |c'.place| == |c.place|
            && (!c.sys.threads[i].Storing? && !c.sys.threads[i].Taking? ==> c'.place == c.place)
  {
  }

  /** The blocking pop of an acquiring client has its ticket. */
  lemma AcquireStart(c: Container, i: nat) returns (schedule: seq<Event>)
    requires Resting(c, i)
    ensures ByClient(schedule, i)
    ensures var c' := Containers.Exec(c, schedule);
            && c'.sys == System(ClaimTake(c.sys.queue, i), c.sys.threads[i := Taking(c.sys.queue.tail)])
            && c'.hands == c.hands && |c'.place| == |c.place|
  {
    var d;
    CallBegins(c, Acquire(i), Pop);
    d, schedule := Then(c, c, [], Acquire(i));
    CallGoesOn(d, i, Taking(c.sys.queue.tail), ClaimTake(c.sys.queue, i));
    d, schedule := Then(c, d, schedule, Run(i, false));
    assert c.sys.threads[i := PopAdd][i := Taking(c.sys.queue.tail)] == c.sys.threads[i := Taking(c.sys.queue.tail)];
  }

  /** A client that acquires while nobody else runs gets the entry that has waited longest into
      its own hands; if none waits, it stays in the call. */
  lemma AcquireAlone(c: Container, i: nat, e: nat) returns (schedule: seq<Event>)
    requires Resting(c, i) && c.sys.queue.cells[LaneOf(c.sys.queue, c.sys.queue.tail)].slot == Full(e) && e < |c.place|
    ensures ByClient(schedule, i)
    ensures var c' := Containers.Exec(c, schedule);
            && c'.sys == System(Popped(c.sys.queue, i), c.sys.threads)
            && c'.hands == c.hands[i := c.hands[i] + {e}]
  {
    var q, d := c.sys.queue, c;
    schedule := AcquireStart(c, i);
    d := Containers.Exec(c, schedule);
    CallGoesOn(d, i, Done(Got(e)), Popped(q, i));
    d, schedule := Then(c, d, schedule, Run(i, false));
    d, schedule := Then(c, d, schedule, Leave(i));
    assert d.sys.threads == c.sys.threads;
  }

  lemma AcquireWaits(c: Container, i: nat, spurious: bool) returns (schedule: seq<Event>)
    requires Resting(c, i) && c.sys.queue.cells[LaneOf(c.sys.queue, c.sys.queue.tail)].slot.Nil?
    ensures ByClient(schedule, i)
    ensures var c' := Containers.Exec(c, schedule);
            && c'.sys == System(ClaimTake(c.sys.queue, i), c.sys.threads[i := Taking(c.sys.queue.tail)]) && c'.hands == c.hands
            && Containers.Next(c', Run(i, spurious)) == c' && Containers.Next(c', Leave(i)) == c'
  {
    schedule := AcquireStart(c, i);
    var c' := Containers.Exec(c, schedule);
    assert c'.sys.threads[i := c'.sys.threads[i]] == c'.sys.threads;
  }

  /** A client that returns an entry while nobody else runs leaves it behind all that wait. */
  lemma ReturnAlone(c: Container, i: nat, e: nat) returns (schedule: seq<Event>)
    requires Resting(c, i) && e in c.hands[i] && e < |c.place|
    requires c.sys.queue.head - c.sys.queue.tail < |c.sys.queue.cells|
    requires c.sys.queue.cells[LaneOf(c.sys.queue, c.sys.queue.head)].slot.Nil?
    ensures ByClient(schedule, i)
    ensures var c' := Containers.Exec(c, schedule);
            && c'.sys == System(Pushed(c.sys.queue, i, e), c.sys.threads)
            && c'.hands == c.hands[i := c.hands[i] - {e}]
  {
    var start := ReturnClaims(c, i, e);
    var q, d := c.sys.queue, Containers.Exec(c, start);
    schedule := start;
    CallGoesOn(d, i, Done(Accepted), Pushed(q, i, e));
    d, schedule := Then(c, d, schedule, Run(i, false));
    d, schedule := Then(c, d, schedule, Leave(i));
    assert d.sys.threads == c.sys.threads;
  }

  lemma ReturnClaims(c: Container, i: nat, e: nat) returns (schedule: seq<Event>)
    requires Resting(c, i) && e in c.hands[i] && e < |c.place|
    requires c.sys.queue.head - c.sys.queue.tail < |c.sys.queue.cells|
    ensures ByClient(schedule, i)
    ensures var c' := Containers.Exec(c, schedule);
            && c'.sys == System(ClaimPut(c.sys.queue, i, e), c.sys.threads[i := Storing(e, c.sys.queue.head)])
            && c'.hands == c.hands[i := c.hands[i] - {e}] && |c'.place| == |c.place|
  {
    var q, d := c.sys.queue, c;
    CallBegins(c, Return(i, e), TryPush(e));
    d, schedule := Then(c, c, [], Return(i, e));
    CallGoesOn(d, i, TryPushTest(e, q.head), q);
    d, schedule := Then(c, d, schedule, Run(i, false));
    CallGoesOn(d, i, TryPushCas(e, q.head), q);
    d, schedule := Then(c, d, schedule, Run(i, false));
    CallGoesOn(d, i, Storing(e, q.head), ClaimPut(q, i, e));
    d, schedule := Then(c, d, schedule, Run(i, false));
    assert d.sys.threads == c.sys.threads[i := Storing(e, q.head)];
  }

  /** Asking for the size moves no entry and changes nothing. Between other calls the answer,
      subtracted from SIZE, is the number of entries in clients' hands. */
  lemma SizeAlone(c: Container, i: nat) returns (schedule: seq<Event>, k: nat)
    requires Containers.Inv(c) && Resting(c, i) && forall j :: 0 <= j < |c.sys.threads| ==> c.sys.threads[j].Idle?
    ensures ByClient(schedule, i)
    ensures var c' := Containers.Exec(c, schedule);
            && c'.sys == System(c.sys.queue, c.sys.threads[i := Done(Count(k))])
            && |c.place| - k == |Held(c)|
            && Containers.Next(c', Leave(i)) == c && c'.hands == c.hands && c'.place == c.place
  {
    QuietSize(c);
    schedule, k := SizeAnswers(c, i);
  }

  lemma SizeAnswers(c: Container, i: nat) returns (schedule: seq<Event>, k: nat)
    requires Resting(c, i)
    ensures ByClient(schedule, i) && k == Max(c.sys.queue.head - c.sys.queue.tail, 0)
    ensures var c' := Containers.Exec(c, schedule);
            && c'.sys == System(c.sys.queue, c.sys.threads[i := Done(Count(k))])
            && Containers.Next(c', Leave(i)) == c && c'.hands == c.hands && c'.place == c.place
  {
    var q, d := c.sys.queue, c;
    k := Max(q.head - q.tail, 0);
    schedule := SizeLooks(c, i);
    d := Containers.Exec(c, schedule);
    CallGoesOn(d, i, Done(Count(k)), q);
    d, schedule := Then(c, d, schedule, Run(i, false));
    assert c.sys.threads[i := SizeTest(q.head)][i := Done(Count(k))] == c.sys.threads[i := Done(Count(k))];
    SizeCollected(c, i, k);
  }

  lemma SizeCollected(c: Container, i: nat, k: nat)
    requires Resting(c, i)
    ensures Containers.Next(Container(System(c.sys.queue, c.sys.threads[i := Done(Count(k))]), c.hands, c.place), Leave(i)) == c
  {
    assert c.sys.threads[i := Done(Count(k))][i := Idle] == c.sys.threads;
  }

  lemma SizeLooks(c: Container, i: nat) returns (schedule: seq<Event>)
    requires Resting(c, i)
    ensures ByClient(schedule, i)
    ensures Containers.Exec(c, schedule)
            == Container(System(c.sys.queue, c.sys.threads[i := SizeTest(c.sys.queue.head)]), c.hands, c.place)
  {
    var d;
    CallBegins(c, AskSize(i), Size);
    d, schedule := Then(c, c, [], AskSize(i));
    CallGoesOn(d, i, SizeTest(c.sys.queue.head), c.sys.queue);
    d, schedule := Then(c, d, schedule, Run(i, false));
    assert c.sys.threads[i := SizeLoad][i := SizeTest(c.sys.queue.head)] == c.sys.threads[i := SizeTest(c.sys.queue.head)];
  }
}
