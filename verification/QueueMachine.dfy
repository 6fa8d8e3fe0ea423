/** The same program with its real 32-bit counters and shuffled slot array, and the condition
    under which it behaves exactly like the unbounded ticket system. */
module QueueMachine {
  import opened Bits
  import opened IndexMap
  import opened Residues
  import opened TicketQueue
  import opened TicketOrder
  import opened QueueThreads
  import opened QueueRuns

  const WORD: int := 0x1_0000_0000
  const HALF: int := 0x8000_0000

  /** uint32_t arithmetic wraps; `static_cast<int32_t>` reinterprets. */
  function Word(n: int): nat { n % WORD }
  function Signed(w: nat): int { if w < HALF then w else w - WORD }

  /** Counters and the locals loaded from them are words; `bits` is SHUFFLE_BITS. */
  datatype Machine<E> = Machine(bits: nat, head: nat, tail: nat, slots: seq<Slot<E>>, threads: seq<Phase<E>>)

  /** `map<SHUFFLE_BITS>(m_queue, counter % m_size)`. */
  function SlotIndex(bits: nat, m: nat, counter: nat): nat
    requires m > 0
  {
    RemapIndex(bits, counter % m)
  }

  function SlotAt<E>(s: Machine<E>, counter: nat): Slot<E>
    requires |s.slots| > 0
  {
    var k := SlotIndex(s.bits, |s.slots|, counter);
    if k < |s.slots| then s.slots[k] else Nil
  }

  function Store<E>(s: Machine<E>, counter: nat, x: Slot<E>): seq<Slot<E>>
    requires |s.slots| > 0
  {
    var k := SlotIndex(s.bits, |s.slots|, counter);
    if k < |s.slots| then s.slots[k := x] else s.slots
  }

  /** One step of thread i, as the program text has it. */
  function MachineStep<E>(s: Machine<E>, i: nat, spurious: bool): (s': Machine<E>)
    requires |s.slots| > 0 && i < |s.threads|
    ensures |s'.slots| == |s.slots| && |s'.threads| == |s.threads| && s'.bits == s.bits
  {
    match s.threads[i]
    case TryPushLoad(e) => At(s, i, TryPushTest(e, s.head))
    case TryPushTest(e, h) =>
      if Signed(Word(h - s.tail)) >= Signed(Word(|s.slots|)) then At(s, i, Done(Refused(e)))
      else At(s, i, TryPushCas(e, h))
    case TryPushCas(e, h) =>
      if !spurious && h == s.head then At(s.(head := Word(h + 1)), i, Storing(e, h))
      else At(s, i, TryPushTest(e, s.head))
    case PushAdd(e) => At(s.(head := Word(s.head + 1)), i, Storing(e, s.head))
    case Storing(e, t) =>
      if !spurious && SlotAt(s, t).Nil? then At(s.(slots := Store(s, t, Full(e))), i, Done(Accepted)) else s
    case TryPopLoad => At(s, i, TryPopTest(s.tail))
    case TryPopTest(t) =>
      if Signed(Word(s.head - t)) <= 0 then At(s, i, Done(Nothing)) else At(s, i, TryPopCas(t))
    case TryPopCas(t) =>
      if !spurious && t == s.tail then At(s.(tail := Word(t + 1)), i, Taking(t))
      else At(s, i, TryPopTest(s.tail))
    case PopAdd => At(s.(tail := Word(s.tail + 1)), i, Taking(s.tail))
    case Taking(t) =>
      var x := SlotAt(s, t);
      if x.Full? then At(s.(slots := Store(s, t, Nil)), i, Done(Got(x.elem))) else s
    case SizeLoad => At(s, i, SizeTest(s.head))
    case SizeTest(h) => At(s, i, Done(Count(Max(Signed(Word(h - s.tail)), 0))))
    case _ => s
  }

  function At<E>(s: Machine<E>, i: nat, p: Phase<E>): Machine<E>
    requires i < |s.threads|
  {
    s.(threads := s.threads[i := p])
  }

  function MachineNext<E>(s: Machine<E>, a: Action<E>): (s': Machine<E>)
    requires |s.slots| > 0
    ensures |s'.slots| == |s.slots|
  {
    if a.tid >= |s.threads| then s
    else
      var p := s.threads[a.tid];
      match a
      case Invoke(i, op) => if p.Idle? then At(s, i, Entry(op)) else s
      case Collect(i) => if p.Done? then At(s, i, Idle) else s
      case Step(i, spurious) => MachineStep(s, i, spurious)
  }

  function MachineExec<E>(s: Machine<E>, schedule: seq<Action<E>>): Machine<E>
    requires |s.slots| > 0
    decreases |schedule|
  {
    if schedule == [] then s else MachineExec(MachineNext(s, schedule[0]), schedule[1..])
  }

  // ---------------------------------------------------------------- abstraction

  function WordPhase<E>(p: Phase<E>): Phase<E> {
    match p
    case TryPushTest(e, h) => TryPushTest(e, Word(h))
    case TryPushCas(e, h) => TryPushCas(e, Word(h))
    case Storing(e, t) => Storing(e, Word(t))
    case TryPopTest(t) => TryPopTest(Word(t))
    case TryPopCas(t) => TryPopCas(Word(t))
    case Taking(t) => Taking(Word(t))
    case SizeTest(h) => SizeTest(Word(h))
    case _ => p
  }

  /** Capacity 2^e and shuffle bits as the templates choose them. */
  ghost predicate Layout<E>(s: System<E>, bits: nat, e: nat) {
    |s.queue.cells| == Pow2(e) && 2 * bits <= e
  }

  ghost function Slots<E>(cells: seq<Cell<E>>, bits: nat, e: nat): (slots: seq<Slot<E>>)
    requires |cells| == Pow2(e) && 2 * bits <= e
    ensures |slots| == |cells|
  {
    seq(|cells|, k requires 0 <= k < |cells| => RemapPermutes(k, bits, e); cells[RemapIndex(bits, k)].slot)
  }

  /** What the 32-bit program holds when the unbounded system is in state s. */
  ghost function Machined<E>(s: System<E>, bits: nat, e: nat): (c: Machine<E>)
    requires Layout(s, bits, e)
    ensures |c.slots| == |s.queue.cells| && |c.threads| == |s.threads|
  {
    Machine(bits, Word(s.queue.head), Word(s.queue.tail), Slots(s.queue.cells, bits, e),
            seq(|s.threads|, i requires 0 <= i < |s.threads| => WordPhase(s.threads[i])))
  }

  // ---------------------------------------------------------------- word facts

  lemma SignedDifference(h: nat, t: nat)
    requires -HALF <= h - t < HALF
    ensures Signed(Word(Word(h) - Word(t))) == h - t
  {
  }

  lemma NextWord(h: nat)
    ensures Word(Word(h) + 1) == Word(h + 1)
  {
  }

  lemma WordIsPower()
    ensures Pow2(32) == WORD && Pow2(30) == HALF / 2 && Pow2(31) == HALF
  {
    assert Pow2(8) == 0x100;
    assert Pow2(16) == 0x1_0000;
    assert Pow2(24) == 0x100_0000;
  }

  /** After any number of wraparounds the counter still selects the ticket's lane. */
  lemma LaneOfWord(t: nat, e: nat)
    requires e <= 32
    ensures Word(t) % Pow2(e) == Lane(t, Pow2(e))
  {
    WordIsPower();
    LaneIsModulo(t, Pow2(e));
    ModuloIsMask(t, e);
    ModuloIsMask(Word(t), e);
    LowOfTicket(t, e, 32);
  }

  lemma SlotOfTicket<E>(cells: seq<Cell<E>>, bits: nat, e: nat, t: nat)
    requires |cells| == Pow2(e) && 2 * bits <= e <= 30
    ensures var k := SlotIndex(bits, Pow2(e), Word(t));
            && k < |cells| && Slots(cells, bits, e)[k] == cells[Lane(t, |cells|)].slot
  {
    LaneOfWord(t, e);
    RemapPermutes(Lane(t, |cells|), bits, e);
  }

  lemma SlotUpdate<E>(cells: seq<Cell<E>>, bits: nat, e: nat, t: nat, c: Cell<E>)
    requires |cells| == Pow2(e) && 2 * bits <= e <= 30
    ensures SlotIndex(bits, Pow2(e), Word(t)) < |cells|
    ensures Slots(cells[Lane(t, |cells|) := c], bits, e)
            == Slots(cells, bits, e)[SlotIndex(bits, Pow2(e), Word(t)) := c.slot]
  {
    var r := Lane(t, |cells|);
    LaneOfWord(t, e);
    RemapPermutes(r, bits, e);
    var k := RemapIndex(bits, r);
    var left, right := Slots(cells[r := c], bits, e), Slots(cells, bits, e)[k := c.slot];
    forall j | 0 <= j < |cells| ensures left[j] == right[j] {
      RemapPermutes(j, bits, e);
    }
  }

  // ---------------------------------------------------------------- freshness

  /** No thread has slept on a loaded counter while that counter advanced by 2^31 less the
      capacity and the number of threads. */
  ghost predicate Fresh<E>(s: System<E>) {
    var limit := HALF - |s.queue.cells| - |s.threads|;
    limit > 0 && forall i :: 0 <= i < |s.threads| ==> FreshPhase(s.queue, s.threads[i], limit)
  }

  ghost predicate FreshPhase<E>(q: Queue<E>, p: Phase<E>, limit: int) {
    match p
    case TryPushTest(_, h) => q.head - h < limit
    case TryPushCas(_, h) => q.head - h < limit
    case SizeTest(h) => q.head - h < limit
    case TryPopTest(t) => q.tail - t < limit
    case TryPopCas(t) => q.tail - t < limit
    case _ => true
  }

  lemma {:induction false} Below(n: nat) returns (r: set<nat>)
    ensures |r| == n && forall i: nat :: i in r <==> i < n
  {
    if n == 0 {
      r := {};
    } else {
      var r' := Below(n - 1);
      assert n - 1 !in r';
      r := r' + {n - 1};
    }
  }

  lemma SubsetCard(a: set<nat>, b: set<nat>)
    requires a <= b
    ensures |a| <= |b|
  {
    assert b == a + (b - a);
  }

  /** The counters never drift apart by more than the threads and the capacity account for. */
  lemma CounterGap<E>(s: System<E>)
    requires SysInv(s)
    ensures -|s.threads| <= s.queue.head - s.queue.tail <= |s.threads| + |s.queue.cells|
  {
    WaitersAreThreads(s);
    OccupiedIsDifference(s.queue.cells);
    var range := Below(|s.threads|);
    SubsetCard(Storers(s), range);
    SubsetCard(Takers(s), range);
  }

  // ---------------------------------------------------------------- refinement

  /** What one thread's step must look like in words. */
  ghost predicate StepAgrees<E>(s: System<E>, bits: nat, e: nat, i: nat, spurious: bool)
    requires Layout(s, bits, e) && i < |s.threads|
  {
    var q' := QueueStep(s.queue, i, s.threads[i], spurious);
    MachineStep(Machined(s, bits, e), i, spurious)
    == Machine(bits, Word(q'.head), Word(q'.tail), Slots(q'.cells, bits, e),
               Machined(s, bits, e).threads[i := WordPhase(PhaseStep(s.queue, s.threads[i], spurious))])
  }

  predicate OnSlot<E>(p: Phase<E>) { p.Storing? || p.Taking? }

  predicate OnTest<E>(p: Phase<E>) { p.TryPushTest? || p.TryPopTest? || p.SizeTest? }

  /** The steps on which 32-bit counters decide as unbounded ones would, given how far the other
      side or the own counter has gone on since the load. */
  predicate StepSafe<E>(q: Queue<E>, p: Phase<E>, spurious: bool) {
    match p
    case TryPushTest(_, h) => h - q.tail >= |q.cells| || !(HALF < (q.tail - h) % WORD <= WORD - |q.cells|)
    case TryPushCas(_, h) => spurious || h == q.head || (q.head - h) % WORD != 0
    case TryPopTest(t) => q.head <= t || 0 < (q.head - t) % WORD < HALF
    case TryPopCas(t) => spurious || t == q.tail || (q.tail - t) % WORD != 0
    case SizeTest(h) => h >= q.tail || (q.tail - h) % WORD <= HALF
    case _ => true
  }

  /** `static_cast<int32_t>(h - t)`, whatever the distance. */
  lemma SignedGap(h: nat, t: nat)
    ensures Word(Word(h) - Word(t)) == (h - t) % WORD
  {
  }

  lemma Opposite(d: int)
    ensures (-d) % WORD == if d % WORD == 0 then 0 else WORD - d % WORD
  {
    var k, r := d / WORD, d % WORD;
    assert d == WORD * k + r;
    if r == 0 {
      assert -d == WORD * (-k);
    } else {
      assert -d == WORD * (-k - 1) + (WORD - r);
    }
  }

  lemma PushTestAgrees(d: int, m: nat)
    requires 0 < m <= HALF / 2 && d < HALF
    ensures (Signed(d % WORD) >= m) == (d >= m) <==> d >= m || !(HALF < (-d) % WORD <= WORD - m)
  {
    Opposite(d);
  }

  lemma PopTestAgrees(d: int)
    requires -HALF <= d
    ensures (Signed(d % WORD) <= 0) == (d <= 0) <==> d <= 0 || 0 < d % WORD < HALF
  {
  }

  lemma SizeAgrees(d: int)
    requires d < HALF
    ensures Max(Signed(d % WORD), 0) == Max(d, 0) <==> d >= 0 || (-d) % WORD <= HALF
  {
    Opposite(d);
    if d >= 0 {
      assert d % WORD == d;
    }
  }

  /** A step that changes no counter and no slot agrees when the thread's phase does. */
  lemma PhaseDecides<E>(s: System<E>, bits: nat, e: nat, i: nat, spurious: bool)
    requires Layout(s, bits, e) && i < |s.threads| && OnTest(s.threads[i])
    ensures StepAgrees(s, bits, e, i, spurious)
            <==> MachineStep(Machined(s, bits, e), i, spurious).threads[i] == WordPhase(PhaseStep(s.queue, s.threads[i], spurious))
  {
    var c := Machined(s, bits, e);
    var p' := WordPhase(PhaseStep(s.queue, s.threads[i], spurious));
    assert c.threads[i := p'][i] == p';
    assert c.threads[i] == WordPhase(s.threads[i]);
  }

  /** The outcome of each test in words. */
  lemma TestInWords<E>(c: Machine<E>, q: Queue<E>, p: Phase<E>, i: nat, spurious: bool)
    requires |c.slots| > 0 && i < |c.threads| && c.threads[i] == WordPhase(p) && OnTest(p)
    requires c.head == Word(q.head) && c.tail == Word(q.tail) && Signed(Word(|c.slots|)) == |c.slots|
    ensures MachineStep(c, i, spurious).threads[i]
            == match p
               case TryPushTest(x, h) =>
                 if Signed((h - q.tail) % WORD) >= |c.slots| then Done(Refused(x)) else TryPushCas(x, Word(h))
               case TryPopTest(t) => if Signed((q.head - t) % WORD) <= 0 then Done(Nothing) else TryPopCas(Word(t))
               case SizeTest(h) => Done(Count(Max(Signed((h - q.tail) % WORD), 0)))
               case _ => p
  {
    match p
    case TryPushTest(_, h) => SignedGap(h, q.tail);
    case TryPopTest(t) => SignedGap(q.head, t);
    case SizeTest(h) => SignedGap(h, q.tail);
  }

  lemma TestStepAgrees<E>(s: System<E>, bits: nat, e: nat, i: nat, spurious: bool)
    requires Layout(s, bits, e) && e <= 30 && i < |s.threads| && OnTest(s.threads[i])
    requires PhaseOk(s.queue, i, s.threads[i]) && -HALF <= s.queue.head - s.queue.tail < HALF
    ensures StepAgrees(s, bits, e, i, spurious) <==> StepSafe(s.queue, s.threads[i], spurious)
  {
    var q, p, c := s.queue, s.threads[i], Machined(s, bits, e);
    CapacityFits(e);
    CapacityBound(e);
    PhaseDecides(s, bits, e, i, spurious);
    TestInWords(c, q, p, i, spurious);
    TestsAgree(q, p, spurious);
  }

  /** The same outcome as the ticket system exactly on safe steps. */
  lemma TestsAgree<E>(q: Queue<E>, p: Phase<E>, spurious: bool)
    requires OnTest(p) && 0 < |q.cells| <= HALF / 2 && PhaseOk(q, 0, p) && -HALF <= q.head - q.tail < HALF
    ensures StepSafe(q, p, spurious)
            <==> match p
                 case TryPushTest(_, h) => (Signed((h - q.tail) % WORD) >= |q.cells|) == (h - q.tail >= |q.cells|)
                 case TryPopTest(t) => (Signed((q.head - t) % WORD) <= 0) == (q.head - t <= 0)
                 case SizeTest(h) => Max(Signed((h - q.tail) % WORD), 0) == Max(h - q.tail, 0)
                 case _ => true
  {
    match p
    case TryPushTest(_, h) => PushTestAgrees(h - q.tail, |q.cells|);
    case TryPopTest(t) => PopTestAgrees(q.head - t);
    case SizeTest(h) => SizeAgrees(h - q.tail);
  }

  lemma SameWordIff(h: nat, g: nat)
    requires h <= g
    ensures Word(h) == Word(g) <==> (g - h) % WORD == 0
  {
  }

  predicate OnCas<E>(p: Phase<E>) { p.TryPushCas? || p.TryPopCas? }

  lemma CasStepAgrees<E>(s: System<E>, bits: nat, e: nat, i: nat, spurious: bool)
    requires Layout(s, bits, e) && i < |s.threads| && OnCas(s.threads[i]) && PhaseOk(s.queue, i, s.threads[i])
    ensures StepAgrees(s, bits, e, i, spurious) <==> StepSafe(s.queue, s.threads[i], spurious)
  {
    var q, p := s.queue, s.threads[i];
    NextWord(q.head);
    NextWord(q.tail);
    assert Machined(s, bits, e).threads[i] == WordPhase(p);
    if p.TryPushCas? {
      SameWordIff(p.head, q.head);
    } else {
      SameWordIff(p.tail, q.tail);
    }
  }

  /** Loads and unconditional increments agree always. */
  lemma LoadStepAgrees<E>(s: System<E>, bits: nat, e: nat, i: nat, spurious: bool)
    requires Layout(s, bits, e) && i < |s.threads|
    requires !OnSlot(s.threads[i]) && !OnTest(s.threads[i]) && !OnCas(s.threads[i])
    ensures StepAgrees(s, bits, e, i, spurious) && StepSafe(s.queue, s.threads[i], spurious)
  {
    NextWord(s.queue.head);
    NextWord(s.queue.tail);
    assert Machined(s, bits, e).threads[i] == WordPhase(s.threads[i]);
  }

  lemma CapacityFits(e: nat)
    requires e <= 30
    ensures Signed(Word(Pow2(e))) == Pow2(e)
  {
    CapacityBound(e);
  }

  lemma CapacityBound(e: nat)
    requires e <= 30
    ensures Pow2(e) <= HALF / 2
  {
    WordIsPower();
    Pow2Monotone(e, 30);
  }

  lemma SlotStepAgrees<E>(s: System<E>, bits: nat, e: nat, i: nat, spurious: bool)
    requires Layout(s, bits, e) && e <= 30 && i < |s.threads| && OnSlot(s.threads[i])
    ensures StepAgrees(s, bits, e, i, spurious)
  {
    var q := s.queue;
    var t := s.threads[i].ticket;
    var l := q.cells[LaneOf(q, t)];
    var c := Machined(s, bits, e);
    SlotOfTicket(q.cells, bits, e, t);
    assert SlotAt(c, Word(t)) == l.slot;
    match s.threads[i]
    case Storing(x, _) =>
      if l.slot.Nil? { SlotUpdate(q.cells, bits, e, t, Fill(l, t, x)); }
    case Taking(_) =>
      if l.slot.Full? { SlotUpdate(q.cells, bits, e, t, Drain(l, t)); }
  }

  /** Each step of the program is the step of the ticket system exactly when it is safe. */
  lemma EveryStepAgrees<E>(s: System<E>, bits: nat, e: nat, i: nat, spurious: bool)
    requires SysInv(s) && Layout(s, bits, e) && e <= 30 && |s.queue.cells| + |s.threads| < HALF && i < |s.threads|
    ensures StepAgrees(s, bits, e, i, spurious) <==> StepSafe(s.queue, s.threads[i], spurious)
  {
    if OnSlot(s.threads[i]) {
      SlotStepAgrees(s, bits, e, i, spurious);
    } else {
      CounterGap(s);
      assert PhaseOk(s.queue, i, s.threads[i]);
      if OnTest(s.threads[i]) {
        TestStepAgrees(s, bits, e, i, spurious);
      } else if OnCas(s.threads[i]) {
        CasStepAgrees(s, bits, e, i, spurious);
      } else {
        LoadStepAgrees(s, bits, e, i, spurious);
      }
    }
  }

  /** Agreement of the thread that moves is agreement of the whole state. */
  lemma AgreementLifts<E>(s: System<E>, bits: nat, e: nat, a: Action<E>)
    requires Layout(s, bits, e)
    ensures Layout(Next(s, a), bits, e)
    ensures MachineNext(Machined(s, bits, e), a) == Machined(Next(s, a), bits, e)
            <==> (a.Step? && a.tid < |s.threads| ==> StepAgrees(s, bits, e, a.tid, a.spurious))
  {
    if a.tid < |s.threads| {
      var p' := Next(s, a).threads[a.tid];
      assert Machined(Next(s, a), bits, e).threads == Machined(s, bits, e).threads[a.tid := WordPhase(p')];
    }
  }

  predicate ActionSafe<E>(s: System<E>, a: Action<E>) {
    a.Step? && a.tid < |s.threads| ==> StepSafe(s.queue, s.threads[a.tid], a.spurious)
  }

  predicate AlwaysSafe<E>(s: System<E>, schedule: seq<Action<E>>)
    requires |s.queue.cells| > 0
    decreases |schedule|
  {
    schedule == [] || (ActionSafe(s, schedule[0]) && AlwaysSafe(Next(s, schedule[0]), schedule[1..]))
  }

  /** The program makes every step of the run that the ticket system makes. */
  ghost predicate Follows<E>(s: System<E>, bits: nat, e: nat, schedule: seq<Action<E>>)
    requires Layout(s, bits, e)
    decreases |schedule|
  {
    schedule == [] ||
    (MachineNext(Machined(s, bits, e), schedule[0]) == Machined(Next(s, schedule[0]), bits, e)
     && Follows(Next(s, schedule[0]), bits, e, schedule[1..]))
  }

  lemma {:induction false} FollowsIffSafe<E>(s: System<E>, bits: nat, e: nat, schedule: seq<Action<E>>)
    requires SysInv(s) && Layout(s, bits, e) && e <= 30 && |s.queue.cells| + |s.threads| < HALF
    ensures Follows(s, bits, e, schedule) <==> AlwaysSafe(s, schedule)
    decreases |schedule|
  {
    if schedule != [] {
      var a := schedule[0];
      if a.tid < |s.threads| && a.Step? {
        EveryStepAgrees(s, bits, e, a.tid, a.spurious);
      }
      AgreementLifts(s, bits, e, a);
      NextInv(s, a);
      FollowsIffSafe(Next(s, a), bits, e, schedule[1..]);
    }
  }

  lemma {:induction false} FollowsToEnd<E>(s: System<E>, bits: nat, e: nat, schedule: seq<Action<E>>)
    requires Layout(s, bits, e) && Follows(s, bits, e, schedule)
    ensures Layout(Exec(s, schedule), bits, e)
    ensures MachineExec(Machined(s, bits, e), schedule) == Machined(Exec(s, schedule), bits, e)
    decreases |schedule|
  {
    if schedule != [] {
      FollowsToEnd(Next(s, schedule[0]), bits, e, schedule[1..]);
    }
  }

  ghost predicate AlwaysFresh<E>(s: System<E>, schedule: seq<Action<E>>)
    requires |s.queue.cells| > 0
    decreases |schedule|
  {
    Fresh(s) && (schedule != [] ==> AlwaysFresh(Next(s, schedule[0]), schedule[1..]))
  }

  lemma FreshStepSafe<E>(q: Queue<E>, i: nat, p: Phase<E>, n: nat, spurious: bool)
    requires PhaseOk(q, i, p) && |q.cells| + n < HALF && FreshPhase(q, p, HALF - |q.cells| - n)
    requires q.tail - n <= q.head <= q.tail + n + |q.cells|
    ensures StepSafe(q, p, spurious)
  {
  }

  /** Freshness is a sufficient condition that each thread can see to by itself. */
  lemma {:induction false} FreshIsSafe<E>(s: System<E>, schedule: seq<Action<E>>)
    requires SysInv(s) && AlwaysFresh(s, schedule)
    ensures AlwaysSafe(s, schedule)
    decreases |schedule|
  {
    if schedule != [] {
      var a := schedule[0];
      if a.tid < |s.threads| {
        CounterGap(s);
        assert PhaseOk(s.queue, a.tid, s.threads[a.tid]);
        FreshStepSafe(s.queue, a.tid, s.threads[a.tid], |s.threads|, a.Step? && a.spurious);
      }
      NextInv(s, a);
      FreshIsSafe(Next(s, a), schedule[1..]);
    }
  }

  /** The constructor's state: counters zero, every slot NIL. */
  function NewMachine<E>(bits: nat, e: nat, n: nat): (c: Machine<E>)
    ensures |c.slots| == Pow2(e)
  {
    Machine(bits, 0, 0, seq(Pow2(e), _ => Nil), seq(n, _ => Idle))
  }

  lemma NewMachineIsNew<E>(bits: nat, e: nat, n: nat)
    requires 2 * bits <= e <= 30
    ensures Layout(NewSystem<E>(Pow2(e), n), bits, e)
    ensures NewMachine<E>(bits, e, n) == Machined(NewSystem<E>(Pow2(e), n), bits, e)
  {
    var s0 := NewSystem<E>(Pow2(e), n);
    forall k | 0 <= k < Pow2(e) ensures Slots(s0.queue.cells, bits, e)[k] == Nil {
      RemapPermutes(k, bits, e);
    }
    assert Machined(s0, bits, e).slots == NewMachine<E>(bits, e, n).slots;
    assert Machined(s0, bits, e).threads == NewMachine<E>(bits, e, n).threads;
  }

  /** For every capacity up to 2^30, every shuffle that fits it and every number of threads:
      the program follows a run of the ticket system, read modulo 2^32, step by step exactly
      when every step of the run is safe. */
  lemma ProgramFollowsIffSafe<E>(bits: nat, e: nat, n: nat, schedule: seq<Action<E>>)
    requires 2 * bits <= e <= 30 && Pow2(e) + n < HALF
    ensures Layout(NewSystem<E>(Pow2(e), n), bits, e)
    ensures Follows(NewSystem<E>(Pow2(e), n), bits, e, schedule) <==> AlwaysSafe(NewSystem<E>(Pow2(e), n), schedule)
    ensures AlwaysSafe(NewSystem<E>(Pow2(e), n), schedule) ==>
              var s := Exec(NewSystem<E>(Pow2(e), n), schedule);
              Layout(s, bits, e) && MachineExec(NewMachine<E>(bits, e, n), schedule) == Machined(s, bits, e)
  {
    NewMachineIsNew<E>(bits, e, n);
    NewSystemInv<E>(Pow2(e), n);
    FollowsIffSafe(NewSystem<E>(Pow2(e), n), bits, e, schedule);
    if AlwaysSafe(NewSystem<E>(Pow2(e), n), schedule) {
      FollowsToEnd(NewSystem<E>(Pow2(e), n), bits, e, schedule);
    }
  }

  /** In particular it follows every fresh run. */
  lemma ProgramRefinesTickets<E>(bits: nat, e: nat, n: nat, schedule: seq<Action<E>>)
    requires 2 * bits <= e <= 30
    requires AlwaysFresh(NewSystem<E>(Pow2(e), n), schedule)
    ensures var s := Exec(NewSystem<E>(Pow2(e), n), schedule);
            Layout(s, bits, e) && MachineExec(NewMachine<E>(bits, e, n), schedule) == Machined(s, bits, e)
  {
    NewSystemInv<E>(Pow2(e), n);
    assert Fresh(NewSystem<E>(Pow2(e), n));
    FreshIsSafe(NewSystem<E>(Pow2(e), n), schedule);
    ProgramFollowsIffSafe<E>(bits, e, n, schedule);
  }

  /** The capacity is compared as a signed number: an empty queue admits a tryPush exactly when
      the capacity is at most 2^30, since 2^31 reads as a negative capacity. */
  lemma EmptyQueueAdmits<E>(s: Machine<E>, i: nat, e: nat, x: E)
    requires e <= 31 && |s.slots| == Pow2(e) && i < |s.threads| && s.head == s.tail
    requires s.threads[i] == TryPushTest(x, s.head)
    ensures MachineStep(s, i, false).threads[i] == (if e <= 30 then TryPushCas(x, s.head) else Done(Refused(x)))
  {
    SignedCapacity(e);
    EqualCountersAdmit(s, i, x);
  }

  lemma EqualCountersAdmit<E>(s: Machine<E>, i: nat, x: E)
    requires |s.slots| > 0 && i < |s.threads| && s.head == s.tail && s.threads[i] == TryPushTest(x, s.head)
    ensures MachineStep(s, i, false).threads[i]
            == if Signed(Word(|s.slots|)) > 0 then TryPushCas(x, s.head) else Done(Refused(x))
  {
    assert Signed(Word(s.head - s.tail)) == 0;
  }

  lemma SignedCapacity(e: nat)
    requires e <= 31
    ensures Signed(Word(Pow2(e))) > 0 <==> e <= 30
  {
    if e <= 30 {
      CapacityFits(e);
    } else {
      WordIsPower();
      SignedHalf();
    }
  }

  lemma SignedHalf()
    ensures Signed(Word(HALF)) == -HALF
  {
  }

  /** With 2^31 slots every tryPush is refused, whatever the counters say. */
  lemma HugeQueueRefuses<E>(s: Machine<E>, i: nat, x: E, h: nat, spurious: bool)
    requires |s.slots| == Pow2(31) && i < |s.threads| && s.threads[i] == TryPushTest(x, h)
    ensures MachineStep(s, i, spurious).threads[i] == Done(Refused(x))
  {
    WordIsPower();
  }
}
