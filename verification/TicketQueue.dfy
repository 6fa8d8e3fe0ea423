/** The lock-free queue seen at the level of tickets.

    The two counters hand out tickets; ticket `t` works on the slot of lane
    `t % m_size`. A claimed push waits until it can swap NIL for its element, a
    claimed pop waits until it can swap an element for NIL. One function here is
    one atomic step of sw/itc-common/inc/itcLockFreeQueue.h. Every lane also
    records who wrote and who took, in the order in which the slot saw them. */
module TicketQueue {
  import opened Residues

  datatype Slot<E> = Nil | Full(elem: E)

  /** An element together with the ticket of the push that wrote it or the pop that took it. */
  datatype Item<E> = Item(ticket: nat, elem: E)

  datatype Cell<E> = Cell(slot: Slot<E>, written: seq<Item<E>>, taken: seq<Item<E>>)

  /** `puts` and `takes` map the ticket of each claimed but unfinished operation to the
      thread that holds it; `claimed[t]` is the element the push with ticket `t` brings. */
  datatype Queue<E> = Queue(head: nat, tail: nat, cells: seq<Cell<E>>,
                            puts: map<nat, nat>, takes: map<nat, nat>, claimed: seq<E>)

  function NewQueue<E>(m: nat): Queue<E> {
    Queue(0, 0, seq(m, _ => Cell(Nil, [], [])), map[], map[], [])
  }

  // ---------------------------------------------------------------- steps

  /** The counter increment of a push: `m_head.fetch_add(1)` or a successful CAS on m_head. */
  function ClaimPut<E>(q: Queue<E>, owner: nat, e: E): Queue<E> {
    q.(head := q.head + 1, puts := q.puts[q.head := owner], claimed := q.claimed + [e])
  }

  /** The counter increment of a pop. */
  function ClaimTake<E>(q: Queue<E>, owner: nat): Queue<E> {
    q.(tail := q.tail + 1, takes := q.takes[q.tail := owner])
  }

  function LaneOf<E>(q: Queue<E>, t: nat): (r: nat)
    requires |q.cells| > 0
    ensures r < |q.cells|
  {
    Lane(t, |q.cells|)
  }

  function Fill<E>(l: Cell<E>, t: nat, e: E): Cell<E> {
    Cell(Full(e), l.written + [Item(t, e)], l.taken)
  }

  function Drain<E>(l: Cell<E>, t: nat): Cell<E>
    requires l.slot.Full?
  {
    Cell(Nil, l.written, l.taken + [Item(t, l.slot.elem)])
  }

  /** One attempt of `doPushAtomic` on the slot: nothing happens unless the slot is NIL. */
  function Put<E>(q: Queue<E>, t: nat, e: E): Queue<E>
    requires |q.cells| > 0
  {
    var l := q.cells[LaneOf(q, t)];
    if l.slot.Full? then q
    else q.(cells := q.cells[LaneOf(q, t) := Fill(l, t, e)],
            puts := q.puts - {t})
  }

  /** One attempt of `doPopAtomic` on the slot: exchanging NIL for NIL changes nothing. */
  function Take<E>(q: Queue<E>, t: nat): Queue<E>
    requires |q.cells| > 0
  {
    var l := q.cells[LaneOf(q, t)];
    if l.slot.Nil? then q
    else q.(cells := q.cells[LaneOf(q, t) := Drain(l, t)],
            takes := q.takes - {t})
  }

  // ---------------------------------------------------------------- counting tickets

  function InLane(s: set<nat>, m: nat, r: nat): set<nat>
    requires m > 0
  {
    set t | t in s && Lane(t, m) == r
  }

  lemma InLaneAdd(s: set<nat>, t: nat, m: nat, r: nat)
    requires m > 0 && t !in s
    ensures |InLane(s + {t}, m, r)| == |InLane(s, m, r)| + (if Lane(t, m) == r then 1 else 0)
  {
    if Lane(t, m) == r {
      assert InLane(s + {t}, m, r) == InLane(s, m, r) + {t};
    } else {
      assert InLane(s + {t}, m, r) == InLane(s, m, r);
    }
  }

  // ---------------------------------------------------------------- invariant

  /** One slot: takes follow writes one behind or level, in the same order, and the slot
      holds exactly the written element that has not been taken. */
  ghost predicate CellOk<E>(l: Cell<E>) {
    && |l.taken| <= |l.written| <= |l.taken| + 1
    && (forall k :: 0 <= k < |l.taken| ==> l.taken[k].elem == l.written[k].elem)
    && l.slot == (if |l.written| == |l.taken| then Nil else Full(l.written[|l.taken|].elem))
  }

  ghost function Tickets<E>(items: seq<Item<E>>): set<nat> {
    set k | 0 <= k < |items| :: items[k].ticket
  }

  ghost predicate Distinct<E>(items: seq<Item<E>>) {
    forall j, k :: 0 <= j < k < |items| ==> items[j].ticket != items[k].ticket
  }

  /** The books of one lane for one counter at n: `items` are the finished operations of the
      lane, in slot order, and `pending` the unfinished tickets of all lanes. Each ticket of
      the lane below n is either pending or recorded, and recorded only once. */
  ghost predicate Ledger<E>(items: seq<Item<E>>, pending: set<nat>, n: nat, m: nat, r: nat)
    requires m > 0
  {
    && (forall k :: 0 <= k < |items| ==>
          items[k].ticket < n && Lane(items[k].ticket, m) == r && items[k].ticket !in pending)
    && Distinct(items)
    && (forall t {:trigger t in Tickets(items)} :: 0 <= t < n && Lane(t, m) == r ==> t in pending || t in Tickets(items))
    && |InLane(pending, m, r)| + |items| == Claims(n, m, r)
  }

  ghost predicate PutsOk<E>(q: Queue<E>)
    requires |q.cells| > 0
  {
    && |q.claimed| == q.head
    && (forall t :: t in q.puts ==> t < q.head)
    && (forall r :: 0 <= r < |q.cells| ==> Ledger(q.cells[r].written, q.puts.Keys, q.head, |q.cells|, r))
    && (forall r, k :: 0 <= r < |q.cells| && 0 <= k < |q.cells[r].written| ==>
          var x := q.cells[r].written[k]; x.ticket < q.head && x.elem == q.claimed[x.ticket])
  }

  ghost predicate TakesOk<E>(q: Queue<E>)
    requires |q.cells| > 0
  {
    && (forall t :: t in q.takes ==> t < q.tail)
    && (forall r :: 0 <= r < |q.cells| ==> Ledger(q.cells[r].taken, q.takes.Keys, q.tail, |q.cells|, r))
  }

  function WrittenTotal<E>(cells: seq<Cell<E>>): nat {
    if cells == [] then 0 else WrittenTotal(cells[..|cells| - 1]) + |cells[|cells| - 1].written|
  }

  function TakenTotal<E>(cells: seq<Cell<E>>): nat {
    if cells == [] then 0 else TakenTotal(cells[..|cells| - 1]) + |cells[|cells| - 1].taken|
  }

  /** Number of occupied slots. */
  function Occupied<E>(cells: seq<Cell<E>>): nat {
    if cells == [] then 0
    else Occupied(cells[..|cells| - 1]) + (if cells[|cells| - 1].slot.Full? then 1 else 0)
  }

  ghost predicate CellsOk<E>(q: Queue<E>) {
    && (forall r :: 0 <= r < |q.cells| ==> CellOk(q.cells[r]))
    && q.head == |q.puts.Keys| + WrittenTotal(q.cells)
    && q.tail == |q.takes.Keys| + TakenTotal(q.cells)
  }

  ghost predicate Inv<E>(q: Queue<E>) {
    |q.cells| > 0 && CellsOk(q) && PutsOk(q) && TakesOk(q)
  }

  lemma {:induction false} TotalsUpdate<E>(cells: seq<Cell<E>>, r: nat, l: Cell<E>)
    requires r < |cells|
    ensures WrittenTotal(cells[r := l]) == WrittenTotal(cells) - |cells[r].written| + |l.written|
    ensures TakenTotal(cells[r := l]) == TakenTotal(cells) - |cells[r].taken| + |l.taken|
  {
    var n := |cells| - 1;
    if r == n {
      assert cells[r := l][..n] == cells[..n];
    } else {
      assert cells[r := l][..n] == cells[..n][r := l];
      TotalsUpdate(cells[..n], r, l);
    }
  }

  lemma {:induction false} OccupiedIsDifference<E>(cells: seq<Cell<E>>)
    requires forall r :: 0 <= r < |cells| ==> CellOk(cells[r])
    ensures Occupied(cells) == WrittenTotal(cells) - TakenTotal(cells)
    ensures Occupied(cells) <= |cells|
  {
    if cells != [] {
      OccupiedIsDifference(cells[..|cells| - 1]);
    }
  }

  lemma {:induction false} OccupiedExtremes<E>(cells: seq<Cell<E>>)
    ensures (forall r :: 0 <= r < |cells| ==> cells[r].slot.Nil?) ==> Occupied(cells) == 0
    ensures (forall r :: 0 <= r < |cells| ==> cells[r].slot.Full?) ==> Occupied(cells) == |cells|
  {
    if cells != [] {
      OccupiedExtremes(cells[..|cells| - 1]);
    }
  }

  lemma {:induction false} NewTotals<E>(m: nat)
    ensures WrittenTotal(NewQueue<E>(m).cells) == 0 && TakenTotal(NewQueue<E>(m).cells) == 0
  {
    if m > 0 {
      assert NewQueue<E>(m).cells[..m - 1] == NewQueue<E>(m - 1).cells;
      NewTotals<E>(m - 1);
    }
  }

  lemma TicketsAppend<E>(items: seq<Item<E>>, x: Item<E>)
    ensures Tickets(items + [x]) == Tickets(items) + {x.ticket}
  {
    var s := items + [x];
    forall t ensures t in Tickets(s) <==> t in Tickets(items) + {x.ticket} {
      if t in Tickets(items) {
        var k :| 0 <= k < |items| && items[k].ticket == t;
        assert s[k].ticket == t;
      }
      if t == x.ticket {
        assert s[|items|].ticket == t;
      }
    }
  }

  lemma LedgerClaim<E>(items: seq<Item<E>>, pending: set<nat>, n: nat, m: nat, r: nat)
    requires m > 0 && n !in pending && Ledger(items, pending, n, m, r)
    ensures Ledger(items, pending + {n}, n + 1, m, r)
  {
    InLaneAdd(pending, n, m, r);
  }

  lemma LedgerSettle<E>(items: seq<Item<E>>, pending: set<nat>, n: nat, m: nat, x: Item<E>)
    requires m > 0 && x.ticket in pending && x.ticket < n && Ledger(items, pending, n, m, Lane(x.ticket, m))
    ensures Ledger(items + [x], pending - {x.ticket}, n, m, Lane(x.ticket, m))
  {
    var rest := pending - {x.ticket};
    assert pending == rest + {x.ticket};
    InLaneAdd(rest, x.ticket, m, Lane(x.ticket, m));
    TicketsAppend(items, x);
  }

  lemma LedgerOther<E>(items: seq<Item<E>>, pending: set<nat>, n: nat, m: nat, r: nat, t: nat)
    requires m > 0 && t in pending && Lane(t, m) != r && Ledger(items, pending, n, m, r)
    ensures Ledger(items, pending - {t}, n, m, r)
  {
    var rest := pending - {t};
    assert pending == rest + {t};
    InLaneAdd(rest, t, m, r);
  }

  // ---------------------------------------------------------------- every step keeps the invariant

  lemma NewQueueInv<E>(m: nat)
    requires m > 0
    ensures Inv(NewQueue<E>(m))
  {
    NewTotals<E>(m);
    var q := NewQueue<E>(m);
    assert forall r :: 0 <= r < m ==> InLane(q.puts.Keys, m, r) == {} && InLane(q.takes.Keys, m, r) == {};
  }

  lemma ClaimPutKeepsPuts<E>(q: Queue<E>, owner: nat, e: E)
    requires |q.cells| > 0 && PutsOk(q)
    ensures PutsOk(ClaimPut(q, owner, e))
  {
    var q' := ClaimPut(q, owner, e);
    assert q'.puts.Keys == q.puts.Keys + {q.head};
    forall r | 0 <= r < |q.cells|
      ensures Ledger(q'.cells[r].written, q'.puts.Keys, q'.head, |q.cells|, r)
    {
      LedgerClaim(q.cells[r].written, q.puts.Keys, q.head, |q.cells|, r);
    }
  }

  lemma ClaimPutKeepsRest<E>(q: Queue<E>, owner: nat, e: E)
    requires |q.cells| > 0 && CellsOk(q) && TakesOk(q) && q.head !in q.puts
    ensures CellsOk(ClaimPut(q, owner, e)) && TakesOk(ClaimPut(q, owner, e))
  {
    var q' := ClaimPut(q, owner, e);
    assert q'.puts.Keys == q.puts.Keys + {q.head};
  }

  lemma ClaimPutInv<E>(q: Queue<E>, owner: nat, e: E)
    requires Inv(q)
    ensures Inv(ClaimPut(q, owner, e))
  {
    ClaimPutKeepsPuts(q, owner, e);
    ClaimPutKeepsRest(q, owner, e);
  }

  lemma ClaimTakeKeepsTakes<E>(q: Queue<E>, owner: nat)
    requires |q.cells| > 0 && TakesOk(q)
    ensures TakesOk(ClaimTake(q, owner))
  {
    var q' := ClaimTake(q, owner);
    assert q'.takes.Keys == q.takes.Keys + {q.tail};
    forall r | 0 <= r < |q.cells|
      ensures Ledger(q'.cells[r].taken, q'.takes.Keys, q'.tail, |q.cells|, r)
    {
      LedgerClaim(q.cells[r].taken, q.takes.Keys, q.tail, |q.cells|, r);
    }
  }

  lemma ClaimTakeKeepsRest<E>(q: Queue<E>, owner: nat)
    requires |q.cells| > 0 && CellsOk(q) && PutsOk(q) && q.tail !in q.takes
    ensures CellsOk(ClaimTake(q, owner)) && PutsOk(ClaimTake(q, owner))
  {
    var q' := ClaimTake(q, owner);
    assert q'.takes.Keys == q.takes.Keys + {q.tail};
  }

  lemma ClaimTakeInv<E>(q: Queue<E>, owner: nat)
    requires Inv(q)
    ensures Inv(ClaimTake(q, owner))
  {
    ClaimTakeKeepsTakes(q, owner);
    ClaimTakeKeepsRest(q, owner);
  }

  lemma PutKeepsPuts<E>(q: Queue<E>, t: nat, e: E)
    requires |q.cells| > 0 && PutsOk(q) && t in q.puts && q.claimed[t] == e
    ensures PutsOk(Put(q, t, e))
  {
    var q', m, c := Put(q, t, e), |q.cells|, LaneOf(q, t);
    if q.cells[c].slot.Nil? {
      assert q'.puts.Keys == q.puts.Keys - {t};
      forall r | 0 <= r < m
        ensures Ledger(q'.cells[r].written, q'.puts.Keys, q.head, m, r)
      {
        if r == c {
          LedgerSettle(q.cells[c].written, q.puts.Keys, q.head, m, Item(t, e));
        } else {
          LedgerOther(q.cells[r].written, q.puts.Keys, q.head, m, r, t);
        }
      }
    }
  }

  lemma PutKeepsTakes<E>(q: Queue<E>, t: nat, e: E)
    requires |q.cells| > 0 && TakesOk(q)
    ensures TakesOk(Put(q, t, e))
  {
    var q' := Put(q, t, e);
    forall r | 0 <= r < |q.cells|
      ensures Ledger(q'.cells[r].taken, q'.takes.Keys, q.tail, |q.cells|, r)
    {
      assert q'.cells[r].taken == q.cells[r].taken;
    }
  }

  lemma FillOk<E>(l: Cell<E>, t: nat, e: E)
    requires CellOk(l) && l.slot.Nil?
    ensures CellOk(Fill(l, t, e))
  {
  }

  lemma DrainOk<E>(l: Cell<E>, t: nat)
    requires CellOk(l) && l.slot.Full?
    ensures CellOk(Drain(l, t))
  {
  }

  /** The counts of CellsOk after one cell changes. */
  lemma CellTotals<E>(cells: seq<Cell<E>>, r: nat, l: Cell<E>, cells': seq<Cell<E>>)
    requires r < |cells| && cells' == cells[r := l] && CellOk(l)
    requires forall k :: 0 <= k < |cells| ==> CellOk(cells[k])
    ensures WrittenTotal(cells') == WrittenTotal(cells) - |cells[r].written| + |l.written|
    ensures TakenTotal(cells') == TakenTotal(cells) - |cells[r].taken| + |l.taken|
    ensures forall k :: 0 <= k < |cells'| ==> CellOk(cells'[k])
  {
    TotalsUpdate(cells, r, l);
    forall k | 0 <= k < |cells'| ensures CellOk(cells'[k]) {
      if k != r {
        assert cells'[k] == cells[k];
      }
    }
  }

  lemma PutSettles<E>(q: Queue<E>, t: nat, e: E)
    requires |q.cells| > 0 && t in q.puts && q.cells[LaneOf(q, t)].slot.Nil?
    ensures |Put(q, t, e).puts.Keys| == |q.puts.Keys| - 1
  {
    assert q.puts.Keys == Put(q, t, e).puts.Keys + {t};
  }

  lemma TakeSettles<E>(q: Queue<E>, t: nat)
    requires |q.cells| > 0 && t in q.takes && q.cells[LaneOf(q, t)].slot.Full?
    ensures |Take(q, t).takes.Keys| == |q.takes.Keys| - 1
  {
    assert q.takes.Keys == Take(q, t).takes.Keys + {t};
  }

  lemma PutKeepsCells<E>(q: Queue<E>, t: nat, e: E)
    requires |q.cells| > 0 && CellsOk(q) && t in q.puts
    ensures CellsOk(Put(q, t, e))
  {
    var q', c := Put(q, t, e), LaneOf(q, t);
    var l := q.cells[c];
    if l.slot.Nil? {
      PutSettles(q, t, e);
      FillOk(l, t, e);
      CellTotals(q.cells, c, Fill(l, t, e), q'.cells);
    }
  }

  lemma PutInv<E>(q: Queue<E>, t: nat, e: E)
    requires Inv(q) && t in q.puts && q.claimed[t] == e
    ensures Inv(Put(q, t, e))
  {
    PutKeepsPuts(q, t, e);
    PutKeepsTakes(q, t, e);
    PutKeepsCells(q, t, e);
  }

  lemma TakeKeepsTakes<E>(q: Queue<E>, t: nat)
    requires |q.cells| > 0 && TakesOk(q) && t in q.takes
    ensures TakesOk(Take(q, t))
  {
    var q', m, c := Take(q, t), |q.cells|, LaneOf(q, t);
    if q.cells[c].slot.Full? {
      assert q'.takes.Keys == q.takes.Keys - {t};
      forall r | 0 <= r < m
        ensures Ledger(q'.cells[r].taken, q'.takes.Keys, q.tail, m, r)
      {
        if r == c {
          LedgerSettle(q.cells[c].taken, q.takes.Keys, q.tail, m, Item(t, q.cells[c].slot.elem));
        } else {
          LedgerOther(q.cells[r].taken, q.takes.Keys, q.tail, m, r, t);
        }
      }
    }
  }

  lemma TakeKeepsPuts<E>(q: Queue<E>, t: nat)
    requires |q.cells| > 0 && PutsOk(q)
    ensures PutsOk(Take(q, t))
  {
    var q' := Take(q, t);
    forall r | 0 <= r < |q.cells|
      ensures q'.cells[r].written == q.cells[r].written
      ensures Ledger(q'.cells[r].written, q'.puts.Keys, q.head, |q.cells|, r)
    {
    }
  }

  lemma TakeKeepsCells<E>(q: Queue<E>, t: nat)
    requires |q.cells| > 0 && CellsOk(q) && t in q.takes
    ensures CellsOk(Take(q, t))
  {
    var q', c := Take(q, t), LaneOf(q, t);
    var l := q.cells[c];
    if l.slot.Full? {
      TakeSettles(q, t);
      DrainOk(l, t);
      CellTotals(q.cells, c, Drain(l, t), q'.cells);
    }
  }

  lemma TakeInv<E>(q: Queue<E>, t: nat)
    requires Inv(q) && t in q.takes
    ensures Inv(Take(q, t))
  {
    TakeKeepsTakes(q, t);
    TakeKeepsPuts(q, t);
    TakeKeepsCells(q, t);
  }
}
