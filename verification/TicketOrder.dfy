/** What the ticket invariant means for callers: no deadlock, exactly-once delivery, and
    ticket order under a window. */
module TicketOrder {
  import opened Residues
  import opened TicketQueue

  /** The invariant, read off at one lane. */
  lemma LaneBooks<E>(q: Queue<E>, r: nat)
    requires Inv(q) && r < |q.cells|
    ensures CellOk(q.cells[r])
    ensures Ledger(q.cells[r].written, q.puts.Keys, q.head, |q.cells|, r)
    ensures Ledger(q.cells[r].taken, q.takes.Keys, q.tail, |q.cells|, r)
    ensures forall k :: 0 <= k < |q.cells[r].written| ==>
              q.cells[r].written[k].ticket < |q.claimed| &&
              q.cells[r].written[k].elem == q.claimed[q.cells[r].written[k].ticket]
  {
  }

  // ---------------------------------------------------------------- deadlock

  /** No claimed operation can take its slot step. */
  ghost predicate Stuck<E>(q: Queue<E>)
    requires |q.cells| > 0
  {
    && (forall t :: t in q.puts ==> q.cells[LaneOf(q, t)].slot.Full?)
    && (forall t :: t in q.takes ==> q.cells[LaneOf(q, t)].slot.Nil?)
  }

  function Min(a: int, b: int): int { if a <= b then a else b }
  function Max(a: int, b: int): int { if a >= b then a else b }

  /** Pushes and pops never wait for each other: a stuck queue is either empty with only
      surplus pops waiting, or full to the extent of the surplus with only pushes waiting. */
  lemma StuckShape<E>(q: Queue<E>)
    requires Inv(q) && Stuck(q)
    ensures q.head <= q.tail ==>
              && (forall r :: 0 <= r < |q.cells| ==> q.cells[r].slot.Nil?)
              && q.puts.Keys == {} && |q.takes.Keys| == q.tail - q.head
    ensures q.head >= q.tail ==>
              && q.takes.Keys == {} && Occupied(q.cells) == Min(q.head - q.tail, |q.cells|)
              && |q.puts.Keys| == Max(q.head - q.tail - |q.cells|, 0)
  {
    if q.head <= q.tail {
      StuckDrained(q);
    }
    if q.head >= q.tail {
      StuckFilled(q);
    }
  }

  lemma StuckLane<E>(q: Queue<E>, r: nat)
    requires Inv(q) && Stuck(q) && r < |q.cells|
    ensures q.cells[r].slot.Full? <==> Claims(q.head, |q.cells|, r) > Claims(q.tail, |q.cells|, r)
    ensures q.cells[r].slot.Full? ==> InLane(q.takes.Keys, |q.cells|, r) == {}
    ensures q.cells[r].slot.Nil? ==> InLane(q.puts.Keys, |q.cells|, r) == {}
  {
    LaneBooks(q, r);
  }

  lemma StuckDrained<E>(q: Queue<E>)
    requires Inv(q) && Stuck(q) && q.head <= q.tail
    ensures forall r :: 0 <= r < |q.cells| ==> q.cells[r].slot.Nil?
    ensures q.puts.Keys == {} && |q.takes.Keys| == q.tail - q.head
  {
    forall r | 0 <= r < |q.cells| ensures q.cells[r].slot.Nil? {
      StuckLane(q, r);
      ClaimsMonotone(q.head, q.tail, |q.cells|, r);
    }
    assert q.puts.Keys == {};
    OccupiedIsDifference(q.cells);
    OccupiedExtremes(q.cells);
  }

  lemma StuckFilled<E>(q: Queue<E>)
    requires Inv(q) && Stuck(q) && q.head >= q.tail
    ensures q.takes.Keys == {} && Occupied(q.cells) == Min(q.head - q.tail, |q.cells|)
    ensures |q.puts.Keys| == Max(q.head - q.tail - |q.cells|, 0)
  {
    var m := |q.cells|;
    forall t ensures t !in q.takes {
      var r := LaneOf(q, t);
      StuckNilLane(q, r);
      assert t !in InLane(q.takes.Keys, m, r);
    }
    OccupiedIsDifference(q.cells);
    OccupiedExtremes(q.cells);
    if q.head - q.tail >= m {
      forall r | 0 <= r < m ensures q.cells[r].slot.Full? {
        StuckLane(q, r);
        ClaimsWindow(q.tail, q.head, m, r);
      }
    } else {
      forall t ensures t !in q.puts {
        var r := LaneOf(q, t);
        StuckFullLane(q, r);
        assert t !in InLane(q.puts.Keys, m, r);
      }
    }
  }

  lemma StuckNilLane<E>(q: Queue<E>, r: nat)
    requires Inv(q) && Stuck(q) && q.head >= q.tail && r < |q.cells|
    ensures InLane(q.takes.Keys, |q.cells|, r) == {}
  {
    StuckLane(q, r);
    ClaimsMonotone(q.tail, q.head, |q.cells|, r);
    LaneBooks(q, r);
  }

  lemma StuckFullLane<E>(q: Queue<E>, r: nat)
    requires Inv(q) && Stuck(q) && q.tail <= q.head < q.tail + |q.cells| && r < |q.cells|
    ensures InLane(q.puts.Keys, |q.cells|, r) == {}
  {
    StuckLane(q, r);
    ClaimsWindow(q.tail, q.head, |q.cells|, r);
    LaneBooks(q, r);
  }

  /** Somebody else has claimed a push, or a pop, on the slot of ticket t. */
  ghost predicate PushNear<E>(q: Queue<E>, t: nat)
    requires |q.cells| > 0
  {
    exists u :: u in q.puts && LaneOf(q, u) == LaneOf(q, t)
  }

  ghost predicate PopNear<E>(q: Queue<E>, t: nat)
    requires |q.cells| > 0
  {
    exists u :: u in q.takes && LaneOf(q, u) == LaneOf(q, t)
  }

  /** A push waits without a pop on its slot only when pushes are ahead by more than m_size. */
  lemma WaitingPushHasPop<E>(q: Queue<E>, t: nat)
    requires Inv(q) && q.head <= q.tail + |q.cells| && t in q.puts && q.cells[LaneOf(q, t)].slot.Full?
    ensures PopNear(q, t)
  {
    var m, r := |q.cells|, LaneOf(q, t);
    if q.tail <= q.head {
      ClaimsWindow(q.tail, q.head, m, r);
    } else {
      ClaimsMonotone(q.head, q.tail, m, r);
    }
    LaneBooks(q, r);
    assert t in InLane(q.puts.Keys, m, r);
    assert |InLane(q.takes.Keys, m, r)| > 0;
    var u :| u in InLane(q.takes.Keys, m, r);
  }

  /** A pop waits without a push on its slot only when pops are ahead, and a pop whose element
      has been claimed only when they have gone on by more than m_size tickets since. */
  lemma WaitingPopHasPush<E>(q: Queue<E>, t: nat)
    requires Inv(q) && t in q.takes && q.cells[LaneOf(q, t)].slot.Nil?
    requires q.tail <= q.head || (t < q.head && q.tail <= t + |q.cells|)
    ensures PushNear(q, t)
  {
    var m, r := |q.cells|, LaneOf(q, t);
    LaneBooks(q, r);
    if q.tail <= q.head {
      ClaimsMonotone(q.tail, q.head, m, r);
    } else {
      ClaimsMonotone(t + 1, q.head, m, r);
      ClaimsWindow(t, q.tail, m, r);
    }
    assert t in InLane(q.takes.Keys, m, r);
    assert |InLane(q.puts.Keys, m, r)| > 0;
    var u :| u in InLane(q.puts.Keys, m, r);
  }

  // ---------------------------------------------------------------- exactly-once delivery

  /** The k-th element written to lane r was written by push t and taken by pop u. */
  predicate DeliveredAt<E>(q: Queue<E>, r: nat, k: nat, t: nat, u: nat) {
    && r < |q.cells| && k < |q.cells[r].written| && k < |q.cells[r].taken|
    && q.cells[r].written[k].ticket == t && q.cells[r].taken[k].ticket == u
  }

  ghost predicate Delivered<E>(q: Queue<E>, t: nat, u: nat) {
    exists r, k :: DeliveredAt(q, r, k, t, u)
  }

  /** The element of push t is the one the slot of its lane holds now. */
  predicate Stored<E>(q: Queue<E>, t: nat)
    requires |q.cells| > 0
  {
    var l := q.cells[LaneOf(q, t)];
    l.slot.Full? && |l.written| > 0 && l.written[|l.written| - 1].ticket == t
  }

  /** No claimed push is lost: it waits, is in its slot, or was handed to a pop. */
  lemma PushSomewhere<E>(q: Queue<E>, t: nat)
    requires Inv(q) && t < q.head
    ensures t in q.puts || Stored(q, t) || exists u :: Delivered(q, t, u)
  {
    if t !in q.puts {
      var r := LaneOf(q, t);
      var k := WrittenAt(q, t);
      LaneBooks(q, r);
      if k < |q.cells[r].taken| {
        assert DeliveredAt(q, r, k, t, q.cells[r].taken[k].ticket);
        assert Delivered(q, t, q.cells[r].taken[k].ticket);
      }
    }
  }

  lemma DeliveredToOne<E>(q: Queue<E>, t: nat, u: nat, v: nat)
    requires Inv(q) && Delivered(q, t, u) && Delivered(q, t, v)
    ensures u == v
  {
    var j := DeliveredLane(q, t, u);
    var k := DeliveredLane(q, t, v);
  }

  /** ... and only one of the three, for at most one pop, with its own element intact. */
  lemma PushOnce<E>(q: Queue<E>, t: nat)
    requires Inv(q) && t < q.head
    ensures Stored(q, t) ==> t !in q.puts && q.cells[LaneOf(q, t)].slot == Full(q.claimed[t])
    ensures forall u :: Delivered(q, t, u) ==> t !in q.puts && !Stored(q, t)
    ensures forall u, v :: Delivered(q, t, u) && Delivered(q, t, v) ==> u == v
  {
    LaneBooks(q, LaneOf(q, t));
    forall u | Delivered(q, t, u) ensures t !in q.puts && !Stored(q, t) {
      var k := DeliveredLane(q, t, u);
    }
    forall u, v | Delivered(q, t, u) && Delivered(q, t, v) ensures u == v {
      DeliveredToOne(q, t, u, v);
    }
  }

  lemma WrittenAt<E>(q: Queue<E>, t: nat) returns (k: nat)
    requires Inv(q) && t < q.head && t !in q.puts
    ensures k < |q.cells[LaneOf(q, t)].written| && q.cells[LaneOf(q, t)].written[k].ticket == t
  {
    var l := q.cells[LaneOf(q, t)];
    LaneBooks(q, LaneOf(q, t));
    assert t in Tickets(l.written);
    k :| 0 <= k < |l.written| && l.written[k].ticket == t;
  }

  /** A delivery happens inside one lane and hands over exactly what that push brought. */
  lemma DeliveredLane<E>(q: Queue<E>, t: nat, u: nat) returns (k: nat)
    requires Inv(q) && Delivered(q, t, u)
    ensures t < q.head && u < q.tail && LaneOf(q, t) == LaneOf(q, u)
    ensures DeliveredAt(q, LaneOf(q, t), k, t, u)
    ensures q.cells[LaneOf(q, u)].taken[k] == Item(u, q.claimed[t])
    ensures t !in q.puts && u !in q.takes && !Stored(q, t)
    ensures Distinct(q.cells[LaneOf(q, t)].written) && Distinct(q.cells[LaneOf(q, t)].taken)
  {
    var r, k' :| DeliveredAt(q, r, k', t, u);
    LaneBooks(q, r);
    k := k';
  }

  /** Every finished pop got the element of exactly one push, and no other pop got it. */
  lemma PopSource<E>(q: Queue<E>, u: nat)
    requires Inv(q) && u < q.tail && u !in q.takes
    ensures exists t :: Delivered(q, t, u)
    ensures forall t, s :: Delivered(q, t, u) && Delivered(q, s, u) ==> t == s
    ensures forall t, v :: Delivered(q, t, u) && Delivered(q, t, v) ==> v == u
  {
    var r := LaneOf(q, u);
    var l := q.cells[r];
    LaneBooks(q, r);
    assert u in Tickets(l.taken);
    var k :| 0 <= k < |l.taken| && l.taken[k].ticket == u;
    assert DeliveredAt(q, r, k, l.written[k].ticket, u);
    assert Delivered(q, l.written[k].ticket, u);
    forall t, s | Delivered(q, t, u) && Delivered(q, s, u) ensures t == s {
      var j := DeliveredLane(q, t, u);
      var i := DeliveredLane(q, s, u);
    }
    forall t, v | Delivered(q, t, u) && Delivered(q, t, v) ensures v == u {
      DeliveredToOne(q, t, u, v);
    }
  }

  // ---------------------------------------------------------------- ticket order under a window

  /** No two unfinished tickets share a lane. */
  ghost predicate Apart(pending: set<nat>, m: nat)
    requires m > 0
  {
    forall t, u :: t in pending && u in pending && t != u ==> Lane(t, m) != Lane(u, m)
  }

  ghost predicate Window<E>(q: Queue<E>)
    requires |q.cells| > 0
  {
    Apart(q.puts.Keys, |q.cells|) && Apart(q.takes.Keys, |q.cells|)
  }

  /** It is enough that the unfinished tickets span fewer than m_size. */
  lemma NarrowIsApart(pending: set<nat>, m: nat)
    requires m > 0 && forall t, u :: t in pending && u in pending ==> t < u + m
    ensures Apart(pending, m)
  {
    forall t, u | t in pending && u in pending && t != u ensures Lane(t, m) != Lane(u, m) {
      if Lane(t, m) == Lane(u, m) {
        if t < u { LaneSpacing(t, u, m); } else { LaneSpacing(u, t, m); }
      }
    }
  }

  /** The k-th finished operation of a lane has the k-th ticket of that lane, and an
      unfinished one has the next. */
  ghost predicate Sorted<E>(items: seq<Item<E>>, pending: set<nat>, m: nat, r: nat)
    requires m > 0
  {
    && (forall k :: 0 <= k < |items| ==> Claims(items[k].ticket, m, r) == k)
    && (forall t :: t in pending && Lane(t, m) == r ==> Claims(t, m, r) == |items|)
  }

  ghost predicate InOrder<E>(q: Queue<E>)
    requires |q.cells| > 0
  {
    forall r :: 0 <= r < |q.cells| ==>
      && Sorted(q.cells[r].written, q.puts.Keys, |q.cells|, r)
      && Sorted(q.cells[r].taken, q.takes.Keys, |q.cells|, r)
  }

  lemma SortedClaim<E>(items: seq<Item<E>>, pending: set<nat>, n: nat, m: nat, r: nat)
    requires m > 0 && Ledger(items, pending, n, m, r) && Sorted(items, pending, m, r)
    requires (forall t :: t in pending ==> t < n) && Apart(pending + {n}, m)
    ensures Sorted(items, pending + {n}, m, r)
  {
    if Lane(n, m) == r {
      forall t ensures t !in InLane(pending, m, r) {
        assert n in pending + {n} && (t in pending ==> t in pending + {n});
      }
      assert InLane(pending, m, r) == {};
    }
  }

  lemma SortedSettle<E>(items: seq<Item<E>>, pending: set<nat>, m: nat, r: nat, x: Item<E>)
    requires m > 0 && Sorted(items, pending, m, r) && x.ticket in pending && Lane(x.ticket, m) == r
    requires Apart(pending, m)
    ensures Sorted(items + [x], pending - {x.ticket}, m, r)
  {
  }

  /** In ticket order, the pop with ticket u gets exactly what the push with ticket u brought. */
  lemma InOrderDelivers<E>(q: Queue<E>, t: nat, u: nat)
    requires Inv(q) && InOrder(q) && Delivered(q, t, u)
    ensures t == u
  {
    var k := DeliveredLane(q, t, u);
    var m, r := |q.cells|, LaneOf(q, t);
    assert Sorted(q.cells[r].written, q.puts.Keys, m, r) && Sorted(q.cells[r].taken, q.takes.Keys, m, r);
    assert Claims(t, m, r) == k == Claims(u, m, r);
    if t < u {
      ClaimsSeparate(t, u, m);
    } else if u < t {
      ClaimsSeparate(u, t, m);
    }
  }

  // ---------------------------------------------------------------- when claims stay apart

  lemma NoneInLane(m: nat, r: nat)
    requires m > 0
    ensures InLane({}, m, r) == {}
  {
  }

  /** A push that is let in while no pop is under way meets no other push on its lane. */
  lemma PushClaimApart<E>(q: Queue<E>)
    requires Inv(q) && q.takes.Keys == {} && q.head < q.tail + |q.cells|
    ensures InLane(q.puts.Keys, |q.cells|, LaneOf(q, q.head)) == {}
  {
    var m, r := |q.cells|, LaneOf(q, q.head);
    ClaimsWithinRound(q.head, q.tail, m, r);
    LaneBooks(q, r);
    NoneInLane(m, r);
  }

  /** A pop that is let in while no push is under way meets no other pop on its lane. */
  lemma PopClaimApart<E>(q: Queue<E>)
    requires Inv(q) && q.puts.Keys == {} && q.tail < q.head
    ensures InLane(q.takes.Keys, |q.cells|, LaneOf(q, q.tail)) == {}
  {
    var m, r := |q.cells|, LaneOf(q, q.tail);
    ClaimsMonotone(q.tail + 1, q.head, m, r);
    LaneBooks(q, r);
    NoneInLane(m, r);
  }
}
