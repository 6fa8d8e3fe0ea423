/** Round-robin assignment of tickets to lanes. */
module Residues {
  import opened Division

  /** The lane of ticket t among m lanes; LaneIsModulo shows that this is t % m. */
  function Lane(t: nat, m: nat): (r: nat)
    requires m > 0
    ensures r < m
  {
    if t < m then t else Lane(t - m, m)
  }

  lemma LaneWraps(t: nat, m: nat)
    requires m > 0
    ensures Lane(t + m, m) == Lane(t, m) && (t < m ==> Lane(t, m) == t)
  {
  }

  lemma {:induction false} LaneIsModulo(t: nat, m: nat)
    requires m > 0
    ensures Lane(t, m) == t % m
  {
    if t >= m {
      LaneIsModulo(t - m, m);
      var d, k := (t - m) / m, (t - m) % m;
      assert t == m * (d + 1) + k by {
        assert t - m == m * d + k;
        assert m * (d + 1) == m * d + m;
      }
      DivModUnique(t, m, d + 1, k);
    }
  }

  /** How many of the tickets 0 .. n-1 belong to lane r of m. */
  function Claims(n: nat, m: nat, r: nat): nat
    requires m > 0
  {
    if n == 0 then 0 else Claims(n - 1, m, r) + (if Lane(n - 1, m) == r then 1 else 0)
  }

  lemma {:induction false} ClaimsMonotone(lo: nat, hi: nat, m: nat, r: nat)
    requires m > 0 && lo <= hi
    ensures Claims(lo, m, r) <= Claims(hi, m, r)
    decreases hi
  {
    if lo < hi {
      ClaimsMonotone(lo, hi - 1, m, r);
    }
  }

  /** Two tickets of one lane differ in how many tickets of that lane precede them. */
  lemma ClaimsSeparate(t: nat, u: nat, m: nat)
    requires m > 0 && t < u && Lane(t, m) == Lane(u, m)
    ensures Claims(t, m, Lane(t, m)) < Claims(u, m, Lane(u, m))
  {
    ClaimsMonotone(t + 1, u, m, Lane(t, m));
  }

  lemma {:induction false} ClaimsFirstRound(n: nat, m: nat, r: nat)
    requires r < m && n <= m
    ensures Claims(n, m, r) == if r < n then 1 else 0
  {
    if n > 0 {
      ClaimsFirstRound(n - 1, m, r);
    }
  }

  lemma {:induction false} ClaimsRound(n: nat, m: nat, r: nat)
    requires r < m
    ensures Claims(n + m, m, r) == Claims(n, m, r) + 1
  {
    if n == 0 {
      ClaimsFirstRound(m, m, r);
    } else {
      ClaimsRound(n - 1, m, r);
    }
  }

  /** At most one ticket of each lane among m consecutive ones, and at least one. */
  lemma ClaimsWindow(lo: nat, hi: nat, m: nat, r: nat)
    requires r < m && lo <= hi
    ensures hi - lo <= m ==> Claims(hi, m, r) <= Claims(lo, m, r) + 1
    ensures hi - lo >= m ==> Claims(hi, m, r) >= Claims(lo, m, r) + 1
  {
    ClaimsRound(lo, m, r);
    if hi - lo <= m {
      ClaimsMonotone(hi, lo + m, m, r);
    }
    if hi - lo >= m {
      ClaimsMonotone(lo + m, hi, m, r);
    }
  }

  /** Before a ticket less than m ahead of t, its lane has had no more tickets than before t. */
  lemma ClaimsWithinRound(h: nat, t: nat, m: nat, r: nat)
    requires m > 0 && h < t + m && r == Lane(h, m)
    ensures Claims(h, m, r) <= Claims(t, m, r)
  {
    if h < m {
      ClaimsFirstRound(h, m, r);
    } else {
      var before: nat := h - m;
      ClaimsRound(before, m, r);
      ClaimsMonotone(before + 1, t, m, r);
    }
  }

  /** Tickets of one lane are at least m apart. */
  lemma LaneSpacing(t: nat, u: nat, m: nat)
    requires m > 0 && t < u && Lane(t, m) == Lane(u, m)
    ensures t + m <= u
  {
    var r := Lane(t, m);
    var next: nat := u + 1;
    ClaimsMonotone(t + 1, u, m, r);
    if next - t <= m {
      ClaimsWindow(t, next, m, r);
    }
  }
}
