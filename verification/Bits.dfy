/** Bitwise operators on unsigned words of any width, defined bit by bit on naturals. */
module Bits {

  function Pow2(n: nat): (p: nat)
    ensures p >= 1
  {
    if n == 0 then 1 else 2 * Pow2(n - 1)
  }

  function Xor(a: nat, b: nat): nat
    decreases a + b
  {
    if a == 0 && b == 0 then 0 else 2 * Xor(a / 2, b / 2) + (a % 2 + b % 2) % 2
  }

  function Or(a: nat, b: nat): nat
    decreases a + b
  {
    if a == 0 && b == 0 then 0
    else 2 * Or(a / 2, b / 2) + (if a % 2 == 1 || b % 2 == 1 then 1 else 0)
  }

  function And(a: nat, b: nat): nat
    decreases a + b
  {
    if a == 0 && b == 0 then 0
    else 2 * And(a / 2, b / 2) + (if a % 2 == 1 && b % 2 == 1 then 1 else 0)
  }

  function Shl(x: nat, n: nat): (r: nat)
    ensures x <= r
  {
    if n == 0 then x else 2 * Shl(x, n - 1)
  }

  function Shr(x: nat, n: nat): nat { if n == 0 then x else Shr(x / 2, n - 1) }

  // ---------------------------------------------------------------- shifting

  lemma {:induction false} Pow2Monotone(m: nat, n: nat)
    requires m <= n
    ensures Pow2(m) <= Pow2(n)
    decreases n
  {
    if m < n {
      Pow2Monotone(m, n - 1);
    }
  }

  lemma {:induction false} ShlOne(n: nat, k: nat)
    ensures Shl(Pow2(k), n) == Pow2(k + n)
  {
    if n > 0 {
      ShlOne(n - 1, k);
    }
  }

  lemma {:induction false} ShlAdd(x: nat, y: nat, n: nat)
    ensures Shl(x + y, n) == Shl(x, n) + Shl(y, n)
    ensures Shl(0, n) == 0
  {
    if n > 0 {
      ShlAdd(x, y, n - 1);
    }
  }

  lemma {:induction false} ShlShl(x: nat, m: nat, n: nat)
    ensures Shl(Shl(x, m), n) == Shl(x, m + n)
  {
    if n > 0 {
      ShlShl(x, m, n - 1);
    }
  }

  lemma {:induction false} ShrShr(x: nat, m: nat, n: nat, s: nat)
    requires s == m + n
    ensures Shr(Shr(x, m), n) == Shr(x, s)
    decreases m
  {
    if m > 0 {
      ShrShr(x / 2, m - 1, n, s - 1);
    }
  }

  /** A word is its high part above its low n bits, in one way only. */
  lemma {:induction false} Split(x: nat, n: nat) returns (low: nat)
    ensures low < Pow2(n) && x == Shl(Shr(x, n), n) + low
    decreases n
  {
    if n == 0 {
      low := 0;
    } else {
      var l := Split(x / 2, n - 1);
      low := 2 * l + x % 2;
    }
  }

  lemma {:induction false} Joined(x: nat, u: nat, n: nat, w: nat)
    requires u < Pow2(n) && w == Shl(x, n) + u
    ensures Shr(w, n) == x
    ensures And(w, Pow2(n) - 1) == u
    decreases n
  {
    if n == 0 {
      AndZero(x);
    } else {
      Joined(x, u / 2, n - 1, w / 2);
      AndHalves(w, Pow2(n) - 1);
    }
  }

  lemma {:induction false} ShlBound(x: nat, u: nat, n: nat, k: nat, s: nat)
    requires u < Pow2(n) && s == k + n
    ensures Shl(x, n) + u < Pow2(s) <==> x < Pow2(k)
    decreases n
  {
    if n > 0 {
      ShlBound(x, u / 2, n - 1, k, s - 1);
    }
  }

  /** Shifting is multiplication and division by a power of two. */
  lemma {:induction false} ShlIsProduct(x: nat, n: nat)
    ensures Shl(x, n) == x * Pow2(n)
  {
    if n > 0 {
      ShlIsProduct(x, n - 1);
    }
  }

  // ---------------------------------------------------------------- operators act field by field

  lemma XorHalves(a: nat, b: nat)
    ensures Xor(a, b) == 2 * Xor(a / 2, b / 2) + (a % 2 + b % 2) % 2
    ensures Xor(a, b) / 2 == Xor(a / 2, b / 2) && Xor(a, b) % 2 == (a % 2 + b % 2) % 2
  {
  }

  lemma OrHalves(a: nat, b: nat)
    ensures Or(a, b) == 2 * Or(a / 2, b / 2) + (if a % 2 == 1 || b % 2 == 1 then 1 else 0)
  {
  }

  lemma AndHalves(a: nat, b: nat)
    ensures And(a, b) == 2 * And(a / 2, b / 2) + (if a % 2 == 1 && b % 2 == 1 then 1 else 0)
  {
  }

  lemma {:induction false} XorFields(x: nat, u: nat, y: nat, v: nat, n: nat, w: nat, z: nat)
    requires u < Pow2(n) && v < Pow2(n) && w == Shl(x, n) + u && z == Shl(y, n) + v
    ensures Xor(w, z) == Shl(Xor(x, y), n) + Xor(u, v)
    ensures Xor(u, v) < Pow2(n)
    decreases n
  {
    if n > 0 {
      XorFields(x, u / 2, y, v / 2, n - 1, w / 2, z / 2);
      XorHalves(w, z);
      XorHalves(u, v);
    }
  }

  lemma {:induction false} OrFields(x: nat, u: nat, y: nat, v: nat, n: nat, w: nat, z: nat)
    requires u < Pow2(n) && v < Pow2(n) && w == Shl(x, n) + u && z == Shl(y, n) + v
    ensures Or(w, z) == Shl(Or(x, y), n) + Or(u, v)
    ensures Or(u, v) < Pow2(n)
    decreases n
  {
    if n > 0 {
      OrFields(x, u / 2, y, v / 2, n - 1, w / 2, z / 2);
      OrHalves(w, z);
      OrHalves(u, v);
    }
  }

  lemma {:induction false} XorZero(a: nat)
    ensures Xor(a, 0) == a && Xor(0, a) == a
  {
    if a > 0 {
      XorZero(a / 2);
      XorHalves(a, 0);
      XorHalves(0, a);
    }
  }

  lemma {:induction false} XorComm(a: nat, b: nat)
    ensures Xor(a, b) == Xor(b, a)
    decreases a + b
  {
    if a > 0 || b > 0 {
      XorComm(a / 2, b / 2);
    }
  }

  lemma ParityCancel(a: nat, b: nat, c: nat)
    requires c % 2 == (a % 2 + b % 2) % 2
    ensures (a % 2 + c % 2) % 2 == b % 2
  {
  }

  lemma {:induction false} XorCancel(a: nat, b: nat, c: nat)
    requires c == Xor(a, b)
    ensures Xor(a, c) == b
    decreases a + b
  {
    if a > 0 || b > 0 {
      XorHalves(a, b);
      XorHalves(a, c);
      XorCancel(a / 2, b / 2, c / 2);
      ParityCancel(a, b, c);
    }
  }

  lemma {:induction false} AndZero(a: nat)
    ensures And(a, 0) == 0
  {
    if a > 0 {
      AndZero(a / 2);
      AndHalves(a, 0);
    }
  }

  lemma {:induction false} OrZero(a: nat)
    ensures Or(a, 0) == a
  {
    if a > 0 {
      OrZero(a / 2);
      OrHalves(a, 0);
    }
  }

  lemma {:induction false} OrComm(a: nat, b: nat)
    ensures Or(a, b) == Or(b, a)
    decreases a + b
  {
    if a > 0 || b > 0 {
      OrComm(a / 2, b / 2);
    }
  }

  lemma {:induction false} OrOnes(u: nat, n: nat, ones: nat)
    requires u < Pow2(n) && ones == Pow2(n) - 1
    ensures Or(u, ones) == ones
    decreases n
  {
    if n > 0 {
      OrOnes(u / 2, n - 1, ones / 2);
      OrHalves(u, ones);
    }
  }
}
