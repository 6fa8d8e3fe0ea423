/** Compile-time index arithmetic of sw/itc-common/inc/itcLockFreeQueue.h: rounding the
    capacity up to a power of two and spreading neighbouring indices over cache lines. */
module IndexMap {
  import opened Bits
  import opened Division

  // ---------------------------------------------------------------- roundUpToPowerOf2

  /** The variadic `orEqual(x, u, rest...)`: one `x | x >> u` per shift. */
  function OrEqual(x: nat, shifts: seq<nat>): nat
    decreases |shifts|
  {
    if shifts == [] then x else OrEqual(Or(x, Shr(x, shifts[0])), shifts[1..])
  }

  const SHIFTS32 := [1, 2, 4, 8, 16]
  const SHIFTS64 := [1, 2, 4, 8, 16, 32]

  /** `increment(orEqual(decrement(a), ...))` on unsigned words of `width` bits, which wrap. */
  function RoundUp(a: nat, width: nat, shifts: seq<nat>): nat {
    var dec := if a == 0 then Pow2(width) - 1 else a - 1;
    var inc := OrEqual(dec, shifts) + 1;
    if inc == Pow2(width) then 0 else inc
  }

  function RoundUpToPowerOf2(a: nat): nat { RoundUp(a, 32, SHIFTS32) }
  function RoundUpToPowerOf2Long(a: nat): nat { RoundUp(a, 64, SHIFTS64) }

  /** The shift list 1, 2, 4, .. that smears a one over 2^k positions. */
  function Doubling(from: nat, k: nat): seq<nat>
    decreases k
  {
    if k == 0 then [] else [from] + Doubling(2 * from, k - 1)
  }

  lemma ShiftListsDouble()
    ensures Doubling(1, 5) == SHIFTS32 && Doubling(1, 6) == SHIFTS64
    ensures Pow2(5) == 32 && Pow2(6) == 64
  {
    assert Doubling(8, 2) == [8, 16] && Doubling(8, 3) == [8, 16, 32];
    assert Doubling(2, 4) == [2, 4, 8, 16] && Doubling(2, 5) == [2, 4, 8, 16, 32];
  }

  /** x has at most len bits, and its top w bits are ones. */
  ghost predicate Ones(x: nat, len: nat, w: nat) {
    w <= len && x < Pow2(len) && Shr(x, len - w) == Pow2(w) - 1
  }

  /** k ones above n ones are k + n ones. */
  lemma {:induction false} OnesJoin(n: nat, k: nat, s: nat, top: nat)
    requires s == k + n && top == Pow2(k) - 1
    ensures Shl(top, n) + Pow2(n) - 1 == Pow2(s) - 1
    decreases n
  {
    if n > 0 {
      OnesJoin(n - 1, k, s - 1, top);
    }
  }

  /** d ones OR-ed in below a run of w ones. */
  lemma OrExtends(h: nat, c: nat, w: nat, d: nat, s: nat, top: nat, ones: nat)
    requires h == Shl(top, d) + c && c < Pow2(d) && s == w + d && top == Pow2(w) - 1 && ones == Pow2(d) - 1
    ensures Or(h, ones) == Pow2(s) - 1
  {
    ShlAdd(0, 0, d);
    OrFields(top, c, 0, ones, d, h, ones);
    OrOnes(c, d, ones);
    OrZero(top);
    OnesJoin(d, w, s, top);
  }

  lemma TopDoubles(x: nat, d: nat, w: nat, e: nat)
    requires e == d + w && Shr(x, e) == Pow2(w) - 1
    ensures Or(Shr(x, d), Shr(Shr(x, w), d)) == Pow2(2 * w) - 1
  {
    var c := Split(Shr(x, d), w);
    ShrShr(x, d, w, e);
    ShrShr(x, w, d, e);
    OrExtends(Shr(x, d), c, w, w, 2 * w, Shr(x, e), Shr(x, e));
  }

  /** One shift by w doubles the run of leading ones while there is room below it. */
  lemma SmearOnce(x: nat, len: nat, w: nat)
    requires Ones(x, len, w) && 2 * w <= len
    ensures Ones(Or(x, Shr(x, w)), len, 2 * w)
  {
    var d := len - 2 * w;
    var low := Split(x, d);
    var l := Split(Shr(x, w), d);
    TopDoubles(x, d, w, len - w);
    SmearedFields(x, Shr(x, w), low, l, len, 2 * w);
  }

  lemma SmearedFields(x: nat, y: nat, low: nat, l: nat, len: nat, w: nat)
    requires w <= len && low < Pow2(len - w) && l < Pow2(len - w)
    requires x == Shl(Shr(x, len - w), len - w) + low && y == Shl(Shr(y, len - w), len - w) + l
    requires Or(Shr(x, len - w), Shr(y, len - w)) == Pow2(w) - 1
    ensures Ones(Or(x, y), len, w)
  {
    var d := len - w;
    OrFields(Shr(x, d), low, Shr(y, d), l, d, x, y);
    OnesAbove(Or(Shr(x, d), Shr(y, d)), Or(low, l), w, d, len, Or(x, y));
  }

  lemma OnesAbove(ones: nat, low: nat, w: nat, d: nat, len: nat, z: nat)
    requires len == w + d && low < Pow2(d) && ones == Pow2(w) - 1 && z == Shl(ones, d) + low
    ensures Shr(z, d) == ones && z < Pow2(len)
  {
    Joined(ones, low, d, z);
    ShlBound(ones, low, d, w, len);
  }

  lemma OnesShift(ones: nat, w: nat, d: nat, k: nat, top: nat)
    requires w == d + k && ones == Pow2(w) - 1 && top == Pow2(d) - 1
    ensures Shr(ones, k) == top
  {
    OnesJoin(k, d, w, top);
    Joined(top, Pow2(k) - 1, k, ones);
  }

  lemma OnesBelow(x: nat, d: nat, k: nat, w: nat, top: nat)
    requires w == d + k && Shr(x, d) == Pow2(w) - 1 && top == Pow2(d) - 1
    ensures Shr(x, w) == top
  {
    ShrShr(x, d, k, w);
    OnesShift(Shr(x, d), w, d, k, top);
  }

  /** ... and fills what is left when there is less room than that. */
  lemma SmearRest(x: nat, len: nat, w: nat)
    requires Ones(x, len, w) && len <= 2 * w
    ensures Ones(Or(x, Shr(x, w)), len, len)
  {
    var d := len - w;
    var c := Split(x, d);
    OnesBelow(x, d, w - d, w, Pow2(d) - 1);
    OrExtends(x, c, w, d, len, Shr(x, d), Shr(x, w));
  }

  lemma {:induction false} ShrBound(x: nat, n: nat, len: nat)
    requires x < Pow2(len)
    ensures Shr(x, n) < Pow2(len)
    decreases n
  {
    if n > 0 {
      ShrBound(x / 2, n - 1, len);
    }
  }

  lemma SmearFull(x: nat, len: nat, u: nat)
    requires Ones(x, len, len)
    ensures Or(x, Shr(x, u)) == x
  {
    ShrBound(x, u, len);
    OrOnes(Shr(x, u), len, x);
    OrComm(x, Shr(x, u));
  }

  /** A run of a ones in a word of len bits. */
  function Capped(a: nat, len: nat): nat { if a <= len then a else len }

  /** The whole chain: k doublings of a run of w ones give a run of w * 2^k ones. */
  lemma {:induction false} Smear(x: nat, len: nat, w: nat, k: nat)
    requires w > 0 && Ones(x, len, Capped(w, len))
    ensures Ones(OrEqual(x, Doubling(w, k)), len, Capped(Shl(w, k), len))
    decreases k
  {
    if k > 0 {
      if len <= w {
        SmearFull(x, len, w);
      } else if len <= 2 * w {
        SmearRest(x, len, w);
      } else {
        SmearOnce(x, len, w);
      }
      Smear(Or(x, Shr(x, w)), len, 2 * w, k - 1);
      ShlAdd(w, w, k - 1);
      assert Doubling(w, k)[1..] == Doubling(2 * w, k - 1);
    }
  }

  /** Number of significant bits. */
  function Length(x: nat): nat { if x == 0 then 0 else 1 + Length(x / 2) }

  lemma {:induction false} LengthBounds(x: nat)
    requires x > 0
    ensures Length(x) > 0 && Pow2(Length(x) - 1) <= x < Pow2(Length(x))
    ensures Shr(x, Length(x) - 1) == 1
  {
    if x > 1 {
      LengthBounds(x / 2);
    }
  }

  lemma {:induction false} SmearZero(shifts: seq<nat>)
    ensures OrEqual(0, shifts) == 0
    decreases |shifts|
  {
    if shifts != [] {
      ShrZero(shifts[0]);
      SmearZero(shifts[1..]);
    }
  }

  lemma {:induction false} ShrZero(n: nat)
    ensures Shr(0, n) == 0
  {
    if n > 0 {
      ShrZero(n - 1);
    }
  }

  /** The smear chain turns a word of e bits into e ones. */
  lemma SmearLength(x: nat, k: nat)
    requires x < Pow2(Pow2(k))
    ensures OrEqual(x, Doubling(1, k)) == Pow2(Length(x)) - 1
  {
    if x == 0 {
      SmearZero(Doubling(1, k));
    } else {
      var len := Length(x);
      LengthBounds(x);
      if len > Pow2(k) {
        Pow2Monotone(Pow2(k), len - 1);
      }
      Smear(x, len, 1, k);
      ShlOne(k, 0);
    }
  }

  ghost predicate LeastPower(r: nat, a: nat) {
    && (exists e: nat :: r == Pow2(e))
    && a <= r
    && (forall e: nat :: a <= Pow2(e) ==> r <= Pow2(e))
  }

  lemma LengthIsLeast(a: nat)
    requires a > 0
    ensures LeastPower(Pow2(Length(a - 1)), a)
  {
    var e := Length(a - 1);
    if a > 1 {
      LengthBounds(a - 1);
    }
    forall f: nat | a <= Pow2(f) ensures Pow2(e) <= Pow2(f) {
      if f < e {
        Pow2Monotone(f, e - 1);
      } else {
        Pow2Monotone(e, f);
      }
    }
  }

  lemma LengthWithin(x: nat, n: nat)
    ensures x < Pow2(n) <==> Length(x) <= n
  {
    if x > 0 {
      LengthBounds(x);
      if Length(x) <= n {
        Pow2Monotone(Length(x), n);
      } else {
        Pow2Monotone(n, Length(x) - 1);
      }
    }
  }

  /** What rounding promises on words of `width` bits: the least power of two that is at least
      a, which exists for 1 <= a <= 2^(width - 1) only; every other word gives 0. */
  ghost predicate RoundsUp(r: nat, a: nat, width: nat) {
    width > 0 && if 1 <= a <= Pow2(width - 1) then LeastPower(r, a) else r == 0
  }

  lemma RoundUpByLength(a: nat, k: nat, dec: nat)
    requires a < Pow2(Pow2(k)) && dec == if a == 0 then Pow2(Pow2(k)) - 1 else a - 1
    ensures RoundUp(a, Pow2(k), Doubling(1, k)) == if Length(dec) == Pow2(k) then 0 else Pow2(Length(dec))
  {
    SmearLength(dec, k);
    LengthWithin(dec, Pow2(k));
    if Length(dec) < Pow2(k) {
      Pow2Strict(Length(dec), Pow2(k));
    }
  }

  lemma RoundUpIsLeast(a: nat, k: nat)
    requires a < Pow2(Pow2(k))
    ensures RoundsUp(RoundUp(a, Pow2(k), Doubling(1, k)), a, Pow2(k))
  {
    var width := Pow2(k);
    var dec := if a == 0 then Pow2(width) - 1 else a - 1;
    RoundUpByLength(a, k, dec);
    LengthWithin(dec, width);
    LengthWithin(dec, width - 1);
    if a > 0 {
      LengthIsLeast(a);
    } else {
      Pow2Strict(width - 1, width);
    }
    LengthRounds(a, width, dec, RoundUp(a, width, Doubling(1, k)));
  }

  lemma LengthRounds(a: nat, width: nat, dec: nat, r: nat)
    requires width > 0 && Length(dec) <= width && r == if Length(dec) == width then 0 else Pow2(Length(dec))
    requires dec < Pow2(width - 1) <==> Length(dec) <= width - 1
    requires if a == 0 then dec >= Pow2(width - 1) else dec == a - 1 && LeastPower(Pow2(Length(dec)), a)
    ensures RoundsUp(r, a, width)
  {
  }

  /** `roundUpToPowerOf2(uint32_t)`. */
  lemma RoundUpToPowerOf2IsLeast(a: nat)
    requires a < Pow2(32)
    ensures RoundsUp(RoundUpToPowerOf2(a), a, 32)
  {
    ShiftListsDouble();
    RoundUpIsLeast(a, 5);
  }

  /** `roundUpToPowerOf2(uint64_t)`. */
  lemma RoundUpToPowerOf2LongIsLeast(a: nat)
    requires a < Pow2(64)
    ensures RoundsUp(RoundUpToPowerOf2Long(a), a, 64)
  {
    ShiftListsDouble();
    RoundUpIsLeast(a, 6);
  }

  lemma Pow2Strict(m: nat, n: nat)
    requires m < n
    ensures Pow2(m) < Pow2(n)
  {
    Pow2Monotone(m, n - 1);
  }

  // ---------------------------------------------------------------- remapIndex

  function CacheLineIndexBits(elementsPerCacheLine: nat): nat {
    match elementsPerCacheLine
    case 256 => 8
    case 128 => 7
    case 64 => 6
    case 32 => 5
    case 16 => 4
    case 8 => 3
    case 4 => 2
    case 2 => 1
    case _ => 0
  }

  function ShuffleBits(size: nat, elementsPerCacheLine: nat): nat {
    var bits := CacheLineIndexBits(elementsPerCacheLine);
    if size < Shl(1, bits * 2) then 0 else bits
  }

  function RemapIndex(bits: nat, index: nat): nat {
    if bits == 0 then index
    else
      var mixMask := Shl(1, bits) - 1;
      var mix := And(Xor(index, Shr(index, bits)), mixMask);
      Xor(Xor(index, mix), Shl(mix, bits))
  }

  /** The word with low field lo, next field hi and everything above in top. */
  function Fields(top: nat, hi: nat, lo: nat, b: nat): nat {
    Shl(Shl(top, b) + hi, b) + lo
  }

  /** The mix is the exclusive or of the two fields. */
  lemma MixOfFields(top: nat, hi: nat, lo: nat, b: nat, index: nat)
    requires hi < Pow2(b) && lo < Pow2(b) && index == Fields(top, hi, lo, b)
    ensures And(Xor(index, Shr(index, b)), Pow2(b) - 1) == Xor(lo, hi) < Pow2(b)
  {
    var above := Shl(top, b) + hi;
    Joined(above, lo, b, index);
    XorFields(above, lo, top, hi, b, index, above);
    Joined(Xor(above, top), Xor(lo, hi), b, Xor(index, above));
  }

  /** Exchanging the low field against x. */
  lemma XorLow(above: nat, u: nat, v: nat, b: nat, w: nat, mix: nat)
    requires u < Pow2(b) && v < Pow2(b) && w == Shl(above, b) + u && mix == Xor(u, v)
    ensures Xor(w, mix) == Shl(above, b) + v
    ensures mix < Pow2(b)
  {
    ShlAdd(0, 0, b);
    XorFields(0, u, 0, v, b, u, v);
    XorFields(above, u, 0, mix, b, w, mix);
    XorZero(above);
    XorCancel(u, v, mix);
  }

  lemma XorHigh(above: nat, u: nat, x: nat, b: nat, w: nat, r: nat)
    requires u < Pow2(b) && w == Shl(above, b) + u && r == Xor(above, x)
    ensures Xor(w, Shl(x, b)) == Shl(r, b) + u
  {
    XorFields(above, u, x, 0, b, w, Shl(x, b));
    XorZero(u);
  }

  /** Swapping two fields by exclusive or. */
  lemma XorSwaps(above: nat, above': nat, hi: nat, lo: nat, b: nat, index: nat, mix: nat)
    requires hi < Pow2(b) && lo < Pow2(b) && index == Shl(above, b) + lo
    requires mix == Xor(lo, hi) && above' == Xor(above, mix)
    ensures Xor(Xor(index, mix), Shl(mix, b)) == Shl(above', b) + hi
  {
    XorLow(above, lo, hi, b, index, mix);
    XorHigh(above, hi, mix, b, Xor(index, mix), above');
  }

  lemma RemapWithMix(b: nat, index: nat, mix: nat)
    requires b > 0 && mix == And(Xor(index, Shr(index, b)), Pow2(b) - 1)
    ensures RemapIndex(b, index) == Xor(Xor(index, mix), Shl(mix, b))
  {
    ShlOne(b, 0);
  }

  lemma XorTop(top: nat, hi: nat, lo: nat, b: nat, above: nat, mix: nat)
    requires hi < Pow2(b) && lo < Pow2(b) && above == Shl(top, b) + hi && mix == Xor(lo, hi)
    ensures Xor(above, mix) == Shl(top, b) + lo
  {
    XorComm(lo, hi);
    XorLow(top, hi, lo, b, above, mix);
  }

  /** The shuffle swaps the two lowest fields of `bits` bits. */
  lemma RemapSwaps(top: nat, hi: nat, lo: nat, b: nat, index: nat)
    requires hi < Pow2(b) && lo < Pow2(b) && index == Fields(top, hi, lo, b)
    ensures RemapIndex(b, index) == Fields(top, lo, hi, b)
  {
    if b > 0 {
      var above, mix := Shl(top, b) + hi, Xor(lo, hi);
      MixOfFields(top, hi, lo, b, index);
      RemapWithMix(b, index, mix);
      XorTop(top, hi, lo, b, above, mix);
      XorSwaps(above, Shl(top, b) + lo, hi, lo, b, index, mix);
    }
  }

  lemma SplitFields(index: nat, b: nat) returns (top: nat, hi: nat, lo: nat)
    ensures hi < Pow2(b) && lo < Pow2(b) && index == Fields(top, hi, lo, b)
  {
    lo := Split(index, b);
    hi := Split(Shr(index, b), b);
    top := Shr(Shr(index, b), b);
  }

  /** Self-inverse permutation of [0, 2^e) whenever 2^e holds both fields. */
  lemma RemapPermutes(index: nat, b: nat, e: nat)
    requires 2 * b <= e && index < Pow2(e)
    ensures RemapIndex(b, index) < Pow2(e)
    ensures RemapIndex(b, RemapIndex(b, index)) == index
  {
    var top, hi, lo := SplitFields(index, b);
    RemapSwaps(top, hi, lo, b, index);
    RemapSwaps(top, lo, hi, b, RemapIndex(b, index));
    FieldsBound(top, hi, lo, b, e - 2 * b);
    FieldsBound(top, lo, hi, b, e - 2 * b);
  }

  lemma FieldsBound(top: nat, hi: nat, lo: nat, b: nat, k: nat)
    requires hi < Pow2(b) && lo < Pow2(b)
    ensures Fields(top, hi, lo, b) < Pow2(k + 2 * b) <==> top < Pow2(k)
  {
    ShlBound(top, hi, b, k, k + b);
    ShlBound(Shl(top, b) + hi, lo, b, k + b, k + 2 * b);
  }

  /** The bits chosen for a power-of-two capacity always fit. */
  lemma ShuffleBitsFit(e: nat, elementsPerCacheLine: nat)
    ensures 2 * ShuffleBits(Pow2(e), elementsPerCacheLine) <= e
  {
    var bits := CacheLineIndexBits(elementsPerCacheLine);
    ShlOne(bits * 2, 0);
    if e < bits * 2 {
      Pow2Strict(e, bits * 2);
    }
  }

  lemma ModuloIsMask(t: nat, e: nat)
    ensures t % Pow2(e) == And(t, Pow2(e) - 1)
  {
    var r := Split(t, e);
    ShlIsProduct(Shr(t, e), e);
    assert t == Pow2(e) * Shr(t, e) + r;
    DivModUnique(t, Pow2(e), Shr(t, e), r);
    Joined(Shr(t, e), r, e, t);
  }

  /** A field above two others, in either grouping. */
  lemma Regroup(x: nat, y: nat, b: nat, d: nat, e: nat)
    requires e == d + b
    ensures Shl(x, e) + Shl(y, b) == Shl(Shl(x, d) + y, b)
  {
    ShlShl(x, d, b);
    ShlAdd(Shl(x, d), y, b);
  }

  /** The low field survives reduction modulo the capacity. */
  lemma LowOfTicket(t: nat, b: nat, e: nat)
    requires b <= e
    ensures And(t % Pow2(e), Pow2(b) - 1) == And(t, Pow2(b) - 1)
  {
    ModuloIsMask(t, e);
    var x := Shr(t, e);
    var r := Split(t, e);
    var lo := Split(r, b);
    var y := Shr(r, b);
    Joined(x, r, e, t);
    Joined(y, lo, b, r);
    Regroup(x, y, b, e - b, e);
    Joined(Shl(x, e - b) + y, lo, b, t);
  }

  lemma CloseTicketsDiffer(t: nat, u: nat, b: nat)
    requires t < u < t + Pow2(b)
    ensures And(t, Pow2(b) - 1) != And(u, Pow2(b) - 1)
  {
    var lt := Split(t, b);
    var lu := Split(u, b);
    Joined(Shr(t, b), lt, b, t);
    Joined(Shr(u, b), lu, b, u);
    var x, y := Shr(t, b), Shr(u, b);
    if lt == lu {
      if x < y {
        ShlAdd(x, y - x, b);
        ShlAdd(1, y - x - 1, b);
        ShlOne(b, 0);
      } else {
        ShlAdd(y, x - y, b);
      }
    }
  }

  /** Any 2^bits consecutive tickets work on pairwise different cache lines. */
  lemma NeighboursOnDifferentLines(t: nat, u: nat, b: nat, e: nat)
    requires 2 * b <= e && t < u < t + Pow2(b)
    ensures Shr(RemapIndex(b, t % Pow2(e)), b) != Shr(RemapIndex(b, u % Pow2(e)), b)
  {
    LowOfTicket(t, b, e);
    LowOfTicket(u, b, e);
    CloseTicketsDiffer(t, u, b);
    LineHoldsLow(t % Pow2(e), b);
    LineHoldsLow(u % Pow2(e), b);
  }

  lemma LowFields(top: nat, hi: nat, lo: nat, b: nat, index: nat)
    requires hi < Pow2(b) && lo < Pow2(b) && index == Fields(top, hi, lo, b)
    ensures And(index, Pow2(b) - 1) == lo && And(Shr(index, b), Pow2(b) - 1) == hi
  {
    Joined(Shl(top, b) + hi, lo, b, index);
    Joined(top, hi, b, Shl(top, b) + hi);
  }

  lemma LineHoldsLow(index: nat, b: nat)
    ensures And(Shr(RemapIndex(b, index), b), Pow2(b) - 1) == And(index, Pow2(b) - 1)
  {
    var top, hi, lo := SplitFields(index, b);
    RemapSwaps(top, hi, lo, b, index);
    LowFields(top, hi, lo, b, index);
    LowFields(top, lo, hi, b, RemapIndex(b, index));
  }
}
