/** What the shuffle is for: neighbouring tickets work on different cache lines. Stated for the
    line sizes, the capacities and the 32-bit counters of the program. */
module CacheLines {
  import opened Division
  import opened Bits
  import opened IndexMap
  import opened Residues
  import opened QueueMachine

  /** The numbers of elements to a cache line for which the templates provide a shuffle. */
  predicate Shuffled(n: nat) {
    n == 2 || n == 4 || n == 8 || n == 16 || n == 32 || n == 64 || n == 128 || n == 256
  }

  lemma SmallPowers()
    ensures Pow2(1) == 2 && Pow2(2) == 4 && Pow2(3) == 8 && Pow2(4) == 16
    ensures Pow2(5) == 32 && Pow2(6) == 64 && Pow2(7) == 128 && Pow2(8) == 256
  {
  }

  /** The bits of such a number, and none for any other. */
  lemma IndexBits(n: nat)
    ensures Shuffled(n) ==> n == Pow2(CacheLineIndexBits(n)) && 0 < CacheLineIndexBits(n) <= 8
    ensures !Shuffled(n) ==> CacheLineIndexBits(n) == 0
  {
    SmallPowers();
  }

  lemma {:induction false} Pow2Sum(a: nat, b: nat)
    ensures Pow2(a + b) == Pow2(a) * Pow2(b)
  {
    if a > 0 {
      Pow2Sum(a - 1, b);
      assert 2 * (Pow2(a - 1) * Pow2(b)) == (2 * Pow2(a - 1)) * Pow2(b);
    }
  }

  /** There is a shuffle exactly for such a line size and a capacity of at least its square, and
      then its fields are as wide as the index within a line. */
  lemma ShuffleChosen(e: nat, n: nat)
    ensures ShuffleBits(Pow2(e), n) > 0 <==> Shuffled(n) && Pow2(e) >= n * n
    ensures ShuffleBits(Pow2(e), n) > 0 ==> Pow2(ShuffleBits(Pow2(e), n)) == n && 2 * ShuffleBits(Pow2(e), n) <= e
  {
    var bits := CacheLineIndexBits(n);
    IndexBits(n);
    ShlOne(bits * 2, 0);
    Pow2Sum(bits, bits);
    assert bits + bits == bits * 2;
    ShuffleBitsFit(e, n);
  }

  /** The number of a slot's cache line. */
  lemma LineOfSlot(x: nat, b: nat, n: nat)
    requires n == Pow2(b)
    ensures x / n == Shr(x, b)
  {
    var low := Split(x, b);
    ShlIsProduct(Shr(x, b), b);
    assert x == n * Shr(x, b) + low;
    DivModUnique(x, n, Shr(x, b), low);
  }

  lemma SlotOfWord(b: nat, e: nat, t: nat)
    requires e <= 31
    ensures SlotIndex(b, Pow2(e), Word(t)) == RemapIndex(b, t % Pow2(e))
  {
    LaneOfWord(t, e);
    LaneIsModulo(t, Pow2(e));
  }

  /** With n elements to a cache line and at least n * n slots, any n consecutive tickets work on
      pairwise different cache lines, also where the array or the 32-bit counter wraps around. */
  lemma ConsecutiveTicketsSpread(n: nat, e: nat, t: nat, u: nat)
    requires Shuffled(n) && n * n <= Pow2(e) && e <= 31 && t < u < t + n
    ensures var bits := ShuffleBits(Pow2(e), n);
            SlotIndex(bits, Pow2(e), Word(t)) / n != SlotIndex(bits, Pow2(e), Word(u)) / n
  {
    var bits := ShuffleBits(Pow2(e), n);
    ShuffleChosen(e, n);
    SlotOfWord(bits, e, t);
    SlotOfWord(bits, e, u);
    LineOfSlot(SlotIndex(bits, Pow2(e), Word(t)), bits, n);
    LineOfSlot(SlotIndex(bits, Pow2(e), Word(u)), bits, n);
    NeighboursOnDifferentLines(t, u, bits, e);
  }

  /** For a smaller capacity, or any other line size, the slots are in the order of the tickets. */
  lemma OtherwiseInOrder(n: nat, e: nat, t: nat)
    requires e <= 31 && !(Shuffled(n) && n * n <= Pow2(e))
    ensures SlotIndex(ShuffleBits(Pow2(e), n), Pow2(e), Word(t)) == t % Pow2(e)
  {
    ShuffleChosen(e, n);
    SlotOfWord(0, e, t);
  }

  /** Every slot belongs to exactly one lane. */
  lemma SlotsArePermuted(n: nat, e: nat, t: nat, u: nat)
    requires e <= 31
    ensures var bits := ShuffleBits(Pow2(e), n);
            && SlotIndex(bits, Pow2(e), Word(t)) < Pow2(e)
            && (SlotIndex(bits, Pow2(e), Word(t)) == SlotIndex(bits, Pow2(e), Word(u)) <==> t % Pow2(e) == u % Pow2(e))
  {
    var bits := ShuffleBits(Pow2(e), n);
    ShuffleBitsFit(e, n);
    SlotOfWord(bits, e, t);
    SlotOfWord(bits, e, u);
    RemapPermutes(t % Pow2(e), bits, e);
    RemapPermutes(u % Pow2(e), bits, e);
  }
}
