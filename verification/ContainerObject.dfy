/** `ConcurrentContainer` as one caller sees it: the queue of inactive entries and the hash map
    of active ones, changed in place. Entries are named by their index in the raw storage. */
module ContainerObjects {
  import opened Bits
  import opened QueueMachine
  import opened IndexMap
  import opened LockFreeQueues

  function Indices(n: nat): (r: seq<nat>)
    ensures |r| == n
  {
    seq(n, i => i)
  }

  lemma RoundedWithin(r: nat, size: nat)
    requires LeastPower(r, size)
    ensures r <= HALF / 2 <==> size <= HALF / 2
  {
    WordIsPower();
    if size <= HALF / 2 {
      assert size <= Pow2(30);
    }
  }

  class ConcurrentContainer {
    const capacity: nat
    const inactiveEntries: LockFreeQueue<nat>
    var activeEntries: map<string, nat>

    ghost predicate Valid()
      reads this, inactiveEntries, inactiveEntries.queue
    {
      && inactiveEntries.Valid() && capacity <= inactiveEntries.size
      && (capacity <= HALF / 2 <==> inactiveEntries.size <= HALF / 2)
      && |inactiveEntries.Contents()| <= (if capacity <= HALF / 2 then capacity else 0)
    }

    ghost function Inactive(): seq<nat>
      reads this, inactiveEntries, inactiveEntries.queue
      requires Valid()
    {
      inactiveEntries.Contents()
    }

    /** Every entry starts out inactive, in the order of the storage; the queue of more than
        2^30 entries refuses them all. */
    constructor (size: nat)
      requires 1 <= size <= HALF
      ensures Valid() && fresh(inactiveEntries) && fresh(inactiveEntries.queue)
      ensures capacity == size && activeEntries == map[]
      ensures Inactive() == if size <= HALF / 2 then Indices(size) else []
    {
      WordIsPower();
      capacity := size;
      inactiveEntries := new LockFreeQueue(size, 8);
      activeEntries := map[];
      new;
      RoundedWithin(inactiveEntries.size, size);
      Fill();
    }

    method Fill()
      requires inactiveEntries.Valid() && capacity <= inactiveEntries.size && inactiveEntries.Contents() == []
      requires capacity <= HALF / 2 <==> inactiveEntries.size <= HALF / 2
      modifies inactiveEntries, inactiveEntries.queue
      ensures Valid() && Inactive() == if capacity <= HALF / 2 then Indices(capacity) else []
    {
      for i := 0 to capacity
        invariant inactiveEntries.Valid()
        invariant inactiveEntries.Contents() == if capacity <= HALF / 2 then Indices(i) else []
      {
        var ok := inactiveEntries.TryPush(i);
        assert Indices(i) + [i] == Indices(i + 1);
      }
    }

    /** The blocking `pop` behind a name that promises a try. */
    method TryPopFromQueue() returns (entry: nat)
      requires Valid() && Inactive() != []
      modifies inactiveEntries, inactiveEntries.queue
      ensures Valid() && [entry] + Inactive() == old(Inactive())
    {
      entry := inactiveEntries.Pop();
    }

    /** Never refused while an entry is out, up to 2^30 entries. */
    method TryPushIntoQueue(entry: nat) returns (ok: bool)
      requires Valid() && |Inactive()| < capacity
      modifies inactiveEntries, inactiveEntries.queue
      ensures Valid() && (ok <==> capacity <= HALF / 2)
      ensures Inactive() == old(Inactive()) + (if ok then [entry] else [])
    {
      ok := inactiveEntries.TryPush(entry);
    }

    /** The number of entries that are out. */
    method Size() returns (n: nat)
      requires Valid()
      ensures n == capacity - |Inactive()|
    {
      var waiting := inactiveEntries.Size();
      n := capacity - waiting;
    }

    method AddEntryToHashMap(key: string, entry: nat) returns (ok: bool)
      modifies `activeEntries
      ensures ok <==> key !in old(activeEntries)
      ensures activeEntries == if ok then old(activeEntries)[key := entry] else old(activeEntries)
    {
      if key in activeEntries {
        return false;
      }
      activeEntries := activeEntries[key := entry];
      ok := true;
    }

    method RemoveEntryFromHashMap(key: string) returns (ok: bool)
      modifies `activeEntries
      ensures ok <==> key in old(activeEntries)
      ensures activeEntries == old(activeEntries) - {key}
    {
      if key !in activeEntries {
        return false;
      }
      activeEntries := activeEntries - {key};
      ok := true;
    }
  }
}
