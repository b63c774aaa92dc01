/** The 256-slot tagged ring of include/rollback_lab/netcode/frame_ring.hpp. */
module FrameRings {
  import opened Core

  const CAPACITY: int := 256

  datatype Slot<T> = Empty | Filled(frame: u32, value: T)

  /** What a ring answers for after `value` is stored at the unbounded frame `frame`. */
  ghost function Stored<T>(live: map<int, T>, frame: int, value: T): map<int, T> {
    (map k | k in live && k % CAPACITY != frame % CAPACITY :: live[k])[frame := value]
  }

  class FrameRing<T> {
    const slots: array<Slot<T>>
    /** Unbounded frame numbers the ring answers for, all in [origin, origin + 2^32). */
    ghost const origin: int
    ghost var live: map<int, T>

    ghost predicate Spans(frame: int) { origin <= frame < origin + U32 }

    ghost predicate Valid()
      reads this, slots
    {
      && slots.Length == CAPACITY
      && (forall k :: k in live ==>
            && Spans(k)
            && slots[k % CAPACITY] == Filled(Tag(k), live[k]))
      && (forall i :: 0 <= i < CAPACITY && slots[i].Filled? ==>
            exists k :: k in live && k % CAPACITY == i)
    }

    constructor (ghost start: int)
      ensures Valid() && live == map[] && origin == start && fresh(slots)
    {
      slots := new Slot<T>[CAPACITY](_ => Empty);
      origin := start;
      live := map[];
    }

    method Put(frame: u32, value: T, ghost number: int)
      requires Valid() && Spans(number) && frame == Tag(number)
      modifies this, slots
      ensures Valid() && live == Stored(old(live), number, value)
    {
      IndexOfTag(number);
      slots[frame % CAPACITY] := Filled(frame, value);
      live := Stored(live, number, value);
      assert forall i :: 0 <= i < CAPACITY && i != number % CAPACITY && slots[i].Filled? ==>
          exists k :: k in old(live) && k % CAPACITY == i;
    }

    /** A lookup never returns another frame's value, even one with the same slot. */
    method Get(frame: u32, ghost number: int) returns (r: Result<T>)
      requires Valid() && Spans(number) && frame == Tag(number)
      ensures r == if number in live then Ok(live[number]) else Err(StaleFrame)
    {
      IndexOfTag(number);
      var slot := slots[frame % CAPACITY];
      if slot.Empty? || slot.frame != frame {
        r := Err(StaleFrame);
      } else {
        r := Ok(slot.value);
        OwnerOf(number);
      }
    }

    method Contains(frame: u32, ghost number: int) returns (r: bool)
      requires Valid() && Spans(number) && frame == Tag(number)
      ensures r <==> number in live
    {
      IndexOfTag(number);
      var slot := slots[frame % CAPACITY];
      r := slot.Filled? && slot.frame == frame;
      if r {
        OwnerOf(number);
      }
    }

    lemma OwnerOf(number: int)
      requires Valid() && Spans(number)
      requires slots[number % CAPACITY].Filled? && slots[number % CAPACITY].frame == Tag(number)
      ensures number in live
    {
      var k :| k in live && k % CAPACITY == number % CAPACITY;
      TagDifference(k, number);
    }
  }

  /** 256 divides 2^32, so the slot index is the same for the tag and for the unbounded number. */
  lemma IndexOfTag(number: int)
    ensures Tag(number) % CAPACITY == number % CAPACITY
  {
    var q := number / U32;
    assert number == q * U32 + Tag(number);
    assert U32 == CAPACITY * 0x100_0000;
    assert number == CAPACITY * (q * 0x100_0000) + Tag(number);
  }

  // ---- A ring that holds the newest entries of a history ----

  /** `live` is exactly the last 256 entries of `history`, whose first entry has number `first`. */
  ghost predicate Newest<T>(live: map<int, T>, first: int, history: seq<T>) {
    && (forall k :: k in live <==> first <= k < first + |history| && first + |history| - CAPACITY <= k)
    && (forall k :: k in live ==> live[k] == history[k - first])
  }

  /** Storing the next entry of a history evicts exactly the entry 256 older. */
  lemma StoreNext<T>(live: map<int, T>, first: int, history: seq<T>, value: T)
    requires Newest(live, first, history)
    ensures Newest(Stored(live, first + |history|, value), first, history + [value])
  {
    var next := first + |history|;
    forall k | next - CAPACITY <= k < next && k % CAPACITY == next % CAPACITY ensures k == next - CAPACITY {
      SameSlot(k, next);
    }
    assert (next - CAPACITY) % CAPACITY == next % CAPACITY;
  }

  /** Storing again at a retained entry replaces that entry and nothing else. */
  lemma StoreAgain<T>(live: map<int, T>, first: int, history: seq<T>, number: int, value: T)
    requires Newest(live, first, history) && number in live
    ensures Newest(Stored(live, number, value), first, history[number - first := value])
  {
    forall k | k in live && k % CAPACITY == number % CAPACITY ensures k == number {
      SameSlot(k, number);
    }
  }

  lemma SameSlot(a: int, b: int)
    requires a % CAPACITY == b % CAPACITY
    ensures a < b ==> a <= b - CAPACITY
    ensures b < a ==> b <= a - CAPACITY
  {
    assert a == CAPACITY * (a / CAPACITY) + a % CAPACITY;
    assert b == CAPACITY * (b / CAPACITY) + b % CAPACITY;
  }
}
