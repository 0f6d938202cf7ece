/**
 * The fixed-capacity pool of ovsocket/locklesspool.h. The slots live in
 * `memory` (the `mMemory` vector) and the free ones are threaded onto a
 * `LocklessQueue` through their own links. A handle is a slot's index; the
 * empty-stack result of `allocate` is `None`.
 */
module Pools {
  import opened Common
  import opened Queues

  /** The slot indices of a run of items. */
  function Slots<T>(items: seq<Item<T>>): (r: seq<nat>)
    ensures |r| == |items|
    ensures forall i :: 0 <= i < |items| ==> r[i] == items[i].slot
  {
    if items == [] then [] else [items[0].slot] + Slots(items[1..])
  }

  /** A free list that a pool of `capacity` slots can hold: distinct valid handles. */
  predicate FreeListFits(free: seq<nat>, capacity: nat)
  {
    Distinct(free) && forall h :: h in free ==> h < capacity
  }

  /** The handles currently lent out: every slot not on the free list. */
  function Outstanding(free: seq<nat>, capacity: nat): set<nat>
  {
    set h | h in RangeSeq(capacity) && h !in free
  }

  /** The handles 0 .. n - 1 in order. */
  function RangeSeq(n: nat): (r: seq<nat>)
    ensures |r| == n && forall i :: 0 <= i < n ==> r[i] == i
  {
    seq(n, i => i)
  }

  lemma InRange(n: nat)
    ensures forall h: nat :: h in RangeSeq(n) <==> h < n
  {
    forall h: nat | h < n ensures h in RangeSeq(n) {
      assert RangeSeq(n)[h] == h;
    }
    forall h | h in RangeSeq(n) ensures h < n {
      var i :| 0 <= i < n && RangeSeq(n)[i] == h;
    }
  }

  /** The handles on a list, as a set. */
  function Elements(s: seq<nat>): set<nat>
  {
    set h | h in s
  }

  lemma DistinctTail(s: seq<nat>)
    requires Distinct(s) && s != []
    ensures Distinct(s[1..]) && s[0] !in s[1..]
  {
    var t := s[1..];
    forall i, j | 0 <= i < j < |t| ensures t[i] != t[j] {
      assert t[i] == s[i + 1] && t[j] == s[j + 1];
    }
  }

  lemma {:induction false} DistinctSize(s: seq<nat>)
    requires Distinct(s)
    ensures |Elements(s)| == |s|
  {
    if s != [] {
      DistinctTail(s);
      DistinctSize(s[1..]);
      assert Elements(s) == Elements(s[1..]) + {s[0]};
    }
  }

  /** Free and outstanding slots together are exactly the capacity. */
  lemma FreePlusOutstanding(free: seq<nat>, capacity: nat)
    requires FreeListFits(free, capacity)
    ensures |free| + |Outstanding(free, capacity)| == capacity
  {
    var onList := Elements(free);
    DistinctSize(free);
    DistinctSize(RangeSeq(capacity));
    InRange(capacity);
    assert Elements(RangeSeq(capacity)) == onList + Outstanding(free, capacity);
    assert onList * Outstanding(free, capacity) == {};
  }

  /** `allocate` on a pool with a free slot lends out exactly the slot at the head of the free list. */
  lemma AllocateLends(free: seq<nat>, capacity: nat)
    requires FreeListFits(free, capacity) && free != []
    ensures Popped(free).0 == Some(free[0])
    ensures FreeListFits(Popped(free).1, capacity)
    ensures free[0] !in Outstanding(free, capacity)
    ensures Outstanding(Popped(free).1, capacity) == Outstanding(free, capacity) + {free[0]}
    ensures |Popped(free).1| == |free| - 1
  {
    var rest := Popped(free).1;
    assert rest == free[1..];
    InRange(capacity);
    DistinctTail(free);
    assert free[0] in free;
    assert forall h :: h in rest ==> h in free;
    forall h | h in Outstanding(rest, capacity)
      ensures h in Outstanding(free, capacity) + {free[0]}
    {
      if h != free[0] {
        assert free == [free[0]] + rest;
        assert h !in free;
      }
    }
  }

  /** `allocate` on an exhausted pool yields the sentinel and changes nothing. */
  lemma AllocateExhausted(capacity: nat)
    ensures Popped<nat>([]) == (None, [])
    ensures Outstanding([], capacity) == Elements(RangeSeq(capacity))
  {
  }

  /** `free` of an outstanding handle returns it, and only it, to the free list. */
  lemma FreeReturns(free: seq<nat>, capacity: nat, h: nat)
    requires FreeListFits(free, capacity) && h in Outstanding(free, capacity)
    ensures FreeListFits(Pushed(free, h), capacity)
    ensures Outstanding(Pushed(free, h), capacity) == Outstanding(free, capacity) - {h}
    ensures |Pushed(free, h)| == |free| + 1
  {
  }

  /** The very next `allocate` after `free(h)` returns h and restores the free list. */
  lemma AllocateAfterFree(free: seq<nat>, h: nat)
    ensures Popped(Pushed(free, h)) == (Some(h), free)
  {
    PopAfterPush(free, h);
  }

  /** Successive allocations with no `free` between them return pairwise distinct slots. */
  lemma AllocationsDistinct(free: seq<nat>, capacity: nat, n: nat)
    requires FreeListFits(free, capacity) && n <= |free|
    ensures PopMany(free, n) == Somes(free[..n])
    ensures forall i, j :: 0 <= i < j < n ==> PopMany(free, n)[i] != PopMany(free, n)[j]
  {
    PopsOfDistinct(free, n);
  }

  /** The first n pops of a stack of distinct handles yield those handles, each once. */
  lemma PopsOfDistinct(free: seq<nat>, n: nat)
    requires Distinct(free) && n <= |free|
    ensures PopMany(free, n) == Somes(free[..n])
    ensures forall i, j :: 0 <= i < j < n ==> PopMany(free, n)[i] != PopMany(free, n)[j]
  {
    var p, q := free[..n], free[n..];
    assert free == p + q;
    PopManyPrefix(p, q, 0);
    assert Somes(p) + PopMany(q, 0) == Somes(p);
  }

  /** Pushing slots 0 .. n - 1 in order leaves their handles on the stack in reverse. */
  lemma SlotsOfReversed<T>(items: seq<Item<T>>)
    requires forall j :: 0 <= j < |items| ==> items[j].slot == j
    ensures Slots(Reversed(items)) == Reversed(RangeSeq(|items|))
  {
    SlotsReversed(items);
    SlotsAreRange(items);
  }

  /** Reading the handles off a reversed run of slots reverses the handles. */
  lemma SlotsReversed<T>(items: seq<Item<T>>)
    ensures Slots(Reversed(items)) == Reversed(Slots(items))
  {
    var l, r := Slots(Reversed(items)), Reversed(Slots(items));
    forall k | 0 <= k < |items|
      ensures l[k] == r[k]
    {
      assert l[k] == Reversed(items)[k].slot;
    }
  }

  /** Slots that sit at their own index have the handles 0 .. n - 1. */
  lemma SlotsAreRange<T>(items: seq<Item<T>>)
    requires forall j :: 0 <= j < |items| ==> items[j].slot == j
    ensures Slots(items) == RangeSeq(|items|)
  {
  }

  /** The `LocklessPool` class: the slot vector and the free stack threaded through it. */
  class LocklessPool<T> {
    var memory: seq<Item<T>>
    const queue: LocklessQueue<T>

    /** Slot i sits at index i, and the free stack holds only slots of this pool. */
    ghost predicate Valid()
      reads this, queue, memory, queue.Contents
    {
      && (forall i :: 0 <= i < |memory| ==> memory[i].slot == i)
      && (forall x :: x in queue.Contents ==> x in memory)
      && queue.Valid()
    }

    /** The handles on the free stack, head first. */
    ghost function FreeList(): seq<nat>
      reads this, queue
    {
      Slots(queue.Contents)
    }

    /** The payload stored in each slot. */
    ghost function Values(): seq<T>
      reads this, memory
    {
      seq(|memory|, i reads this, memory requires 0 <= i < |memory| => memory[i].value)
    }

    /** The free list holds distinct handles below the capacity. */
    lemma FreeListFitsCapacity()
      requires Valid()
      ensures FreeListFits(FreeList(), |memory|)
      ensures forall h :: 0 <= h < |memory| ==> (h in FreeList() <==> memory[h] in queue.Contents)
    {
      var c := queue.Contents;
      forall i, j | 0 <= i < j < |c|
        ensures c[i].slot != c[j].slot
      {
        assert c[i] in memory && c[j] in memory;
      }
      forall h | h in FreeList()
        ensures h < |memory|
      {
        var i :| 0 <= i < |c| && FreeList()[i] == h;
        assert c[i] in memory;
      }
      forall h | 0 <= h < |memory| && h in FreeList()
        ensures memory[h] in c
      {
        var i :| 0 <= i < |c| && FreeList()[i] == h;
        assert c[i] in memory;
      }
    }

    /** `LocklessPool(size)`: a pool whose `size` slots all hold `init` and are all free. */
    constructor (size: nat, init: T)
      ensures Valid() && fresh(queue)
      ensures |memory| == size && Values() == seq(size, _ => init)
      ensures FreeList() == Reversed(RangeSeq(size))
    {
      memory := [];
      queue := new LocklessQueue();
      new;
      Resize(size, init);
    }

    /**
     * `resize(size)`: discards the old slots and the old free list, builds
     * `size` fresh slots and pushes them onto the free stack in index order.
     */
    method Resize(size: nat, init: T)
      requires queue.Valid()
      modifies this, queue
      ensures Valid()
      ensures |memory| == size && Values() == seq(size, _ => init)
      ensures forall i :: 0 <= i < size ==> fresh(memory[i])
      ensures queue.Contents == PushAll([], memory)
      ensures FreeList() == Reversed(RangeSeq(size))
    {
      queue.Clear();
      memory := NewSlots(size, init);
      PushSlots();
      PushAllReverses([], memory);
      assert Reversed(memory) + [] == Reversed(memory);
      SlotsOfReversed(memory);
      UniformValues(init);
    }

    /** Slots that all hold `init` make the payload sequence constant. */
    lemma UniformValues(init: T)
      requires forall j :: 0 <= j < |memory| ==> memory[j].value == init
      ensures Values() == seq(|memory|, _ => init)
    {
      assert forall j :: 0 <= j < |memory| ==> Values()[j] == init;
    }

    /** The first loop of `resize`: `size` fresh slots holding `init`. */
    static method NewSlots(size: nat, init: T) returns (items: seq<Item<T>>)
      ensures |items| == size
      ensures forall j :: 0 <= j < size ==> items[j].slot == j && items[j].value == init && fresh(items[j])
    {
      items := [];
      var i := 0;
      while i < size
        invariant i <= size && |items| == i
        invariant forall j :: 0 <= j < i ==> items[j].slot == j && items[j].value == init && fresh(items[j])
      {
        var item := new Item(i, init);
        items := items + [item];
        i := i + 1;
      }
    }

    /** The second loop of `resize`: every slot pushed onto the empty free stack, in index order. */
    method PushSlots()
      requires queue.Valid() && queue.Contents == []
      requires forall j :: 0 <= j < |memory| ==> memory[j].slot == j
      modifies queue, memory
      ensures queue.Valid() && queue.Contents == Reversed(memory)
      ensures forall j :: 0 <= j < |memory| ==> memory[j].value == old(memory[j].value)
    {
      var i := 0;
      while i < |memory|
        invariant i <= |memory| && queue.Valid()
        invariant queue.Contents == Reversed(memory[..i])
        invariant forall j :: 0 <= j < |memory| ==> memory[j].value == old(memory[j].value)
      {
        assert memory[..i + 1] == memory[..i] + [memory[i]];
        assert memory[i] !in memory[..i];
        queue.Push(memory[i]);
        i := i + 1;
      }
      assert memory[..i] == memory;
    }

    /**
     * `allocate()`: pops the head of the free stack. On an exhausted pool the
     * result is the sentinel `None` (the source returns the empty-stack
     * pointer shifted by the value offset) and nothing changes.
     */
    method Allocate() returns (h: Option<nat>)
      requires Valid()
      modifies queue
      ensures Valid() && memory == old(memory) && Values() == old(Values())
      ensures (h, FreeList()) == Popped(old(FreeList()))
      ensures h.Some? ==> h.value < |memory| && h.value !in FreeList()
    {
      FreeListFitsCapacity();
      assert old(FreeList()) != [] ==> old(FreeList())[0] in old(FreeList());
      var x := queue.Pop();
      if x == null {
        h := None;
      } else {
        h := Some(x.slot);
        assert old(queue.Contents)[0] == x;
        assert FreeList() == old(FreeList())[1..];
      }
      FreeListFitsCapacity();
    }

    /** `free(value)`: pushes an outstanding slot back; its payload is left as it is. */
    method Free(h: nat)
      requires Valid() && h < |memory| && h !in FreeList()
      modifies queue, memory[h]
      ensures Valid() && memory == old(memory) && Values() == old(Values())
      ensures FreeList() == Pushed(old(FreeList()), h)
    {
      FreeListFitsCapacity();
      queue.Push(memory[h]);
      assert queue.Contents == [memory[h]] + old(queue.Contents);
    }
  }
}
