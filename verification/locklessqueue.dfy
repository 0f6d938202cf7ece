/**
 * The intrusive LIFO hand-off stack of ovsocket/locklessqueue.h, in its
 * sequential meaning (a Treiber stack). Every compare-and-swap retry loop
 * becomes the single update it performs when no other thread interferes.
 */
module Queues {
  import opened Common

  /**
   * A slot that can be linked into a queue: the `Queueable` link field plus
   * the payload of the pool slot that embeds it. `slot` is the slot's position
   * in its pool, which stands for the slot's address.
   */
  class Item<T> {
    const slot: nat
    var next: Item?<T>
    var value: T

    constructor (slot: nat, value: T)
      ensures this.slot == slot && next == null && this.value == value
    {
      this.slot := slot;
      next := null;
      this.value := value;
    }
  }

  /** The contents after `push(x)`: x becomes the head. */
  function Pushed<T>(s: seq<T>, x: T): (r: seq<T>)
    ensures |r| == |s| + 1 && r[0] == x && r[1..] == s
  {
    [x] + s
  }

  /** The result of `pop()` and the contents it leaves: on a non-empty stack, pushing the result back restores it. */
  function Popped<T>(s: seq<T>): (r: (Option<T>, seq<T>))
    ensures s == [] ==> r == (None, [])
    ensures s != [] ==> r.0 == Some(s[0]) && [s[0]] + r.1 == s
  {
    if s == [] then (None, []) else (Some(s[0]), s[1..])
  }

  /** The contents after pushing xs[0], xs[1], ... in that order. */
  function PushAll<T>(s: seq<T>, xs: seq<T>): seq<T>
    decreases |xs|
  {
    if xs == [] then s else PushAll(Pushed(s, xs[0]), xs[1..])
  }

  /** The results of n successive pops. */
  function PopMany<T>(s: seq<T>, n: nat): seq<Option<T>>
  {
    if n == 0 then [] else [Popped(s).0] + PopMany(Popped(s).1, n - 1)
  }

  /** Every element wrapped in Some. */
  function Somes<T>(s: seq<T>): (r: seq<Option<T>>)
    ensures |r| == |s|
    ensures forall i :: 0 <= i < |s| ==> r[i] == Some(s[i])
  {
    if s == [] then [] else [Some(s[0])] + Somes(s[1..])
  }

  /** Popping an empty stack yields nothing and leaves it empty. */
  lemma PopEmpty<T>(s: seq<T>)
    ensures Popped(s).0 == None <==> s == []
    ensures s == [] ==> Popped(s).1 == []
  {
  }

  /** `push(x)` followed by `pop()` returns x and restores the previous contents. */
  lemma PopAfterPush<T>(s: seq<T>, x: T)
    ensures Popped(Pushed(s, x)) == (Some(x), s)
  {
  }

  /** Pushing a run of items puts them on top in reverse order. */
  lemma {:induction false} PushAllReverses<T>(s: seq<T>, xs: seq<T>)
    ensures PushAll(s, xs) == Reversed(xs) + s
    decreases |xs|
  {
    if xs != [] {
      PushAllReverses(Pushed(s, xs[0]), xs[1..]);
      assert Reversed(xs) == Reversed(xs[1..]) + [xs[0]];
    }
  }

  /** Pushing one more item after a run puts it on top of the run's result. */
  lemma {:induction false} PushAllSnoc<T>(s: seq<T>, xs: seq<T>, x: T)
    ensures PushAll(s, xs + [x]) == Pushed(PushAll(s, xs), x)
    decreases |xs|
  {
    if xs == [] {
      assert xs + [x] == [x];
    } else {
      assert (xs + [x])[1..] == xs[1..] + [x];
      PushAllSnoc(Pushed(s, xs[0]), xs[1..], x);
    }
  }

  /** Pushing a run adds exactly its items to the stack's contents. */
  lemma {:induction false} PushAllMultiset<T>(s: seq<T>, xs: seq<T>)
    ensures multiset(PushAll(s, xs)) == multiset(s) + multiset(xs)
    decreases |xs|
  {
    if xs != [] {
      PushAllMultiset(Pushed(s, xs[0]), xs[1..]);
      assert xs == [xs[0]] + xs[1..];
    }
  }

  /** Popping |p| times from p + s yields the elements of p in order and leaves s. */
  lemma {:induction false} PopManyPrefix<T>(p: seq<T>, s: seq<T>, extra: nat)
    ensures PopMany(p + s, |p| + extra) == Somes(p) + PopMany(s, extra)
    decreases |p|
  {
    if p == [] {
      assert p + s == s;
    } else {
      assert (p + s)[1..] == p[1..] + s;
      PopManyPrefix(p[1..], s, extra);
      assert Somes(p) == [Some(p[0])] + Somes(p[1..]);
    }
  }

  /**
   * LIFO order: pushing a1..an onto an empty stack and popping n + 1 times
   * yields an..a1 followed by the empty result.
   */
  lemma LastInFirstOut<T>(xs: seq<T>)
    ensures PopMany(PushAll([], xs), |xs| + 1) == Somes(Reversed(xs)) + [None]
  {
    var r := Reversed(xs);
    PushAllReverses([], xs);
    assert PushAll([], xs) == r + [];
    PopManyPrefix(r, [], 1);
    PopOnceEmpty<T>();
  }

  /** One pop of the empty stack yields only the empty result. */
  lemma PopOnceEmpty<T>()
    ensures PopMany<T>([], 1) == [None]
  {
    assert PopMany<T>([], 0) == [];
  }

  /** The `LocklessQueue` class: `mHead` and the chain of `next` links behind it. */
  class LocklessQueue<T> {
    var head: Item?<T>
    /** The items on the stack, from head to bottom. */
    ghost var Contents: seq<Item<T>>

    /** `head` starts the chain, each item links to the one below it, the last link is null. */
    ghost predicate Valid()
      reads this, Contents
    {
      && head == (if Contents == [] then null else Contents[0])
      && (forall i :: 0 <= i < |Contents| - 1 ==> Contents[i].next == Contents[i + 1])
      && (Contents != [] ==> Contents[|Contents| - 1].next == null)
      && Distinct(Contents)
    }

    /** A new queue is empty. */
    constructor ()
      ensures Valid() && Contents == [] && head == null
    {
      head := null;
      Contents := [];
    }

    /** The non-atomic `clear`: empties the stack and touches no item's link. */
    method Clear()
      modifies this
      ensures Valid() && Contents == []
    {
      head := null;
      Contents := [];
    }

    /**
     * `push(item)`: links x in front of the old head. The item must not be on
     * the stack already (an item is linked into at most one queue).
     */
    method Push(x: Item<T>)
      requires Valid() && x !in Contents
      modifies this, x
      ensures Valid()
      ensures Contents == Pushed(old(Contents), x)
      ensures x.next == old(head) && x.value == old(x.value)
      ensures forall y :: y in old(Contents) ==> y.next == old(y.next)
    {
      x.next := head;
      head := x;
      Contents := [x] + Contents;
    }

    /** `pop()`: unlinks the head and returns it, or null when the stack is empty. */
    method Pop() returns (r: Item?<T>)
      requires Valid()
      modifies this
      ensures Valid()
      ensures r == null ==> Popped(old(Contents)) == (None, Contents)
      ensures r != null ==> Popped(old(Contents)) == (Some(r as Item<T>), Contents)
    {
      r := head;
      if r != null {
        head := r.next;
        Contents := Contents[1..];
      }
    }
  }
}
