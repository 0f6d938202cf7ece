/**
 * The reactor's two hand-off stacks as ovsocket/networkthread.cpp lays them
 * out. A `LocklessQueue` is only a head pointer; the rest of a stack is
 * reached through the `nextQueueable` link of its items, and a `Socket` has
 * exactly one such link. `mSocketAddQueue` and `mSocketRemoveQueue` both
 * thread their sockets through it, so a push onto one stack overwrites the
 * link of a socket that may still be on the other.
 *
 * The `Networking` module models the stacks as they are evidently meant to
 * behave, one entry per push. This module shows where the source departs
 * from that (a lost add, a deletion nobody asked for, an add drain that
 * never ends, a remove drain that pops a socket it has deleted) and proves
 * that the two agree, wake after wake, whenever no socket is pushed while
 * it is still on a stack.
 */
module LinkedStacks {
  import opened Common
  import opened Networking

  /** The two stack heads and every socket's `nextQueueable`. */
  datatype Links = Links(addHead: Option<SocketId>, removeHead: Option<SocketId>, next: map<SocketId, Option<SocketId>>)

  /** h is null or a socket whose link exists. */
  predicate InDomain(h: Option<SocketId>, next: map<SocketId, Option<SocketId>>)
  {
    h.Some? ==> h.value in next
  }

  /** Every link points at null or at a socket whose link exists. */
  predicate LinksClosed(next: map<SocketId, Option<SocketId>>)
  {
    forall x :: x in next ==> InDomain(next[x], next)
  }

  /** The shape pushes build: heads and links all lead to sockets that have been pushed. */
  predicate Closed(l: Links)
  {
    LinksClosed(l.next) && InDomain(l.addHead, l.next) && InDomain(l.removeHead, l.next)
  }

  /** Empty stacks, no socket ever pushed: the state a new `NetworkThread` starts in. */
  const NoLinks := Links(None, None, map[])

  /** c is the list of sockets reached from h by following links, ending at a null link. */
  predicate Linked(next: map<SocketId, Option<SocketId>>, h: Option<SocketId>, c: seq<SocketId>)
  {
    && (forall i :: 0 <= i < |c| ==> c[i] in next)
    && (c == [] ==> h == None)
    && (c != [] ==> h == Some(c[0]) && next[c[|c| - 1]] == None)
    && (forall i :: 0 <= i < |c| - 1 ==> next[c[i]] == Some(c[i + 1]))
  }

  /**
   * The sockets successive `pop`s return from a stack whose head is h,
   * skipping none of the sockets in `seen`. `pop` reads the head's link and
   * never clears it, so a chain can run back into a socket already passed;
   * the result is then None. What the drain loop does next depends on the
   * stack: the add drain pops for ever, while the remove drain has deleted
   * that socket and reads its link from freed memory (`LinkedDrained`).
   */
  function Chain(next: map<SocketId, Option<SocketId>>, h: Option<SocketId>, seen: set<SocketId>): (r: Option<seq<SocketId>>)
    requires LinksClosed(next) && InDomain(h, next)
    ensures r.Some? ==> Linked(next, h, r.value) && Distinct(r.value)
    ensures r.Some? ==> forall x :: x in r.value ==> x !in seen
    decreases next.Keys - seen
  {
    match h
    case None => Some([])
    case Some(s) =>
      if s in seen then None
      else
        assert s in next.Keys - seen;
        match Chain(next, next[s], seen + {s})
        case None => None
        case Some(rest) =>
          assert forall i :: 1 <= i < |[s] + rest| ==> ([s] + rest)[i] == rest[i - 1];
          Some([s] + rest)
  }

  /** A null-terminated chain of distinct sockets, none of them in `seen`, is what the pops return. */
  lemma {:induction false} ChainOfLinked(next: map<SocketId, Option<SocketId>>, h: Option<SocketId>, c: seq<SocketId>, seen: set<SocketId>)
    requires LinksClosed(next) && Linked(next, h, c) && Distinct(c)
    requires forall x :: x in c ==> x !in seen
    ensures InDomain(h, next) && Chain(next, h, seen) == Some(c)
    decreases |c|
  {
    if c != [] {
      var s, rest := c[0], c[1..];
      var h' := if rest == [] then None else Some(rest[0]);
      assert next[s] == h';
      assert forall x :: x in rest ==> x != s by {
        forall x | x in rest ensures x != s {
          var i :| 0 <= i < |rest| && rest[i] == x;
          assert c[i + 1] == x && c[0] == s;
        }
      }
      assert Linked(next, h', rest) by {
        if rest != [] {
          assert rest[|rest| - 1] == c[|c| - 1];
          forall i | 0 <= i < |rest| - 1 ensures next[rest[i]] == Some(rest[i + 1]) {
            assert next[c[i + 1]] == Some(c[i + 2]);
          }
        }
      }
      assert Distinct(rest) by {
        forall i, j | 0 <= i < j < |rest| ensures rest[i] != rest[j] {
          assert c[i + 1] != c[j + 1];
        }
      }
      ChainOfLinked(next, h', rest, seen + {s});
      assert c == [s] + rest;
    }
  }

  /** A socket whose link points at itself makes the drain of any stack it heads pop for ever. */
  lemma SelfLinkHangs(next: map<SocketId, Option<SocketId>>, s: SocketId, seen: set<SocketId>)
    requires LinksClosed(next) && s in next && next[s] == Some(s)
    ensures Chain(next, Some(s), seen) == None
  {
    if s !in seen {
      assert Chain(next, Some(s), seen + {s}) == None;
    }
  }

  /**
   * `addSocket` and `removeSocket` as written: `push` sets the socket's one
   * link to the stack's old head and makes the socket the head, whatever
   * stack the link threaded the socket into before; `stop` pushes nothing.
   */
  function LinkedCalled(l: Links, c: Call): (r: Links)
    requires Closed(l)
    ensures Closed(r)
    ensures c.AddSocket? ==> r.addHead == Some(c.id) && r.removeHead == l.removeHead && r.next == l.next[c.id := l.addHead]
    ensures c.RemoveSocket? ==> r.removeHead == Some(c.id) && r.addHead == l.addHead && r.next == l.next[c.id := l.removeHead]
    ensures c.Stop? ==> r == l
  {
    match c
    case AddSocket(id) => l.(addHead := Some(id), next := l.next[id := l.addHead])
    case RemoveSocket(id) => l.(removeHead := Some(id), next := l.next[id := l.removeHead])
    case Stop => l
  }

  /** A run of calls, in order, as written. */
  function LinkedCalledAll(l: Links, cs: seq<Call>): (r: Links)
    requires Closed(l)
    ensures Closed(r)
  {
    if cs == [] then l else LinkedCalled(LinkedCalledAll(l, cs[..|cs| - 1]), cs[|cs| - 1])
  }

  /**
   * How the internal-event branch ends as written: with new links, a live
   * list and the sockets deleted; in an add drain that pops for ever; or in
   * a remove drain that pops a socket it has already deleted, reading its
   * link from freed memory and deleting it again (undefined behaviour, after
   * which nothing is modelled).
   */
  datatype Drain =
    | Drains(links: Links, live: seq<SocketId>, deleted: seq<SocketId>)
    | AddLoops
    | RemoveReadsDeleted

  /**
   * The internal-event branch as written: pop the add stack onto the live
   * list, then pop the remove stack, erasing and deleting each socket. The
   * add chain is followed first, so a loop in it is reached before any
   * delete; a remove chain that runs back into a socket does so after that
   * socket was deleted.
   */
  function LinkedDrained(l: Links, sockets: seq<SocketId>): (r: Drain)
    requires Closed(l)
    ensures r.AddLoops? <==> Chain(l.next, l.addHead, {}).None?
    ensures r.RemoveReadsDeleted? <==> Chain(l.next, l.addHead, {}).Some? && Chain(l.next, l.removeHead, {}).None?
    ensures r.Drains? <==> Chain(l.next, l.addHead, {}).Some? && Chain(l.next, l.removeHead, {}).Some?
    ensures r.Drains? ==> r.links == l.(addHead := None, removeHead := None)
    ensures r.Drains? ==> r.deleted == Chain(l.next, l.removeHead, {}).value
    ensures r.Drains? ==> forall y :: y in r.live <==>
      (y in sockets || y in Chain(l.next, l.addHead, {}).value) && y !in Chain(l.next, l.removeHead, {}).value
  {
    match Chain(l.next, l.addHead, {})
    case None => AddLoops
    case Some(adds) =>
      match Chain(l.next, l.removeHead, {})
      case None => RemoveReadsDeleted
      case Some(removes) =>
        EraseAllRemoves(sockets + adds, removes);
        Drains(l.(addHead := None, removeHead := None), EraseAll(sockets + adds, removes), removes)
  }

  /** A thread with nothing pushed and not running. */
  const Idle := Thread(false, false, [], [], [], [], [])

  /** Three calls, as written, one after the other. */
  lemma LinkedCalledThree(l: Links, a: Call, b: Call, c: Call)
    requires Closed(l)
    ensures LinkedCalledAll(l, [a, b, c]) == LinkedCalled(LinkedCalled(LinkedCalled(l, a), b), c)
  {
    LinkedCalledSnoc(l, [], a);
    LinkedCalledSnoc(l, [a], b);
    LinkedCalledSnoc(l, [a, b], c);
    assert [] + [a] == [a] && [a] + [b] == [a, b] && [a, b] + [c] == [a, b, c];
  }

  /** One more call after a run, as written. */
  lemma LinkedCalledSnoc(l: Links, cs: seq<Call>, c: Call)
    requires Closed(l)
    ensures LinkedCalledAll(l, cs + [c]) == LinkedCalled(LinkedCalledAll(l, cs), c)
  {
    assert (cs + [c])[..|cs|] == cs;
  }

  /** Three calls on the corrected stacks, one after the other. */
  lemma CalledThree(t: Thread, a: Call, b: Call, c: Call)
    ensures CalledAll(t, [a, b, c]) == Called(Called(Called(t, a), b), c)
  {
    CalledSnoc(t, [], a);
    CalledSnoc(t, [a], b);
    CalledSnoc(t, [a, b], c);
    assert [] + [a] == [a] && [a] + [b] == [a, b] && [a, b] + [c] == [a, b, c];
  }

  /** One more call after a run, on the corrected stacks. */
  lemma CalledSnoc(t: Thread, cs: seq<Call>, c: Call)
    ensures CalledAll(t, cs + [c]) == Called(CalledAll(t, cs), c)
  {
    assert (cs + [c])[..|cs|] == cs;
  }

  /**
   * As written, `addSocket(2); addSocket(1); removeSocket(1)` before an
   * internal wake loses socket 2: the remove push nulls socket 1's link,
   * which was all that led the add stack on to socket 2. Socket 2 never
   * becomes live and is never deleted. With one entry per push, socket 2 is
   * live after the wake.
   */
  lemma LinkedLosesAdd()
    ensures var calls := [AddSocket(2), AddSocket(1), RemoveSocket(1)];
      var r := LinkedDrained(LinkedCalledAll(NoLinks, calls), []);
      && r.Drains? && 2 !in r.live && 2 !in r.deleted
      && 2 in Drained(CalledAll(Idle, calls), []).1
  {
    LinkedCalledThree(NoLinks, AddSocket(2), AddSocket(1), RemoveSocket(1));
    var l := LinkedCalledAll(NoLinks, [AddSocket(2), AddSocket(1), RemoveSocket(1)]);
    assert l.addHead == Some(1) && l.removeHead == Some(1) && l.next[1] == None;
    ChainOfLinked(l.next, Some(1), [1], {});
  }

  /**
   * As written, with socket 1 live, `addSocket(2); removeSocket(1);
   * addSocket(1)` deletes socket 2, which nobody removed: re-adding socket 1
   * links it to socket 2, and the remove stack, headed by socket 1, follows
   * that link. With one entry per push only socket 1 is deleted and socket 2
   * stays live.
   */
  lemma LinkedDeletesUnremoved()
    ensures var calls := [AddSocket(2), RemoveSocket(1), AddSocket(1)];
      var r := LinkedDrained(LinkedCalledAll(NoLinks, calls), [1]);
      && r.Drains? && r.deleted == [1, 2] && 2 !in r.live
      && CalledAll(Idle, calls).removeQueue == [1] && 2 in Drained(CalledAll(Idle, calls), [1]).1
  {
    LinkedCalledThree(NoLinks, AddSocket(2), RemoveSocket(1), AddSocket(1));
    CalledThree(Idle, AddSocket(2), RemoveSocket(1), AddSocket(1));
    var l := LinkedCalledAll(NoLinks, [AddSocket(2), RemoveSocket(1), AddSocket(1)]);
    assert l.addHead == Some(1) && l.removeHead == Some(1) && l.next[1] == Some(2) && l.next[2] == None;
    ChainOfLinked(l.next, Some(1), [1, 2], {});
  }

  /**
   * As written, `addSocket(1); removeSocket(1); addSocket(1);
   * removeSocket(1)` before an internal wake (a socket added, removed and
   * added again) links socket 1 to itself, and the add drain, which runs
   * before any delete, pops it for ever. With one entry per push the drain
   * ends and socket 1 is off the live list.
   */
  lemma LinkedDrainHangs()
    ensures var calls := [AddSocket(1), RemoveSocket(1), AddSocket(1), RemoveSocket(1)];
      && LinkedDrained(LinkedCalledAll(NoLinks, calls), []) == AddLoops
      && 1 !in Drained(CalledAll(Idle, calls), []).1
  {
    var calls := [AddSocket(1), RemoveSocket(1), AddSocket(1), RemoveSocket(1)];
    assert calls[..3] == [AddSocket(1), RemoveSocket(1), AddSocket(1)];
    LinkedCalledThree(NoLinks, AddSocket(1), RemoveSocket(1), AddSocket(1));
    var l := LinkedCalledAll(NoLinks, calls);
    assert l.addHead == Some(1) && l.next[1] == Some(1);
    SelfLinkHangs(l.next, 1, {});
  }

  /**
   * As written, `removeSocket(2); removeSocket(1); removeSocket(2)` before
   * an internal wake links socket 2 to socket 1 and socket 1 to socket 2.
   * The remove drain deletes 2, then 1, then pops 2 again, reading the link
   * of a socket it has deleted. With one entry per push the drain ends, but
   * socket 2 is still deleted twice: a socket removed twice is deleted twice
   * whatever the links (`DeletesPerRemove`).
   */
  lemma LinkedRemoveReadsDeleted()
    ensures var calls := [RemoveSocket(2), RemoveSocket(1), RemoveSocket(2)];
      && LinkedDrained(LinkedCalledAll(NoLinks, calls), [1, 2]) == RemoveReadsDeleted
      && Drained(CalledAll(Idle, calls), [1, 2]).0.deleted == [2, 1, 2]
  {
    RemovesTwoOneTwoLinked();
    RemovesTwoOneTwoStacked();
  }

  /** The links `removeSocket(2); removeSocket(1); removeSocket(2)` leave, as written. */
  lemma RemovesTwoOneTwoLinked()
    ensures var l := LinkedCalledAll(NoLinks, [RemoveSocket(2), RemoveSocket(1), RemoveSocket(2)]);
      Closed(l) && l.addHead == None && l.removeHead == Some(2) && 2 in l.next && l.next[2] == Some(1)
      && 1 in l.next && l.next[1] == Some(2) && Chain(l.next, l.removeHead, {}) == None
  {
    LinkedCalledThree(NoLinks, RemoveSocket(2), RemoveSocket(1), RemoveSocket(2));
    var l := LinkedCalledAll(NoLinks, [RemoveSocket(2), RemoveSocket(1), RemoveSocket(2)]);
    assert Chain(l.next, Some(2), {1, 2}) == None;
    assert Chain(l.next, Some(1), {2}) == None;
  }

  /** The remove stack `removeSocket(2); removeSocket(1); removeSocket(2)` leaves, with one entry per push. */
  lemma RemovesTwoOneTwoStacked()
    ensures CalledAll(Idle, [RemoveSocket(2), RemoveSocket(1), RemoveSocket(2)]).removeQueue == [2, 1, 2]
  {
    CalledThree(Idle, RemoveSocket(2), RemoveSocket(1), RemoveSocket(2));
  }

  /** The links thread exactly the corrected stacks' entries, each stack its own chain. */
  predicate Represents(l: Links, t: Thread)
  {
    Closed(l) && Chain(l.next, l.addHead, {}) == Some(t.addQueue) && Chain(l.next, l.removeHead, {}) == Some(t.removeQueue)
  }

  /** The call pushes no socket that is still on either stack. */
  predicate NotOnStack(t: Thread, c: Call)
  {
    c.Stop? || (c.id !in t.addQueue && c.id !in t.removeQueue)
  }

  /** Every call of the run pushes a socket that is on neither stack at that moment. */
  predicate PushesFresh(t: Thread, cs: seq<Call>)
  {
    forall i :: 0 <= i < |cs| ==> NotOnStack(CalledAll(t, cs[..i]), cs[i])
  }

  /** Pushing a socket that is on neither chain threads it on top of one and leaves the other alone. */
  lemma PushKeepsChains(next: map<SocketId, Option<SocketId>>, h: Option<SocketId>, c: seq<SocketId>,
                        other: Option<SocketId>, d: seq<SocketId>, id: SocketId)
    requires LinksClosed(next) && InDomain(h, next) && InDomain(other, next)
    requires Chain(next, h, {}) == Some(c) && Chain(next, other, {}) == Some(d)
    requires id !in c && id !in d
    ensures LinksClosed(next[id := h])
    ensures Chain(next[id := h], Some(id), {}) == Some([id] + c)
    ensures InDomain(other, next[id := h]) && Chain(next[id := h], other, {}) == Some(d)
  {
    var next' := next[id := h];
    var c' := [id] + c;
    assert Linked(next', Some(id), c') by {
      forall i | 0 <= i < |c'| - 1 ensures next'[c'[i]] == Some(c'[i + 1]) {
        if i > 0 {
          assert c'[i] == c[i - 1] && c'[i + 1] == c[i];
        }
      }
    }
    assert Distinct(c') by {
      forall i, j | 0 <= i < j < |c'| ensures c'[i] != c'[j] {
        assert c'[j] == c[j - 1];
        if i > 0 {
          assert c'[i] == c[i - 1];
        }
      }
    }
    ChainOfLinked(next', Some(id), c', {});
    assert Linked(next', other, d) by {
      forall i | 0 <= i < |d| ensures d[i] != id && next'[d[i]] == next[d[i]] {
      }
    }
    ChainOfLinked(next', other, d, {});
  }

  /** One call that pushes a socket on neither stack keeps the links in step with the corrected stacks. */
  lemma CalledRepresents(l: Links, t: Thread, c: Call)
    requires Represents(l, t) && NotOnStack(t, c)
    ensures Represents(LinkedCalled(l, c), Called(t, c))
  {
    match c
    case AddSocket(id) =>
      PushKeepsChains(l.next, l.addHead, t.addQueue, l.removeHead, t.removeQueue, id);
    case RemoveSocket(id) =>
      PushKeepsChains(l.next, l.removeHead, t.removeQueue, l.addHead, t.addQueue, id);
    case Stop =>
  }

  /** A run of calls that never pushes a socket still on a stack keeps the links in step with the corrected stacks. */
  lemma {:induction false} CalledAllRepresents(l: Links, t: Thread, cs: seq<Call>)
    requires Represents(l, t) && PushesFresh(t, cs)
    ensures Represents(LinkedCalledAll(l, cs), CalledAll(t, cs))
    decreases |cs|
  {
    if cs != [] {
      var init := cs[..|cs| - 1];
      assert PushesFresh(t, init) by {
        forall i | 0 <= i < |init| ensures NotOnStack(CalledAll(t, init[..i]), init[i]) {
          assert init[..i] == cs[..i] && init[i] == cs[i];
        }
      }
      CalledAllRepresents(l, t, init);
      assert cs[..|cs| - 1] == init;
      CalledRepresents(LinkedCalledAll(l, init), CalledAll(t, init), cs[|cs| - 1]);
    }
  }

  /**
   * Draining links in step with the corrected stacks ends, gives the
   * corrected drain's live list and deletions, and leaves the links in step
   * with the drained stacks, so agreement carries on to the next wake.
   */
  lemma DrainedAgrees(l: Links, t: Thread, sockets: seq<SocketId>)
    requires Represents(l, t)
    ensures LinkedDrained(l, sockets)
      == Drains(l.(addHead := None, removeHead := None), Drained(t, sockets).1, t.removeQueue)
    ensures Represents(LinkedDrained(l, sockets).links, Drained(t, sockets).0)
  {
  }

  /**
   * Where no call pushes a socket that is still on a stack, the source's
   * shared links behave as one entry per push: the drain after a wait
   * ends, and leaves the live list and deletes the sockets the corrected
   * stacks do. The links are then in step with the drained stacks again,
   * so `CalledAllRepresents` and `DrainedAgrees` carry the agreement on
   * over any later run of fresh calls and wake.
   */
  lemma LinkedAgrees(cs: seq<Call>, sockets: seq<SocketId>)
    requires PushesFresh(Idle, cs)
    ensures var r := LinkedDrained(LinkedCalledAll(NoLinks, cs), sockets);
      var t := CalledAll(Idle, cs);
      r.Drains? && r.live == Drained(t, sockets).1 && r.deleted == t.removeQueue
      && Represents(r.links, Drained(t, sockets).0)
  {
    assert Represents(NoLinks, Idle);
    WakeAgrees(NoLinks, Idle, cs, sockets);
  }

  /**
   * One round between internal wakes, from any links in step with the
   * corrected stacks (a new thread's, or those a previous drain left): fresh
   * calls and the drain agree, and leave the links in step again.
   */
  lemma WakeAgrees(l: Links, t: Thread, cs: seq<Call>, sockets: seq<SocketId>)
    requires Represents(l, t) && PushesFresh(t, cs)
    ensures var r := LinkedDrained(LinkedCalledAll(l, cs), sockets);
      var t' := CalledAll(t, cs);
      r.Drains? && r.live == Drained(t', sockets).1 && r.deleted == t'.removeQueue
      && Represents(r.links, Drained(t', sockets).0)
  {
    CalledAllRepresents(l, t, cs);
    DrainedAgrees(LinkedCalledAll(l, cs), CalledAll(t, cs), sockets);
  }
}
