/**
 * The reactor of ovsocket/networkthread.cpp: sockets are handed to the
 * network thread through two hand-off stacks, and the `run` loop waits on
 * the internal event plus one event per live socket, then either drains the
 * hand-off stacks, runs one socket's completion check, carries on or stops.
 * Sockets are abstract ids; the outcomes of the waits, and the calls other
 * threads make while a wait blocks, are inputs. The hand-off stacks hold one
 * entry per push, as they are evidently meant to; the source threads both
 * through a single link per socket, which `LinkedStacks` models.
 */
module Networking {
  import opened Common
  import opened Queues

  type SocketId = nat

  /** The return codes of `WSAWaitForMultipleEvents` that `run` tells apart. */
  const WSA_WAIT_EVENT_0: nat := 0
  const WSA_WAIT_IO_COMPLETION: nat := 0xC0
  const WSA_WAIT_TIMEOUT: nat := 0x102
  const WSA_WAIT_FAILED: nat := 0xFFFF_FFFF

  /** An entry of the wait set: the internal event or a socket's event. */
  datatype WaitHandle = Internal | SocketEvent(id: SocketId)

  /** The wait set one iteration builds: the internal event first, then one event per live socket. */
  function WaitSet(sockets: seq<SocketId>): (ev: seq<WaitHandle>)
    ensures |ev| == |sockets| + 1 && ev[0] == Internal
    ensures forall i :: 1 <= i < |ev| ==> ev[i] == SocketEvent(sockets[i - 1])
  {
    [Internal] + seq(|sockets|, i requires 0 <= i < |sockets| => SocketEvent(sockets[i]))
  }

  /** The fields of a `NetworkThread`, plus the effects `run` has on sockets (completion checks and deletions). */
  datatype Thread = Thread(
    running: bool,
    signaled: bool,
    addQueue: seq<SocketId>,
    removeQueue: seq<SocketId>,
    bound: seq<SocketId>,
    dispatched: seq<SocketId>,
    deleted: seq<SocketId>)

  /** A call another thread makes on the network thread. */
  datatype Call = AddSocket(id: SocketId) | RemoveSocket(id: SocketId) | Stop

  /** One iteration's input: the calls made while the wait blocks, then the wait's result. */
  datatype Round = Round(calls: seq<Call>, result: nat)

  /**
   * The effect of one call: `addSocket` binds the socket's disconnect
   * listener to `removeSocket`, pushes it on the add stack and signals;
   * `removeSocket` pushes on the remove stack and signals; `stop` clears the
   * running flag and signals.
   */
  function Called(t: Thread, c: Call): (r: Thread)
    ensures r.signaled && r.dispatched == t.dispatched && r.deleted == t.deleted
  {
    match c
    case AddSocket(id) => t.(bound := t.bound + [id], addQueue := Pushed(t.addQueue, id), signaled := true)
    case RemoveSocket(id) => t.(removeQueue := Pushed(t.removeQueue, id), signaled := true)
    case Stop => t.(running := false, signaled := true)
  }

  /**
   * The effect of a run of calls, in order. The calls only ever add to the
   * two stacks, run no completion check and delete nothing; any `stop`
   * among them leaves the running flag clear, since no call sets it.
   */
  function CalledAll(t: Thread, cs: seq<Call>): (r: Thread)
    ensures r.dispatched == t.dispatched && r.deleted == t.deleted
    ensures cs != [] ==> r.signaled
    ensures forall y :: y in r.addQueue <==> y in t.addQueue || AddSocket(y) in cs
    ensures forall y :: y in r.removeQueue <==> y in t.removeQueue || RemoveSocket(y) in cs
    ensures Stop in cs ==> !r.running
  {
    if cs == [] then t
    else
      assert cs == cs[..|cs| - 1] + [cs[|cs| - 1]];
      Called(CalledAll(t, cs[..|cs| - 1]), cs[|cs| - 1])
  }

  /** `std::remove` followed by `erase`: every occurrence of x dropped, the rest kept in order. */
  function Erase(s: seq<SocketId>, x: SocketId): (r: seq<SocketId>)
    ensures forall y :: y in r <==> y in s && y != x
    ensures |r| <= |s|
  {
    if s == [] then []
    else
      assert s == s[..|s| - 1] + [s[|s| - 1]];
      Erase(s[..|s| - 1], x) + (if s[|s| - 1] == x then [] else [s[|s| - 1]])
  }

  /** Erasing drops every copy of x and keeps every copy of every other socket. */
  lemma {:induction false} EraseCounts(s: seq<SocketId>, x: SocketId)
    ensures multiset(Erase(s, x)) == multiset(s)[x := 0]
  {
    if s != [] {
      var init, last := s[..|s| - 1], s[|s| - 1];
      EraseCounts(init, x);
      assert s == init + [last];
    }
  }

  /** Erasing the sockets of q from s, one after the other. */
  function EraseAll(s: seq<SocketId>, q: seq<SocketId>): seq<SocketId>
  {
    if q == [] then s else Erase(EraseAll(s, q[..|q| - 1]), q[|q| - 1])
  }

  /** Erasing one more socket after a run. */
  lemma EraseAllSnoc(s: seq<SocketId>, q: seq<SocketId>, x: SocketId)
    ensures EraseAll(s, q + [x]) == Erase(EraseAll(s, q), x)
  {
    assert (q + [x])[..|q|] == q;
  }

  /**
   * The internal-event branch: the add stack is popped onto the live list,
   * then each socket popped from the remove stack is erased and deleted.
   */
  function Drained(t: Thread, sockets: seq<SocketId>): (r: (Thread, seq<SocketId>))
    ensures r.0.addQueue == [] && r.0.removeQueue == [] && r.0.deleted == t.deleted + t.removeQueue
    ensures forall y :: y in r.1 <==> (y in sockets || y in t.addQueue) && y !in t.removeQueue
  {
    EraseAllRemoves(sockets + t.addQueue, t.removeQueue);
    (t.(addQueue := [], removeQueue := [], deleted := t.deleted + t.removeQueue),
     EraseAll(sockets + t.addQueue, t.removeQueue))
  }

  /** The sockets a run of calls removes, in call order. */
  function RemovedBy(cs: seq<Call>): seq<SocketId>
  {
    if cs == [] then []
    else RemovedBy(cs[..|cs| - 1]) + (if cs[|cs| - 1].RemoveSocket? then [cs[|cs| - 1].id] else [])
  }

  /** Every `removeSocket` call leaves exactly one more entry for its socket on the remove stack. */
  lemma {:induction false} CalledAllRemoves(t: Thread, cs: seq<Call>)
    ensures multiset(CalledAll(t, cs).removeQueue) == multiset(t.removeQueue) + multiset(RemovedBy(cs))
  {
    if cs != [] {
      var init, c := cs[..|cs| - 1], cs[|cs| - 1];
      CalledAllRemoves(t, init);
      if c.RemoveSocket? {
        assert Pushed(CalledAll(t, init).removeQueue, c.id) == [c.id] + CalledAll(t, init).removeQueue;
      }
    }
  }

  /**
   * At the next internal wake a socket is deleted once for every
   * `removeSocket` call on it, so a socket removed twice is deleted twice.
   */
  lemma DeletesPerRemove(t: Thread, cs: seq<Call>, sockets: seq<SocketId>, x: SocketId)
    ensures multiset(Drained(CalledAll(t, cs), sockets).0.deleted)[x]
      == multiset(t.deleted)[x] + multiset(t.removeQueue)[x] + multiset(RemovedBy(cs))[x]
  {
    CalledAllRemoves(t, cs);
  }

  /** What one wait result does: the new state, the new live list, and whether the loop exits. */
  function Woken(t: Thread, sockets: seq<SocketId>, result: nat): (r: (Thread, seq<SocketId>, bool))
    ensures r.2 <==> result == WSA_WAIT_FAILED
    ensures r.0.running == t.running
    ensures result != WSA_WAIT_EVENT_0 ==>
      r.1 == sockets && r.0.addQueue == t.addQueue && r.0.removeQueue == t.removeQueue
  {
    if result == WSA_WAIT_IO_COMPLETION || result == WSA_WAIT_TIMEOUT then (t, sockets, false)
    else if result == WSA_WAIT_FAILED then (t, sockets, true)
    else if WSA_WAIT_EVENT_0 <= result < WSA_WAIT_EVENT_0 + |sockets| + 1 then
      var index := result - WSA_WAIT_EVENT_0;
      if WaitSet(sockets)[index] == Internal then
        var d := Drained(t.(signaled := false), sockets);
        (d.0, d.1, false)
      else
        (t.(dispatched := t.dispatched + [sockets[index - 1]]), sockets, false)
    else (t, sockets, false)
  }

  /** One iteration of `run`: the calls made during the wait, then the wait's result. */
  function Iteration(t: Thread, sockets: seq<SocketId>, r: Round): (r': (Thread, seq<SocketId>, bool))
    ensures r'.2 <==> r.result == WSA_WAIT_FAILED
    ensures Stop in r.calls ==> !r'.0.running
  {
    Woken(CalledAll(t, r.calls), sockets, r.result)
  }

  /**
   * The `run` loop from state t and live list `sockets`: it stops when the
   * running flag is clear at the top of an iteration, when a wait fails,
   * or when the inputs run out (the next wait blocks for ever).
   */
  function RunFrom(t: Thread, sockets: seq<SocketId>, rounds: seq<Round>): (r: (Thread, seq<SocketId>))
    ensures |t.dispatched| <= |r.0.dispatched| && r.0.dispatched[..|t.dispatched|] == t.dispatched
    decreases |rounds|
  {
    if !t.running || rounds == [] then (t, sockets)
    else
      var (t', sockets', exit) := Iteration(t, sockets, rounds[0]);
      if exit then (t', sockets') else RunFrom(t', sockets', rounds[1..])
  }

  /** Wait index i >= 1 names live socket i - 1, and a wake there runs that socket's check and nothing else. */
  lemma SocketWakeDispatches(t: Thread, sockets: seq<SocketId>, result: nat)
    requires WSA_WAIT_EVENT_0 + 1 <= result < WSA_WAIT_EVENT_0 + |sockets| + 1
    requires result != WSA_WAIT_IO_COMPLETION && result != WSA_WAIT_TIMEOUT && result != WSA_WAIT_FAILED
    ensures WaitSet(sockets)[result - WSA_WAIT_EVENT_0] == SocketEvent(sockets[result - WSA_WAIT_EVENT_0 - 1])
    ensures Woken(t, sockets, result)
      == (t.(dispatched := t.dispatched + [sockets[result - WSA_WAIT_EVENT_0 - 1]]), sockets, false)
  {
    assert WaitSet(sockets)[result - WSA_WAIT_EVENT_0] != Internal;
  }

  /** An I/O-completion or timeout wake changes nothing; a failed wait ends the loop and changes nothing. */
  lemma IdleWakes(t: Thread, sockets: seq<SocketId>)
    ensures Woken(t, sockets, WSA_WAIT_IO_COMPLETION) == (t, sockets, false)
    ensures Woken(t, sockets, WSA_WAIT_TIMEOUT) == (t, sockets, false)
    ensures Woken(t, sockets, WSA_WAIT_FAILED) == (t, sockets, true)
  {
  }

  /** Erasing a run of sockets leaves none of them, and keeps every other socket. */
  lemma {:induction false} EraseAllRemoves(s: seq<SocketId>, q: seq<SocketId>)
    ensures forall y :: y in EraseAll(s, q) <==> y in s && y !in q
  {
    if q != [] {
      EraseAllRemoves(s, q[..|q| - 1]);
      assert q == q[..|q| - 1] + [q[|q| - 1]];
    }
  }

  /**
   * The internal wake empties both stacks, adds before it removes: a socket
   * on the remove stack is off the live list afterwards even when it was
   * added in the same batch, and every other added socket is on it.
   */
  lemma InternalWakeDrains(t: Thread, sockets: seq<SocketId>)
    ensures var (t', sockets', exit) := Woken(t, sockets, WSA_WAIT_EVENT_0);
      && !exit && !t'.signaled && t'.addQueue == [] && t'.removeQueue == []
      && t'.deleted == t.deleted + t.removeQueue && t'.dispatched == t.dispatched
      && (forall y :: y in sockets' <==> (y in sockets || y in t.addQueue) && y !in t.removeQueue)
  {
    EraseAllRemoves(sockets + t.addQueue, t.removeQueue);
  }

  /** A wake either leaves the checks run so far alone or runs the check of one live socket, keeping the live list. */
  lemma DispatchesLive(t: Thread, sockets: seq<SocketId>, result: nat)
    ensures var (t', sockets', _) := Woken(t, sockets, result);
      t'.dispatched == t.dispatched
      || (sockets' == sockets && |t'.dispatched| == |t.dispatched| + 1
          && t'.dispatched[..|t.dispatched|] == t.dispatched && t'.dispatched[|t.dispatched|] in sockets)
  {
  }

  /**
   * Some round j from i on carries a `removeSocket(x)` call, and no round
   * from i up to but not including j ends in an internal wake: x reaches
   * the remove stack before the add stack is next drained.
   */
  ghost predicate RemovedBeforeDrain(rounds: seq<Round>, i: nat, x: SocketId)
  {
    exists j :: i <= j < |rounds| && RemoveSocket(x) in rounds[j].calls
      && forall k :: i <= k < j ==> rounds[k].result != WSA_WAIT_EVENT_0
  }

  /** Every `addSocket(x)` call in the script is undone by a `removeSocket(x)` before the next internal wake. */
  ghost predicate AddsRemovedBeforeDrain(rounds: seq<Round>, x: SocketId)
  {
    forall i :: 0 <= i < |rounds| && AddSocket(x) in rounds[i].calls ==> RemovedBeforeDrain(rounds, i, x)
  }

  /** Dropping the first round keeps a removal that lies in a later round. */
  lemma RemovedBeforeDrainShift(rounds: seq<Round>, i: nat, x: SocketId)
    requires RemovedBeforeDrain(rounds, i + 1, x)
    ensures RemovedBeforeDrain(rounds[1..], i, x)
  {
    var j :| i + 1 <= j < |rounds| && RemoveSocket(x) in rounds[j].calls
      && forall k :: i + 1 <= k < j ==> rounds[k].result != WSA_WAIT_EVENT_0;
    assert rounds[1..][j - 1] == rounds[j];
    assert forall k :: i <= k < j - 1 ==> rounds[1..][k] == rounds[k + 1];
  }

  /** A removal still ahead, when the first round neither removes x nor drains, is ahead of the remaining rounds. */
  lemma RemovedBeforeDrainLater(rounds: seq<Round>, x: SocketId)
    requires RemovedBeforeDrain(rounds, 0, x) && RemoveSocket(x) !in rounds[0].calls
    ensures RemovedBeforeDrain(rounds, 1, x)
  {
    var j :| 0 <= j < |rounds| && RemoveSocket(x) in rounds[j].calls
      && forall k :: 0 <= k < j ==> rounds[k].result != WSA_WAIT_EVENT_0;
    assert j != 0;
  }

  /** Two extensions, neither of which adds x, together add no x. */
  lemma ExtensionsAvoid(a: seq<SocketId>, b: seq<SocketId>, c: seq<SocketId>, x: SocketId)
    requires |a| <= |b| && b[..|a|] == a && x !in b[|a|..]
    requires |b| <= |c| && c[..|b|] == b && x !in c[|b|..]
    ensures x !in c[|a|..]
  {
    assert c[|a|..] == b[|a|..] + c[|b|..];
  }

  /**
   * A socket that is not live, and every one of whose `addSocket` calls is
   * followed by its `removeSocket` before the next internal wake (a pending
   * add on the stack counts as such a call), is never put on the live list,
   * and the loop never runs its check, however many rounds it runs. The
   * adds are drained before the removes, so the remove always wins.
   */
  lemma {:induction false} AddedThenRemovedNeverDispatched(t: Thread, sockets: seq<SocketId>, rounds: seq<Round>, x: SocketId)
    requires x !in sockets && AddsRemovedBeforeDrain(rounds, x)
    requires x in t.addQueue && x !in t.removeQueue ==> RemovedBeforeDrain(rounds, 0, x)
    ensures var (t', sockets') := RunFrom(t, sockets, rounds);
      x !in sockets' && x !in t'.dispatched[|t.dispatched|..]
    decreases |rounds|
  {
    if t.running && rounds != [] {
      var rd := rounds[0];
      var t1 := CalledAll(t, rd.calls);
      var (t2, sockets2, exit) := Woken(t1, sockets, rd.result);
      assert AddSocket(x) in rd.calls ==> RemovedBeforeDrain(rounds, 0, x);
      if rd.result == WSA_WAIT_EVENT_0 {
        assert x in t1.addQueue ==> x in t1.removeQueue;
        assert x !in sockets2;
        assert t2.dispatched == t.dispatched;
      } else {
        DispatchesLive(t1, sockets, rd.result);
        assert x !in t2.dispatched[|t.dispatched|..];
        if x in t1.addQueue && x !in t1.removeQueue {
          RemovedBeforeDrainLater(rounds, x);
        }
      }
      if !exit {
        var rest := rounds[1..];
        forall i | 0 <= i < |rest| && AddSocket(x) in rest[i].calls
          ensures RemovedBeforeDrain(rest, i, x)
        {
          assert rest[i] == rounds[i + 1];
          RemovedBeforeDrainShift(rounds, i, x);
        }
        if x in t2.addQueue && x !in t2.removeQueue {
          RemovedBeforeDrainShift(rounds, 0, x);
        }
        AddedThenRemovedNeverDispatched(t2, sockets2, rest, x);
        ExtensionsAvoid(t.dispatched, t2.dispatched, RunFrom(t2, sockets2, rest).0.dispatched, x);
      }
    }
  }

  /** With the running flag clear the loop does not start an iteration. */
  lemma StoppedRunsNothing(t: Thread, sockets: seq<SocketId>, rounds: seq<Round>)
    requires !t.running
    ensures RunFrom(t, sockets, rounds) == (t, sockets)
  {
  }

  /** `stop` during a wait lets that iteration finish and ends the loop at the next check. */
  lemma StopEndsLoop(t: Thread, sockets: seq<SocketId>, rounds: seq<Round>)
    requires t.running && rounds != [] && Stop in rounds[0].calls
    ensures var (t', sockets', _) := Iteration(t, sockets, rounds[0]);
      RunFrom(t, sockets, rounds) == (t', sockets') && !t'.running
  {
  }

  /** The `NetworkThread` class: its fields and the effects of `run` on the sockets it serves. */
  class NetworkThread {
    /** `mRunning`. */
    var running: bool
    /** Whether `mInternalEvent` is set. */
    var signaled: bool
    /** The contents of `mSocketAddQueue` and `mSocketRemoveQueue`, head first. */
    var addQueue: seq<SocketId>
    var removeQueue: seq<SocketId>
    /** The sockets whose disconnect listeners `addSocket` has bound to `removeSocket`, in order. */
    var bound: seq<SocketId>
    /** The sockets whose `checkRequests` the loop has run, in order. */
    var dispatched: seq<SocketId>
    /** The sockets the loop has deleted, in order. */
    var deleted: seq<SocketId>

    ghost function Fields(): Thread
      reads this
    {
      Thread(running, signaled, addQueue, removeQueue, bound, dispatched, deleted)
    }

    /**
     * `NetworkThread()`: creates the internal event, unset. The source
     * leaves `mRunning` uninitialised; here it starts false.
     */
    constructor ()
      ensures Fields() == Thread(false, false, [], [], [], [], [])
    {
      running, signaled := false, false;
      addQueue, removeQueue := [], [];
      bound, dispatched, deleted := [], [], [];
    }

    /** `addSocket(socket)`: always succeeds. */
    method AddSocket(id: SocketId) returns (ok: bool)
      modifies this
      ensures ok && Fields() == Called(old(Fields()), Call.AddSocket(id))
      ensures addQueue == [id] + old(addQueue) && signaled
    {
      bound := bound + [id];
      addQueue := Pushed(addQueue, id);
      signaled := true;
      ok := true;
    }

    /** `removeSocket(socket)`: only queues the socket; the live list is the loop's to change. */
    method RemoveSocket(id: SocketId)
      modifies this
      ensures Fields() == Called(old(Fields()), Call.RemoveSocket(id))
      ensures removeQueue == [id] + old(removeQueue) && signaled
    {
      removeQueue := Pushed(removeQueue, id);
      signaled := true;
    }

    /** `stop()`: clears the running flag and wakes the loop. */
    method Stop()
      modifies this
      ensures Fields() == Called(old(Fields()), Call.Stop)
      ensures !running && signaled
    {
      running := false;
      signaled := true;
    }

    /** The calls other threads make while one wait blocks, in order. */
    method OtherThreads(cs: seq<Call>)
      modifies this
      ensures Fields() == CalledAll(old(Fields()), cs)
    {
      for i := 0 to |cs|
        invariant Fields() == CalledAll(old(Fields()), cs[..i])
      {
        assert cs[..i + 1][..i] == cs[..i];
        match cs[i]
        case AddSocket(id) => var _ := AddSocket(id);
        case RemoveSocket(id) => RemoveSocket(id);
        case Stop => Stop();
      }
      assert cs[..|cs|] == cs;
    }

    /** `start()`: sets the running flag and runs the loop on the calling thread; the loop's result is dropped. */
    method Start(rounds: seq<Round>)
      modifies this
      ensures Fields() == RunFrom(old(Fields()).(running := true), [], rounds).0
    {
      running := true;
      var _ := Run(rounds);
    }

    /** `run()`: the reactor loop, from an empty live list. It always returns false. */
    method Run(rounds: seq<Round>) returns (r: bool)
      modifies this
      ensures !r && Fields() == RunFrom(old(Fields()), [], rounds).0
    {
      var sockets: seq<SocketId> := [];
      var i := 0;
      while running && i < |rounds|
        invariant i <= |rounds|
        invariant RunFrom(Fields(), sockets, rounds[i..]) == RunFrom(old(Fields()), [], rounds)
        decreases |rounds| - i
      {
        assert rounds[i..][1..] == rounds[i + 1..];
        ghost var t0, s0 := Fields(), sockets;
        var events := BuildWaitSet(sockets);
        OtherThreads(rounds[i].calls);
        var result := rounds[i].result;
        i := i + 1;
        if result == WSA_WAIT_IO_COMPLETION {
          continue;
        }
        if result == WSA_WAIT_TIMEOUT {
          continue;
        }
        if result == WSA_WAIT_FAILED {
          break;
        }
        if WSA_WAIT_EVENT_0 <= result < WSA_WAIT_EVENT_0 + |events| {
          var index := result - WSA_WAIT_EVENT_0;
          var event := events[index];
          if event == Internal {
            signaled := false;
            sockets := DrainAdds(sockets);
            sockets := DrainRemoves(sockets);
          } else {
            var socket := sockets[index - 1];
            dispatched := dispatched + [socket];
          }
        }
        assert (Fields(), sockets, false) == Iteration(t0, s0, rounds[i - 1]);
      }
      r := false;
    }

    /** The wait set of one iteration, built entry by entry. */
    method BuildWaitSet(sockets: seq<SocketId>) returns (events: seq<WaitHandle>)
      ensures events == WaitSet(sockets)
    {
      events := [Internal];
      for i := 0 to |sockets|
        invariant events == [Internal] + seq(i, j requires 0 <= j < i => SocketEvent(sockets[j]))
      {
        events := events + [SocketEvent(sockets[i])];
      }
    }

    /** The first inner loop of the internal-event branch: pops every added socket onto the end of the live list. */
    method DrainAdds(sockets: seq<SocketId>) returns (live: seq<SocketId>)
      modifies this`addQueue
      ensures addQueue == [] && live == sockets + old(addQueue)
    {
      live := sockets;
      while addQueue != []
        invariant live + addQueue == sockets + old(addQueue)
        decreases |addQueue|
      {
        var popped := Popped(addQueue);
        assert popped == (Some(addQueue[0]), addQueue[1..]);
        addQueue := popped.1;
        live := live + [popped.0.value];
      }
    }

    /** The second inner loop: pops every removed socket, erases it from the live list and deletes it. */
    method DrainRemoves(sockets: seq<SocketId>) returns (live: seq<SocketId>)
      modifies this`removeQueue, this`deleted
      ensures removeQueue == [] && deleted == old(deleted) + old(removeQueue)
      ensures live == EraseAll(sockets, old(removeQueue))
    {
      live := sockets;
      ghost var done: seq<SocketId> := [];
      while removeQueue != []
        invariant done + removeQueue == old(removeQueue)
        invariant deleted == old(deleted) + done && live == EraseAll(sockets, done)
        decreases |removeQueue|
      {
        var popped := Popped(removeQueue);
        assert popped == (Some(removeQueue[0]), removeQueue[1..]);
        var socket := popped.0.value;
        removeQueue := popped.1;
        live := Erase(live, socket);
        EraseAllSnoc(sockets, done, socket);
        done := done + [socket];
        deleted := deleted + [socket];
      }
      assert done == old(removeQueue);
    }
  }
}
