/**
 * The `Socket` class of ovsocket/socket.cpp: request issuing, the listener
 * lists, the per-socket completion check and teardown. Everything the OS
 * decides arrives as an input: whether an issue was accepted, the network
 * event flags and error codes, and each request's completion status.
 * Listener invocations are appended to an event log.
 */
module Sockets {
  import opened Common
  import opened Queues
  import opened Pools
  import opened Requests

  /** The identity of a registered callback. */
  type ListenerId = nat

  /** One listener invocation, with the arguments it received besides the socket. */
  datatype Event =
    | ErrorCalled(listener: ListenerId, code: int)
    | AcceptCalled(listener: ListenerId)
    | ConnectCalled(listener: ListenerId)
    | DisconnectCalled(listener: ListenerId)
    | ReceiveCalled(listener: ListenerId, offset: nat, count: nat)
    | SendCalled(listener: ListenerId, offset: nat, count: nat)

  /** The calls made by running every listener of a list, in insertion order. */
  function Calls(ls: seq<ListenerId>, mk: ListenerId -> Event): (r: seq<Event>)
    ensures |r| == |ls|
    ensures forall i :: 0 <= i < |ls| ==> r[i] == mk(ls[i])
  {
    seq(|ls|, i requires 0 <= i < |ls| => mk(ls[i]))
  }

  /** The calls `onError(code)` makes. */
  function ErrorCalls(ls: seq<ListenerId>, code: int): (e: seq<Event>)
    ensures |e| == |ls| && forall i :: 0 <= i < |ls| ==> e[i] == ErrorCalled(ls[i], code)
  {
    Calls(ls, (l: ListenerId) => ErrorCalled(l, code))
  }

  /** The calls `onConnected` makes. */
  function ConnectCalls(ls: seq<ListenerId>): (e: seq<Event>)
    ensures |e| == |ls| && forall i :: 0 <= i < |ls| ==> e[i] == ConnectCalled(ls[i])
  {
    Calls(ls, (l: ListenerId) => ConnectCalled(l))
  }

  /** The calls `onAccept` makes. */
  function AcceptCalls(ls: seq<ListenerId>): (e: seq<Event>)
    ensures |e| == |ls| && forall i :: 0 <= i < |ls| ==> e[i] == AcceptCalled(ls[i])
  {
    Calls(ls, (l: ListenerId) => AcceptCalled(l))
  }

  /** The calls `onDisconnected` makes. */
  function DisconnectCalls(ls: seq<ListenerId>): (e: seq<Event>)
    ensures |e| == |ls| && forall i :: 0 <= i < |ls| ==> e[i] == DisconnectCalled(ls[i])
  {
    Calls(ls, (l: ListenerId) => DisconnectCalled(l))
  }

  /** Neither a send nor a receive listener. */
  predicate NoTransferCalls(log: seq<Event>)
  {
    forall e :: e in log ==> !e.SendCalled? && !e.ReceiveCalled?
  }

  /** What `WSAEnumNetworkEvents` reports: the flags and their error codes. */
  datatype NetworkEvents = NetworkEvents(
    connect: bool, connectError: int,
    accept: bool, acceptError: int,
    close: bool)

  /** The listener calls for the connect flag: errors go to the error listeners. */
  function ConnectPart(ev: NetworkEvents, errorLs: seq<ListenerId>, connectLs: seq<ListenerId>): seq<Event>
  {
    if !ev.connect then [] else if ev.connectError != 0 then ErrorCalls(errorLs, ev.connectError) else ConnectCalls(connectLs)
  }

  /** The listener calls for the accept flag. */
  function AcceptPart(ev: NetworkEvents, errorLs: seq<ListenerId>, acceptLs: seq<ListenerId>): seq<Event>
  {
    if !ev.accept then [] else if ev.acceptError != 0 then ErrorCalls(errorLs, ev.acceptError) else AcceptCalls(acceptLs)
  }

  /** The listener calls for the close flag. */
  function ClosePart(ev: NetworkEvents, disconnectLs: seq<ListenerId>): seq<Event>
  {
    if ev.close then DisconnectCalls(disconnectLs) else []
  }

  /**
   * The listener calls of the network-event part of `checkRequests`: connect
   * (error or success), then accept (error or success), then close. None of
   * them is a send or receive notification.
   */
  function EventCalls(ev: NetworkEvents, errorLs: seq<ListenerId>, connectLs: seq<ListenerId>,
                      acceptLs: seq<ListenerId>, disconnectLs: seq<ListenerId>): (e: seq<Event>)
    ensures NoTransferCalls(e)
  {
    ConnectPart(ev, errorLs, connectLs) + AcceptPart(ev, errorLs, acceptLs) + ClosePart(ev, disconnectLs)
  }

  /** A connect or accept event that carries an error code. */
  predicate Refused(ev: NetworkEvents)
  {
    (ev.connect && ev.connectError != 0) || (ev.accept && ev.acceptError != 0)
  }

  /** Appending two runs of calls one after the other appends their concatenation. */
  lemma LogAppend(log: seq<Event>, a: seq<Event>, b: seq<Event>)
    ensures log + a + b == log + (a + b)
  {
  }

  /** Appending three runs of calls one after the other appends their concatenation. */
  lemma CallsAssociate(log: seq<Event>, a: seq<Event>, b: seq<Event>, c: seq<Event>)
    ensures log + a + b + c == log + (a + b + c)
  {
  }

  /** The flags that make the completion check tear the socket down before polling. */
  predicate TearsDown(ev: NetworkEvents)
  {
    Refused(ev) || ev.close
  }

  /**
   * What `WSAGetOverlappedResult` reports for one request: not done, with the
   * error code it sets, or done with a byte count.
   */
  datatype Poll = NotDone(error: int) | Done(bytes: nat)

  /** The error code of an operation that is still in progress. */
  const WSA_IO_INCOMPLETE: int := 996

  /** A poll result that `checkRequests` treats as a failure. */
  predicate Fails(p: Poll)
  {
    p.NotDone? && p.error != WSA_IO_INCOMPLETE
  }

  /** The completion bytes fit the requests' descriptors, as the OS guarantees. */
  predicate CompletionsFit(hs: seq<nat>, vals: seq<Request>, poll: nat -> Poll)
  {
    forall i :: 0 <= i < |hs| ==>
      hs[i] < |vals| && WellFormed(vals[hs[i]]) && (poll(hs[i]).Done? ==> poll(hs[i]).bytes <= vals[hs[i]].buffer.len)
  }

  /** The payload after `checkRequests` has looked at one request's poll result. */
  function AfterPoll(r: Request, p: Poll): (r': Request)
    requires WellFormed(r) && (p.Done? ==> p.bytes <= r.buffer.len)
    ensures WellFormed(r') && r'.data == r.data
    ensures p.NotDone? || (r.kind != Send && r.kind != ReceiveFill && r.kind != ReceivePartial) ==> r' == r
  {
    match p
    case NotDone(_) => r
    case Done(bytes) =>
      match r.kind
      case Send => SendCompletion(r, bytes)
      case ReceiveFill => ReceiveCompletion(r, bytes)
      case ReceivePartial => ReceiveCompletion(r, bytes)
      case _ => r
  }

  /** The send or receive listener calls a poll result causes. */
  function PollCalls(r: Request, p: Poll, sendLs: seq<ListenerId>, recvLs: seq<ListenerId>): seq<Event>
    requires WellFormed(r) && (p.Done? ==> p.bytes <= r.buffer.len)
  {
    var r' := AfterPoll(r, p);
    if p.NotDone? || r'.kind != Finished then []
    else if r.kind == Send then SendCalls(sendLs, r')
    else if r.kind == ReceiveFill || r.kind == ReceivePartial then ReceiveCalls(recvLs, r')
    else []
  }

  /** The calls `onSend` makes for a finished request: every send listener gets its window. */
  function SendCalls(ls: seq<ListenerId>, r: Request): (e: seq<Event>)
    ensures |e| == |ls| && forall i :: 0 <= i < |ls| ==> e[i] == SendCalled(ls[i], r.buffer.pos, r.transferred)
  {
    Calls(ls, (l: ListenerId) => SendCalled(l, r.buffer.pos, r.transferred))
  }

  /** The calls `onReceive` makes for a finished request. */
  function ReceiveCalls(ls: seq<ListenerId>, r: Request): (e: seq<Event>)
    ensures |e| == |ls| && forall i :: 0 <= i < |ls| ==> e[i] == ReceiveCalled(ls[i], r.buffer.pos, r.transferred)
  {
    Calls(ls, (l: ListenerId) => ReceiveCalled(l, r.buffer.pos, r.transferred))
  }

  /** The listener calls of polling the requests hs in order, none of them failing. */
  function PollLog(hs: seq<nat>, vals: seq<Request>, poll: nat -> Poll,
                   sendLs: seq<ListenerId>, recvLs: seq<ListenerId>): seq<Event>
    requires CompletionsFit(hs, vals, poll)
  {
    if hs == [] then []
    else
      var last := hs[|hs| - 1];
      PollLog(hs[..|hs| - 1], vals, poll, sendLs, recvLs) + PollCalls(vals[last], poll(last), sendLs, recvLs)
  }

  /**
   * The payloads after polling the requests hs in order, none of them
   * failing: each polled slot holds its poll's outcome, every other slot is
   * as it was.
   */
  function PolledValues(hs: seq<nat>, vals: seq<Request>, poll: nat -> Poll): (r: seq<Request>)
    requires CompletionsFit(hs, vals, poll)
    ensures |r| == |vals|
    ensures forall x :: 0 <= x < |vals| && x !in hs ==> r[x] == vals[x]
    ensures forall x :: x in hs ==> WellFormed(r[x])
  {
    if hs == [] then vals
    else
      var last := hs[|hs| - 1];
      PolledValues(hs[..|hs| - 1], vals, poll)[last := AfterPoll(vals[last], poll(last))]
  }

  /**
   * Polling one more request of a duplicate-free list: it has not been
   * touched yet, and it extends the payloads and the log by its own outcome.
   */
  lemma PollStep(hs: seq<nat>, i: nat, vals: seq<Request>, poll: nat -> Poll,
                 sendLs: seq<ListenerId>, recvLs: seq<ListenerId>)
    requires CompletionsFit(hs, vals, poll) && Distinct(hs) && i < |hs|
    ensures CompletionsFit(hs[..i], vals, poll) && CompletionsFit(hs[..i + 1], vals, poll)
    ensures hs[i] < |vals| && PolledValues(hs[..i], vals, poll)[hs[i]] == vals[hs[i]]
    ensures PolledValues(hs[..i + 1], vals, poll)
      == PolledValues(hs[..i], vals, poll)[hs[i] := AfterPoll(vals[hs[i]], poll(hs[i]))]
    ensures PollLog(hs[..i + 1], vals, poll, sendLs, recvLs)
      == PollLog(hs[..i], vals, poll, sendLs, recvLs) + PollCalls(vals[hs[i]], poll(hs[i]), sendLs, recvLs)
  {
    assert hs[..i + 1][..i] == hs[..i];
  }

  /** The position of the first request whose poll fails, or |hs| when none does. */
  function FirstFailure(hs: seq<nat>, poll: nat -> Poll): (k: nat)
    ensures k <= |hs|
    ensures forall j :: 0 <= j < k ==> !Fails(poll(hs[j]))
    ensures k < |hs| ==> Fails(poll(hs[k]))
  {
    if hs == [] then 0
    else if Fails(poll(hs[0])) then 0
    else 1 + FirstFailure(hs[1..], poll)
  }

  /** Walking hs in order from below its first failure, position i is the first failure exactly when its poll fails. */
  lemma FailureAt(hs: seq<nat>, poll: nat -> Poll, i: nat)
    requires i < |hs| && i <= FirstFailure(hs, poll)
    ensures Fails(poll(hs[i])) <==> i == FirstFailure(hs, poll)
    ensures !Fails(poll(hs[i])) ==> i + 1 <= FirstFailure(hs, poll)
  {
  }

  /** A prefix of requests whose completions fit still fits. */
  lemma PollPrefixFits(hs: seq<nat>, vals: seq<Request>, poll: nat -> Poll, k: nat)
    requires CompletionsFit(hs, vals, poll) && k <= |hs|
    ensures CompletionsFit(hs[..k], vals, poll)
  {
  }

  /** Slot h exists and holds a finished request. */
  predicate IsFinished(vals: seq<Request>, h: nat)
  {
    h < |vals| && vals[h].kind == Finished
  }

  /** The requests of hs that are not finished, in their order. */
  function Unfinished(hs: seq<nat>, vals: seq<Request>): seq<nat>
  {
    if hs == [] then []
    else
      var last := hs[|hs| - 1];
      Unfinished(hs[..|hs| - 1], vals) + (if IsFinished(vals, last) then [] else [last])
  }

  /** The requests of hs that are finished, in their order. */
  function FinishedOf(hs: seq<nat>, vals: seq<Request>): seq<nat>
  {
    if hs == [] then []
    else
      var last := hs[|hs| - 1];
      FinishedOf(hs[..|hs| - 1], vals) + (if IsFinished(vals, last) then [last] else [])
  }

  /** No handle is on both lists. */
  predicate Apart(a: seq<nat>, b: seq<nat>)
  {
    forall h :: h in a ==> h !in b
  }

  /** None of the requests has finished. */
  predicate Live(hs: seq<nat>, vals: seq<Request>)
  {
    forall h :: h in hs ==> h < |vals| && vals[h].kind != Finished
  }

  /** The unfinished requests of hs are live, and are exactly the members of hs that have not finished. */
  lemma {:induction false} UnfinishedLive(hs: seq<nat>, vals: seq<Request>)
    requires forall i :: 0 <= i < |hs| ==> hs[i] < |vals|
    ensures Live(Unfinished(hs, vals), vals)
    ensures forall h :: h in Unfinished(hs, vals) <==> h in hs && !IsFinished(vals, h)
    ensures forall h :: h in FinishedOf(hs, vals) <==> h in hs && IsFinished(vals, h)
  {
    if hs != [] {
      var init, last := hs[..|hs| - 1], hs[|hs| - 1];
      UnfinishedLive(init, vals);
      assert hs == init + [last];
    }
  }

  /** Splitting hs into its unfinished and finished requests loses and adds nothing. */
  lemma {:induction false} UnfinishedPartition(hs: seq<nat>, vals: seq<Request>)
    ensures multiset(Unfinished(hs, vals)) + multiset(FinishedOf(hs, vals)) == multiset(hs)
  {
    if hs != [] {
      var init, last := hs[..|hs| - 1], hs[|hs| - 1];
      UnfinishedPartition(init, vals);
      assert hs == init + [last];
    }
  }

  /**
   * One step of the erase loop of `checkRequests`, on values: with the first
   * j requests sorted out, the loop's position points at request j, and
   * erasing it (when finished) or stepping over it (otherwise) sorts out
   * request j too.
   */
  lemma ReclaimStep(hs: seq<nat>, j: nat, vals: seq<Request>, free: seq<nat>)
    requires j < |hs|
    ensures var u, s := Unfinished(hs[..j], vals), Unfinished(hs[..j], vals) + hs[j..];
      && |u| < |s| && s[|u|] == hs[j]
      && (IsFinished(vals, hs[j]) ==>
            && s[..|u|] + s[|u| + 1..] == Unfinished(hs[..j + 1], vals) + hs[j + 1..]
            && |Unfinished(hs[..j + 1], vals)| == |u|
            && PushAll(free, FinishedOf(hs[..j + 1], vals)) == Pushed(PushAll(free, FinishedOf(hs[..j], vals)), hs[j]))
      && (!IsFinished(vals, hs[j]) ==>
            && s == Unfinished(hs[..j + 1], vals) + hs[j + 1..]
            && |Unfinished(hs[..j + 1], vals)| == |u| + 1
            && FinishedOf(hs[..j + 1], vals) == FinishedOf(hs[..j], vals))
  {
    var u := Unfinished(hs[..j], vals);
    assert hs[..j + 1][..j] == hs[..j];
    assert hs[j..] == [hs[j]] + hs[j + 1..];
    if IsFinished(vals, hs[j]) {
      var s := u + hs[j..];
      assert s[..|u|] == u;
      assert s[|u| + 1..] == hs[j + 1..];
      PushAllSnoc(free, FinishedOf(hs[..j], vals), hs[j]);
    }
  }

  /**
   * The completion check loses no handle: freeing the finished requests
   * and keeping the unfinished ones accounts for every request exactly once.
   */
  lemma ReclaimConserves(free: seq<nat>, hs: seq<nat>, vals: seq<Request>)
    ensures multiset(PushAll(free, FinishedOf(hs, vals))) + multiset(Unfinished(hs, vals))
      == multiset(free) + multiset(hs)
  {
    PushAllMultiset(free, FinishedOf(hs, vals));
    UnfinishedPartition(hs, vals);
  }

  /** Before the erase loop's first turn nothing has been sorted out. */
  lemma ReclaimStart(hs: seq<nat>, vals: seq<Request>, free: seq<nat>)
    ensures Unfinished(hs[..0], vals) == [] && FinishedOf(hs[..0], vals) == []
    ensures PushAll(free, []) == free && [] + hs[0..] == hs
  {
    assert hs[..0] == [] && hs[0..] == hs;
  }

  /** Handles a socket may hold: lent-out slots (not on the free list) whose payloads are well formed. */
  predicate Held(hs: seq<nat>, free: seq<nat>, vals: seq<Request>)
  {
    forall h :: h in hs ==> h < |vals| && h !in free && WellFormed(vals[h])
  }

  /**
   * Lending out the head of the free list and writing a well-formed payload
   * into it keeps every held handle held, and the new handle is held too.
   */
  lemma LendKeepsHeld(hs: seq<nat>, free: seq<nat>, vals: seq<Request>, v: Request)
    requires Held(hs, free, vals) && FreeListFits(free, |vals|) && free != [] && WellFormed(v)
    ensures free[0] !in hs && free[0] < |vals|
    ensures Held(hs, free[1..], vals[free[0] := v])
    ensures Held(Pushed(hs, free[0]), free[1..], vals[free[0] := v])
    ensures Held(hs, free, vals[free[0] := v])
  {
    assert free[0] in free;
    DistinctTail(free);
    forall h | h in hs ensures h in free[1..] ==> h in free {
    }
  }

  /** Moving the head of the queue onto the end of the tracked list keeps both lists apart, duplicate-free and held. */
  lemma MoveHeadKeepsHeld(a: seq<nat>, b: seq<nat>, free: seq<nat>, vals: seq<Request>)
    requires Distinct(a) && Distinct(b) && Apart(a, b) && b != []
    requires Held(a, free, vals) && Held(b, free, vals)
    ensures Distinct(a + [b[0]]) && Distinct(b[1..]) && Apart(a + [b[0]], b[1..])
    ensures Held(a + [b[0]], free, vals) && Held(b[1..], free, vals)
  {
    assert b[0] in b;
    DistinctTail(b);
    var a' := a + [b[0]];
    forall i, j | 0 <= i < j < |a'| ensures a'[i] != a'[j] {
      if j == |a| {
        assert a'[i] in a;
      }
    }
  }

  /** Erasing the request at position i and returning it to the free list keeps everything else held. */
  lemma EraseKeepsHeld(rs: seq<nat>, i: nat, queued: seq<nat>, free: seq<nat>, vals: seq<Request>)
    requires Distinct(rs) && Apart(rs, queued) && i < |rs|
    requires Held(rs, free, vals) && Held(queued, free, vals)
    ensures rs[i] < |vals| && rs[i] !in free
    ensures Distinct(rs[..i] + rs[i + 1..]) && Apart(rs[..i] + rs[i + 1..], queued)
    ensures Held(rs[..i] + rs[i + 1..], Pushed(free, rs[i]), vals)
    ensures Held(queued, Pushed(free, rs[i]), vals)
  {
    var h := rs[i];
    var rest := rs[..i] + rs[i + 1..];
    assert h in rs;
    assert forall k :: 0 <= k < |rest| ==> rest[k] == if k < i then rs[k] else rs[k + 1];
    forall x | x in rest ensures x in rs && x != h {
      var k :| 0 <= k < |rest| && rest[k] == x;
    }
    forall k, l | 0 <= k < l < |rest| ensures rest[k] != rest[l] {
    }
  }

  /** Returning the next handle of a run keeps the rest of the run held. */
  lemma ReturnNextKeepsHeld(rs: seq<nat>, i: nat, free: seq<nat>, vals: seq<Request>)
    requires Distinct(rs) && i < |rs| && Held(rs[i..], free, vals)
    ensures rs[i] < |vals| && rs[i] !in free
    ensures Held(rs[i + 1..], Pushed(free, rs[i]), vals)
  {
    assert rs[i..] == [rs[i]] + rs[i + 1..];
    assert rs[i] in rs[i..];
    DistinctSuffix(rs, i);
    assert Pushed(free, rs[i]) == [rs[i]] + free;
    forall x | x in rs[i + 1..]
      ensures x < |vals| && x !in Pushed(free, rs[i]) && WellFormed(vals[x])
    {
      assert x in rs[i..] && x != rs[i];
    }
  }

  /** The handle at i does not reappear after it in a list without duplicates. */
  lemma DistinctSuffix(s: seq<nat>, i: nat)
    requires Distinct(s) && i < |s|
    ensures s[i] !in s[i + 1..]
  {
  }

  /** Rewriting a held slot with a well-formed payload keeps every held handle held. */
  lemma RewriteKeepsHeld(hs: seq<nat>, free: seq<nat>, vals: seq<Request>, h: nat, v: Request)
    requires Held(hs, free, vals) && h < |vals| && WellFormed(v)
    ensures Held(hs, free, vals[h := v])
  {
  }

  /** Returning a handle nobody holds to the free list keeps every held handle held. */
  lemma ReturnKeepsHeld(hs: seq<nat>, free: seq<nat>, vals: seq<Request>, h: nat)
    requires Held(hs, free, vals) && h !in hs
    ensures Held(hs, Pushed(free, h), vals)
  {
  }

  /** One step of returning a run of handles: the next handle is held, and returning it keeps the rest and `keep` held. */
  lemma ReleaseStep(rs: seq<nat>, i: nat, free0: seq<nat>, free: seq<nat>, keep: seq<nat>, vals: seq<Request>)
    requires Distinct(rs) && i < |rs| && free == PushAll(free0, rs[..i])
    requires Held(rs[i..], free, vals) && Held(keep, free, vals) && forall h :: h in rs ==> h !in keep
    ensures rs[i] < |vals| && rs[i] !in free
    ensures Pushed(free, rs[i]) == PushAll(free0, rs[..i + 1])
    ensures Held(rs[i + 1..], Pushed(free, rs[i]), vals) && Held(keep, Pushed(free, rs[i]), vals)
  {
    ReturnNextKeepsHeld(rs, i, free, vals);
    ReturnKeepsHeld(keep, free, vals, rs[i]);
    assert rs[..i + 1] == rs[..i] + [rs[i]];
    PushAllSnoc(free0, rs[..i], rs[i]);
  }

  /** The number of slots of the process-wide request pool. */
  const REQUEST_POOL_SIZE: nat := 32

  /**
   * The process-wide `requestPool`: 32 fresh slots, all free, each holding
   * a default `Request` (zeroed OS context and descriptor, type `Invalid`,
   * nothing transferred, no data).
   */
  method NewRequestPool() returns (p: LocklessPool<Request>)
    ensures fresh(p) && p.Valid() && |p.memory| == REQUEST_POOL_SIZE
    ensures p.FreeList() == Reversed(RangeSeq(REQUEST_POOL_SIZE))
    ensures forall h :: 0 <= h < |p.memory| ==>
      && p.Values()[h].kind == Invalid && p.Values()[h].transferred == 0
      && p.Values()[h].overlapped == Zeroed && p.Values()[h].buffer == WsaBuf(0, 0)
      && p.Values()[h].data == []
  {
    p := new LocklessPool(REQUEST_POOL_SIZE, NewRequest());
  }

  /** `Socket`. */
  class Socket {
    /** The request pool (a process-wide pool in the source), passed in. */
    const pool: LocklessPool<Request>
    /** `mConnected`. */
    var connected: bool
    /** `mSocket != INVALID_SOCKET`. */
    var handleOpen: bool
    /** `mRequests`: the requests the completion check tracks, in order. */
    var requests: seq<nat>
    /** The contents of `mRequestQueue`, head first. */
    var requestQueue: seq<nat>
    /** The six listener lists of `mEventListeners`. */
    var acceptListeners: seq<ListenerId>
    var connectListeners: seq<ListenerId>
    var disconnectListeners: seq<ListenerId>
    var sendListeners: seq<ListenerId>
    var receiveListeners: seq<ListenerId>
    var errorListeners: seq<ListenerId>
    /** Every listener invocation so far. */
    var log: seq<Event>

    /** The payload of slot h. */
    ghost function Slot(h: nat): Request
      reads pool, pool.memory
      requires h < |pool.memory|
    {
      pool.memory[h].value
    }

    /**
     * The pool is consistent, every handle the socket holds is lent out with
     * a well-formed payload, and no request is tracked twice or both tracked
     * and queued.
     */
    ghost predicate Valid()
      reads this, pool, pool.queue, pool.memory, pool.queue.Contents
    {
      && pool.Valid()
      && FreeListFits(pool.FreeList(), |pool.memory|)
      && Distinct(requests) && Distinct(requestQueue)
      && Apart(requests, requestQueue)
      && Held(requests, pool.FreeList(), pool.Values())
      && Held(requestQueue, pool.FreeList(), pool.Values())
    }

    /** `Socket()`; the source leaves `mConnected` uninitialised, here it starts false. */
    constructor (pool: LocklessPool<Request>)
      requires pool.Valid()
      ensures Valid() && this.pool == pool
      ensures !connected && !handleOpen && requests == [] && requestQueue == [] && log == []
      ensures acceptListeners == connectListeners == disconnectListeners == []
      ensures sendListeners == receiveListeners == errorListeners == []
    {
      this.pool := pool;
      pool.FreeListFitsCapacity();
      connected := false;
      handleOpen := false;
      requests, requestQueue := [], [];
      acceptListeners, connectListeners, disconnectListeners := [], [], [];
      sendListeners, receiveListeners, errorListeners := [], [], [];
      log := [];
    }

    /** `Socket(SOCKET handle)`: a socket made by `accept`, already connected. */
    constructor FromHandle(pool: LocklessPool<Request>)
      requires pool.Valid()
      ensures Valid() && this.pool == pool
      ensures connected && handleOpen && requests == [] && requestQueue == [] && log == []
      ensures acceptListeners == connectListeners == disconnectListeners == []
      ensures sendListeners == receiveListeners == errorListeners == []
    {
      this.pool := pool;
      pool.FreeListFitsCapacity();
      connected := true;
      handleOpen := true;
      requests, requestQueue := [], [];
      acceptListeners, connectListeners, disconnectListeners := [], [], [];
      sendListeners, receiveListeners, errorListeners := [], [], [];
      log := [];
    }

    method AddErrorListener(l: ListenerId) returns (ok: bool)
      modifies this`errorListeners
      ensures ok && errorListeners == old(errorListeners) + [l]
    {
      errorListeners := errorListeners + [l];
      ok := true;
    }

    method AddAcceptListener(l: ListenerId) returns (ok: bool)
      modifies this`acceptListeners
      ensures ok && acceptListeners == old(acceptListeners) + [l]
    {
      acceptListeners := acceptListeners + [l];
      ok := true;
    }

    method AddConnectListener(l: ListenerId) returns (ok: bool)
      modifies this`connectListeners
      ensures ok && connectListeners == old(connectListeners) + [l]
    {
      connectListeners := connectListeners + [l];
      ok := true;
    }

    method AddDisconnectListener(l: ListenerId) returns (ok: bool)
      modifies this`disconnectListeners
      ensures ok && disconnectListeners == old(disconnectListeners) + [l]
    {
      disconnectListeners := disconnectListeners + [l];
      ok := true;
    }

    method AddReceiveListener(l: ListenerId) returns (ok: bool)
      modifies this`receiveListeners
      ensures ok && receiveListeners == old(receiveListeners) + [l]
    {
      receiveListeners := receiveListeners + [l];
      ok := true;
    }

    method AddSendListener(l: ListenerId) returns (ok: bool)
      modifies this`sendListeners
      ensures ok && sendListeners == old(sendListeners) + [l]
    {
      sendListeners := sendListeners + [l];
      ok := true;
    }

    /** Runs every listener of a list in insertion order (the range-for over a listener vector). */
    method Notify(ls: seq<ListenerId>, mk: ListenerId -> Event)
      modifies this`log
      ensures log == old(log) + Calls(ls, mk)
    {
      for i := 0 to |ls|
        invariant log == old(log) + Calls(ls[..i], mk)
      {
        assert Calls(ls[..i + 1], mk) == Calls(ls[..i], mk) + [mk(ls[i])];
        log := log + [mk(ls[i])];
      }
      assert ls[..|ls|] == ls;
    }

    /**
     * The state change of `sendRequest` and `recvRequest`: the OS context is
     * reset and bound to the socket's event and `transferred` is reset to 0,
     * whether or not the OS then accepts the operation.
     */
    method IssueRequest(h: nat)
      requires pool.Valid() && h < |pool.memory|
      modifies (pool.memory[h] as Item<Request>)`value
      ensures pool.Valid()
      ensures pool.Values() == old(pool.Values())[h := Issued(old(Slot(h)))]
    {
      var r := pool.memory[h].value;
      r := r.(overlapped := BoundToSocketEvent);
      r := r.(transferred := 0);
      WriteSlot(h, r);
    }

    /** Stores a payload in slot h; no other slot and no link changes. */
    method WriteSlot(h: nat, v: Request)
      requires pool.Valid() && h < |pool.memory|
      modifies (pool.memory[h] as Item<Request>)`value
      ensures pool.Valid() && Slot(h) == v
      ensures pool.Values() == old(pool.Values())[h := v]
    {
      pool.memory[h].value := v;
      SlotWritten(h, old(pool.Values()), v);
    }

    /**
     * `send(buffer, size)`: takes the head slot of the pool, fills it with a
     * Send request owning a copy of `buffer[0..size)` and issues it. When the
     * OS refuses the issue the slot goes back to the pool and nothing is
     * queued. The source dereferences the slot unchecked, so the pool must
     * not be exhausted.
     */
    method Send(buffer: seq<byte>, size: nat, issued: bool) returns (ok: bool)
      requires Valid() && size <= |buffer| && pool.FreeList() != []
      modifies this`requestQueue, pool.queue, pool.memory
      ensures Valid() && ok == issued
      ensures var h := old(pool.FreeList())[0];
        && h < |old(pool.memory)| && pool.memory == old(pool.memory)
        && pool.Values() == old(pool.Values())[h := SendRequest(buffer, size)]
        && requestQueue == (if ok then Pushed(old(requestQueue), h) else old(requestQueue))
        && pool.FreeList() == (if ok then old(pool.FreeList())[1..] else old(pool.FreeList()))
    {
      ghost var free, vals := pool.FreeList(), pool.Values();
      var h := TakeSlot();
      PrepareSend(h, buffer, size);
      LendKeepsHeld(requests, free, vals, SendRequest(buffer, size));
      LendKeepsHeld(requestQueue, free, vals, SendRequest(buffer, size));
      ok := Submit(h, issued);
    }

    /**
     * `recv(size, type)`: like `send`, with a receive buffer of exactly `size`
     * bytes. `std::vector::resize` keeps what the slot's previous request left
     * in its first bytes.
     */
    method Recv(size: nat, issued: bool, kind: RequestType := ReceiveFill) returns (ok: bool)
      requires kind == ReceiveFill || kind == ReceivePartial
      requires Valid() && pool.FreeList() != []
      modifies this`requestQueue, pool.queue, pool.memory
      ensures Valid() && ok == issued
      ensures var h := old(pool.FreeList())[0];
        && h < |old(pool.memory)| && pool.memory == old(pool.memory)
        && pool.Values() == old(pool.Values())[h := ReceiveRequest(old(pool.Values())[h], size, kind)]
        && requestQueue == (if ok then Pushed(old(requestQueue), h) else old(requestQueue))
        && pool.FreeList() == (if ok then old(pool.FreeList())[1..] else old(pool.FreeList()))
    {
      ghost var free, vals := pool.FreeList(), pool.Values();
      var h := TakeSlot();
      ghost var v := ReceiveRequest(vals[h], size, kind);
      PrepareReceive(h, size, kind);
      LendKeepsHeld(requests, free, vals, v);
      LendKeepsHeld(requestQueue, free, vals, v);
      ok := Submit(h, issued);
    }

    /** `allocateRequest`: the head of the pool's free list, which the socket does not hold. */
    method TakeSlot() returns (h: nat)
      requires Valid() && pool.FreeList() != []
      modifies pool.queue
      ensures h == old(pool.FreeList())[0] && pool.FreeList() == old(pool.FreeList())[1..]
      ensures pool.Valid() && FreeListFits(pool.FreeList(), |pool.memory|)
      ensures pool.memory == old(pool.memory) && pool.Values() == old(pool.Values())
      ensures h < |pool.memory| && h !in pool.FreeList() && h !in requests && h !in requestQueue
    {
      assert pool.FreeList()[0] in pool.FreeList();
      var slot := pool.Allocate();
      h := slot.value;
      pool.FreeListFitsCapacity();
    }

    /** The set-up `send` does on a fresh slot, followed by `sendRequest`'s reset. */
    method PrepareSend(h: nat, buffer: seq<byte>, size: nat)
      requires pool.Valid() && h < |pool.memory| && size <= |buffer|
      modifies (pool.memory[h] as Item<Request>)`value
      ensures pool.Valid()
      ensures pool.Values() == old(pool.Values())[h := SendRequest(buffer, size)]
    {
      var r := pool.memory[h].value;
      r := r.(kind := RequestType.Send);
      r := r.(data := buffer[..size]);
      r := r.(buffer := WsaBuf(0, ToULong(size)));
      WriteSlot(h, r);
      IssueRequest(h);
    }

    /** The set-up `recv` does on a fresh slot, followed by `recvRequest`'s reset. */
    method PrepareReceive(h: nat, size: nat, kind: RequestType)
      requires pool.Valid() && h < |pool.memory|
      modifies (pool.memory[h] as Item<Request>)`value
      ensures pool.Valid()
      ensures pool.Values() == old(pool.Values())[h := ReceiveRequest(old(pool.Values())[h], size, kind)]
    {
      var r := pool.memory[h].value;
      r := r.(kind := kind);
      r := r.(data := Resized(r.data, size));
      r := r.(buffer := WsaBuf(0, ToULong(size)));
      WriteSlot(h, r);
      IssueRequest(h);
    }

    /**
     * The common tail of `send` and `recv`: a request the OS refused goes
     * back to the pool, an accepted one is pushed onto the hand-off queue.
     */
    method Submit(h: nat, issued: bool) returns (ok: bool)
      requires pool.Valid() && FreeListFits(pool.FreeList(), |pool.memory|)
      requires Distinct(requests) && Distinct(requestQueue) && Apart(requests, requestQueue)
      requires Held(requests, pool.FreeList(), pool.Values()) && Held(requestQueue, pool.FreeList(), pool.Values())
      requires h < |pool.memory| && h !in pool.FreeList() && WellFormed(Slot(h))
      requires h !in requests && h !in requestQueue
      modifies this`requestQueue, pool.queue, pool.memory
      ensures Valid() && ok == issued
      ensures pool.memory == old(pool.memory) && pool.Values() == old(pool.Values())
      ensures requestQueue == (if ok then Pushed(old(requestQueue), h) else old(requestQueue))
      ensures pool.FreeList() == (if ok then old(pool.FreeList()) else Pushed(old(pool.FreeList()), h))
    {
      if !issued {
        ReturnKeepsHeld(requests, pool.FreeList(), pool.Values(), h);
        ReturnKeepsHeld(requestQueue, pool.FreeList(), pool.Values(), h);
        pool.Free(h);
        pool.FreeListFitsCapacity();
        return false;
      }
      requestQueue := Pushed(requestQueue, h);
      return true;
    }

    /** `recvFill(size)`: a receive that completes only when `size` bytes have arrived. */
    method RecvFill(size: nat, issued: bool) returns (ok: bool)
      requires Valid() && pool.FreeList() != []
      modifies this`requestQueue, pool.queue, pool.memory
      ensures Valid() && ok == issued
      ensures var h := old(pool.FreeList())[0];
        && h < |old(pool.memory)| && pool.memory == old(pool.memory)
        && pool.Values() == old(pool.Values())[h := ReceiveRequest(old(pool.Values())[h], size, ReceiveFill)]
        && requestQueue == (if ok then Pushed(old(requestQueue), h) else old(requestQueue))
        && pool.FreeList() == (if ok then old(pool.FreeList())[1..] else old(pool.FreeList()))
    {
      ok := Recv(size, issued, ReceiveFill);
    }

    /** `recvPartial(size)`: a receive that completes on its first completion. */
    method RecvPartial(size: nat, issued: bool) returns (ok: bool)
      requires Valid() && pool.FreeList() != []
      modifies this`requestQueue, pool.queue, pool.memory
      ensures Valid() && ok == issued
      ensures var h := old(pool.FreeList())[0];
        && h < |old(pool.memory)| && pool.memory == old(pool.memory)
        && pool.Values() == old(pool.Values())[h := ReceiveRequest(old(pool.Values())[h], size, ReceivePartial)]
        && requestQueue == (if ok then Pushed(old(requestQueue), h) else old(requestQueue))
        && pool.FreeList() == (if ok then old(pool.FreeList())[1..] else old(pool.FreeList()))
    {
      ok := Recv(size, issued, ReceivePartial);
    }

    /**
     * `destroySocket`: marks the socket disconnected, closes the handle, and
     * frees every tracked request in order. Requests still in the hand-off
     * queue are not freed.
     */
    method DestroySocket()
      requires Valid()
      modifies this`connected, this`handleOpen, this`requests, pool.queue, pool.memory
      ensures Valid() && !connected && !handleOpen && requests == []
      ensures pool.FreeList() == PushAll(old(pool.FreeList()), old(requests))
      ensures pool.Values() == old(pool.Values())
    {
      connected := false;
      if handleOpen {
        handleOpen := false;
      }
      ReleaseAll(requests, requestQueue);
      requests := [];
    }

    /**
     * The loop of `destroySocket`: frees the handles of rs in order, keeping
     * every handle of `keep` (which rs does not share) lent out.
     */
    method ReleaseAll(rs: seq<nat>, ghost keep: seq<nat>)
      requires pool.Valid() && FreeListFits(pool.FreeList(), |pool.memory|)
      requires Distinct(rs) && Held(rs, pool.FreeList(), pool.Values())
      requires Held(keep, pool.FreeList(), pool.Values()) && forall h :: h in rs ==> h !in keep
      modifies pool.queue, pool.memory
      ensures pool.Valid() && FreeListFits(pool.FreeList(), |pool.memory|)
      ensures pool.memory == old(pool.memory) && pool.Values() == old(pool.Values())
      ensures pool.FreeList() == PushAll(old(pool.FreeList()), rs)
      ensures Held(keep, pool.FreeList(), pool.Values())
    {
      ghost var vals := pool.Values();
      for i := 0 to |rs|
        invariant pool.Valid() && pool.memory == old(pool.memory) && pool.Values() == vals
        invariant pool.FreeList() == PushAll(old(pool.FreeList()), rs[..i])
        invariant FreeListFits(pool.FreeList(), |pool.memory|)
        invariant Held(rs[i..], pool.FreeList(), vals) && Held(keep, pool.FreeList(), vals)
      {
        ReleaseStep(rs, i, old(pool.FreeList()), pool.FreeList(), keep, vals);
        pool.Free(rs[i]);
        pool.FreeListFitsCapacity();
      }
      assert rs[..|rs|] == rs;
    }

    /**
     * `onSend(request, bytes)`: advances the request by the completed bytes;
     * re-issues it while `transferred` is below the data size, otherwise
     * rewinds the descriptor, marks it finished and runs the send listeners.
     */
    method OnSend(h: nat, bytes: nat) returns (finished: bool)
      requires Valid() && h in requests
      requires Slot(h).kind != Finished && bytes <= Slot(h).buffer.len
      modifies (pool.memory[h] as Item<Request>)`value, this`log
      ensures Valid()
      ensures pool.Values() == old(pool.Values())[h := SendCompletion(old(Slot(h)), bytes)]
      ensures finished <==> Slot(h).kind == Finished
      ensures log == old(log) + (if finished then SendCalls(sendListeners, Slot(h)) else [])
    {
      ghost var r := Slot(h);
      assert WellFormed(r) by { assert pool.Values()[h] == r; }
      finished := AdvanceSend(h, bytes);
      if finished {
        var done := pool.memory[h].value;
        Notify(sendListeners, (l: ListenerId) => SendCalled(l, done.buffer.pos, done.transferred));
        assert log == old(log) + SendCalls(sendListeners, done);
      }
      RewriteKeepsHeld(requests, pool.FreeList(), old(pool.Values()), h, SendCompletion(r, bytes));
      RewriteKeepsHeld(requestQueue, pool.FreeList(), old(pool.Values()), h, SendCompletion(r, bytes));
    }

    /** The payload arithmetic of `onSend`, including the re-issue through `sendRequest`. */
    method AdvanceSend(h: nat, bytes: nat) returns (finished: bool)
      requires pool.Valid() && h < |pool.memory|
      requires WellFormed(Slot(h)) && Slot(h).kind != Finished && bytes <= Slot(h).buffer.len
      modifies (pool.memory[h] as Item<Request>)`value
      ensures pool.Valid()
      ensures pool.Values() == old(pool.Values())[h := SendCompletion(old(Slot(h)), bytes)]
      ensures finished <==> Slot(h).kind == Finished
    {
      var r := pool.memory[h].value;
      r := r.(transferred := r.transferred + bytes);
      r := r.(buffer := r.buffer.(pos := r.buffer.pos + bytes));
      r := r.(buffer := r.buffer.(len := r.buffer.len - bytes));
      if r.transferred < |r.data| {
        WriteSlot(h, r);
        IssueRequest(h);
        finished := false;
      } else {
        r := r.(buffer := r.buffer.(pos := r.buffer.pos - r.transferred));
        r := r.(kind := Finished);
        WriteSlot(h, r);
        finished := true;
      }
      assert Slot(h) == pool.Values()[h];
    }

    /**
     * `onReceive(request, bytes)`: advances the request by the completed
     * bytes; a `ReceiveFill` with descriptor space left is re-issued,
     * anything else is rewound, marked finished and reported to the receive
     * listeners.
     */
    method OnReceive(h: nat, bytes: nat) returns (finished: bool)
      requires Valid() && h in requests
      requires Slot(h).kind != Finished && bytes <= Slot(h).buffer.len
      modifies (pool.memory[h] as Item<Request>)`value, this`log
      ensures Valid()
      ensures pool.Values() == old(pool.Values())[h := ReceiveCompletion(old(Slot(h)), bytes)]
      ensures finished <==> Slot(h).kind == Finished
      ensures log == old(log) + (if finished then ReceiveCalls(receiveListeners, Slot(h)) else [])
    {
      ghost var r := Slot(h);
      assert WellFormed(r) by { assert pool.Values()[h] == r; }
      finished := AdvanceReceive(h, bytes);
      if finished {
        var done := pool.memory[h].value;
        Notify(receiveListeners, (l: ListenerId) => ReceiveCalled(l, done.buffer.pos, done.transferred));
        assert log == old(log) + ReceiveCalls(receiveListeners, done);
      }
      RewriteKeepsHeld(requests, pool.FreeList(), old(pool.Values()), h, ReceiveCompletion(r, bytes));
      RewriteKeepsHeld(requestQueue, pool.FreeList(), old(pool.Values()), h, ReceiveCompletion(r, bytes));
    }

    /** The payload arithmetic of `onReceive`, including the re-issue through `recvRequest`. */
    method AdvanceReceive(h: nat, bytes: nat) returns (finished: bool)
      requires pool.Valid() && h < |pool.memory|
      requires WellFormed(Slot(h)) && Slot(h).kind != Finished && bytes <= Slot(h).buffer.len
      modifies (pool.memory[h] as Item<Request>)`value
      ensures pool.Valid()
      ensures pool.Values() == old(pool.Values())[h := ReceiveCompletion(old(Slot(h)), bytes)]
      ensures finished <==> Slot(h).kind == Finished
    {
      var r := pool.memory[h].value;
      r := r.(transferred := r.transferred + bytes);
      r := r.(buffer := r.buffer.(pos := r.buffer.pos + bytes));
      r := r.(buffer := r.buffer.(len := r.buffer.len - bytes));
      if r.kind == ReceiveFill && r.buffer.len != 0 {
        WriteSlot(h, r);
        IssueRequest(h);
        finished := false;
      } else {
        r := r.(buffer := r.buffer.(pos := r.buffer.pos - r.transferred));
        r := r.(kind := Finished);
        WriteSlot(h, r);
        finished := true;
      }
      assert Slot(h) == pool.Values()[h];
    }

    /** `onConnected`: marks the socket connected and runs the connect listeners. */
    method OnConnected()
      modifies this`connected, this`log
      ensures connected && log == old(log) + ConnectCalls(connectListeners)
    {
      connected := true;
      Notify(connectListeners, (l: ListenerId) => ConnectCalled(l));
    }

    /** `onAccept`: runs the accept listeners; the acceptance itself is left to them. */
    method OnAccept()
      modifies this`log
      ensures log == old(log) + AcceptCalls(acceptListeners)
    {
      Notify(acceptListeners, (l: ListenerId) => AcceptCalled(l));
    }

    /**
     * `onError(code)`: runs the error listeners with the code, shuts the
     * socket down and destroys it.
     */
    method OnError(code: int)
      requires Valid()
      modifies this`connected, this`handleOpen, this`requests, this`log, pool.queue, pool.memory
      ensures Valid() && !connected && !handleOpen && requests == []
      ensures pool.FreeList() == PushAll(old(pool.FreeList()), old(requests))
      ensures pool.Values() == old(pool.Values())
      ensures log == old(log) + ErrorCalls(errorListeners, code)
    {
      Notify(errorListeners, (l: ListenerId) => ErrorCalled(l, code));
      DestroySocket();
    }

    /** `onDisconnected`: destroys the socket, then runs the disconnect listeners. */
    method OnDisconnected()
      requires Valid()
      modifies this`connected, this`handleOpen, this`requests, this`log, pool.queue, pool.memory
      ensures Valid() && !connected && !handleOpen && requests == []
      ensures pool.FreeList() == PushAll(old(pool.FreeList()), old(requests))
      ensures pool.Values() == old(pool.Values())
      ensures log == old(log) + DisconnectCalls(disconnectListeners)
    {
      DestroySocket();
      Notify(disconnectListeners, (l: ListenerId) => DisconnectCalled(l));
    }

    /**
     * `checkRequests`: drains the hand-off queue into the tracked requests,
     * handles the network events, polls every tracked request, then frees and
     * drops the finished ones. The OS's reports arrive as `ev` and `poll`.
     */
    method CheckRequests(ev: NetworkEvents, poll: nat -> Poll)
      requires Valid() && CompletionsFit(requests + requestQueue, pool.Values(), poll)
      modifies this`connected, this`handleOpen, this`requests, this`requestQueue, this`log
      modifies pool.queue, pool.memory
      ensures Valid() && requestQueue == [] && Live(requests, pool.Values())
      ensures Checked(ev, poll, old(requests) + old(requestQueue), old(pool.Values()), old(pool.FreeList()),
                      old(log), old(connected), old(handleOpen))
    {
      ghost var hs, vals, free := requests + requestQueue, pool.Values(), pool.FreeList();
      Drain();
      assert requests == hs && pool.Values() == vals && pool.FreeList() == free;
      CheckTracked(ev, poll);
    }

    /**
     * The state the completion check leaves, given the requests hs it tracks
     * once the hand-off queue is drained, and the payloads, free list, log and
     * flags before it. One of three cases:
     * - a connect or accept error or a close destroyed the socket before any
     *   poll, and only the event listeners ran;
     * - the poll of request k failed: the requests before it were polled, the
     *   error listeners ran and the socket was destroyed;
     * - no poll failed: every request was polled, the finished ones were freed
     *   in order and the others are kept in order; a clean connect marked the
     *   socket connected.
     */
    ghost predicate Checked(ev: NetworkEvents, poll: nat -> Poll, hs: seq<nat>, vals: seq<Request>,
                            free: seq<nat>, log0: seq<Event>, connected0: bool, open0: bool)
      requires CompletionsFit(hs, vals, poll)
      reads this, pool, pool.queue, pool.memory
    {
      var events := EventCalls(ev, errorListeners, connectListeners, acceptListeners, disconnectListeners);
      var k := FirstFailure(hs, poll);
      if TearsDown(ev) then
        && requests == [] && !connected && !handleOpen && pool.FreeList() == PushAll(free, hs)
        && log == log0 + events && pool.Values() == vals
      else if k < |hs| then
        && requests == [] && !connected && !handleOpen && pool.FreeList() == PushAll(free, hs)
        && CompletionsFit(hs[..k], vals, poll)
        && pool.Values() == PolledValues(hs[..k], vals, poll)
        && log == log0 + events + PollLog(hs[..k], vals, poll, sendListeners, receiveListeners)
                  + ErrorCalls(errorListeners, poll(hs[k]).error)
      else
        && requests == Unfinished(hs, PolledValues(hs, vals, poll))
        && connected == (connected0 || ev.connect) && handleOpen == open0
        && pool.FreeList() == PushAll(free, FinishedOf(hs, PolledValues(hs, vals, poll)))
        && pool.Values() == PolledValues(hs, vals, poll)
        && log == log0 + events + PollLog(hs, vals, poll, sendListeners, receiveListeners)
    }

    /** `checkRequests` after the hand-off queue has been drained: the network events, then polling and erasing. */
    method CheckTracked(ev: NetworkEvents, poll: nat -> Poll)
      requires Valid() && CompletionsFit(requests, pool.Values(), poll)
      modifies this`connected, this`handleOpen, this`requests, this`log, pool.queue, pool.memory
      ensures Valid() && Live(requests, pool.Values())
      ensures Checked(ev, poll, old(requests), old(pool.Values()), old(pool.FreeList()),
                      old(log), old(connected), old(handleOpen))
    {
      ghost var hs, vals := requests, pool.Values();
      HandleEvents(ev);
      ghost var log1, free1 := log, pool.FreeList();
      var failed := PollAndReclaim(poll);
      if TearsDown(ev) {
        assert FirstFailure([], poll) == 0;
        assert log == log1 + [];
        assert pool.FreeList() == PushAll(free1, []) == free1;
      } else if FirstFailure(hs, poll) < |hs| {
        PollPrefixFits(hs, vals, poll, FirstFailure(hs, poll));
      }
    }

    /**
     * The polling and erase loops of `checkRequests`, over the tracked
     * requests: a failure destroys the socket, otherwise the finished
     * requests are freed and dropped.
     */
    method PollAndReclaim(poll: nat -> Poll) returns (failed: bool)
      requires Valid() && CompletionsFit(requests, pool.Values(), poll)
      modifies this`connected, this`handleOpen, this`requests, this`log, pool.queue, pool.memory
      ensures Valid() && Live(requests, pool.Values())
      ensures var hs, vals := old(requests), old(pool.Values());
        var k := FirstFailure(hs, poll);
        && failed == (k < |hs|)
        && (failed ==>
              && requests == [] && !connected && !handleOpen
              && pool.FreeList() == PushAll(old(pool.FreeList()), hs)
              && pool.Values() == PolledValues(hs[..k], vals, poll)
              && log == old(log) + PollLog(hs[..k], vals, poll, sendListeners, receiveListeners)
                        + ErrorCalls(errorListeners, poll(hs[k]).error))
        && (!failed ==>
              && requests == Unfinished(hs, PolledValues(hs, vals, poll))
              && connected == old(connected) && handleOpen == old(handleOpen)
              && pool.FreeList() == PushAll(old(pool.FreeList()), FinishedOf(hs, PolledValues(hs, vals, poll)))
              && pool.Values() == PolledValues(hs, vals, poll)
              && log == old(log) + PollLog(hs, vals, poll, sendListeners, receiveListeners))
    {
      ghost var hs, vals := requests, pool.Values();
      failed := PollRequests(poll);
      ReclaimFinished();
      if !failed {
        UnfinishedLive(hs, PolledValues(hs, vals, poll));
      }
    }

    /**
     * The polling loop of `checkRequests`: asks about each tracked request in
     * order and hands a completed Send to `onSend` and a completed receive to
     * `onReceive`. A failure other than "still in progress" goes to
     * `onError`, which destroys the socket and so empties the list being
     * iterated; the loop is taken to end there.
     */
    method PollRequests(poll: nat -> Poll) returns (failed: bool)
      requires Valid() && CompletionsFit(requests, pool.Values(), poll)
      modifies this`connected, this`handleOpen, this`requests, this`log, pool.queue, pool.memory
      ensures Valid()
      ensures var hs, vals := old(requests), old(pool.Values());
        var k := FirstFailure(hs, poll);
        && failed == (k < |hs|)
        && (failed ==>
              && requests == [] && !connected && !handleOpen
              && pool.FreeList() == PushAll(old(pool.FreeList()), hs)
              && pool.Values() == PolledValues(hs[..k], vals, poll)
              && log == old(log) + PollLog(hs[..k], vals, poll, sendListeners, receiveListeners)
                        + ErrorCalls(errorListeners, poll(hs[k]).error))
        && (!failed ==>
              && requests == hs && connected == old(connected) && handleOpen == old(handleOpen)
              && pool.FreeList() == old(pool.FreeList())
              && pool.Values() == PolledValues(hs, vals, poll)
              && log == old(log) + PollLog(hs, vals, poll, sendListeners, receiveListeners))
    {
      var k := PollUntilFailure(poll);
      failed := k < |requests|;
      if failed {
        OnError(poll(requests[k]).error);
      } else {
        assert requests[..k] == requests;
      }
    }

    /**
     * The polling loop of `checkRequests` up to its first failure, which it
     * returns the position of (|requests| when none fails) without handling it.
     */
    method PollUntilFailure(poll: nat -> Poll) returns (k: nat)
      requires Valid() && CompletionsFit(requests, pool.Values(), poll)
      modifies pool.memory, this`log
      ensures Valid() && k == FirstFailure(requests, poll)
      ensures CompletionsFit(requests[..k], old(pool.Values()), poll)
      ensures pool.Values() == PolledValues(requests[..k], old(pool.Values()), poll)
      ensures log == old(log) + PollLog(requests[..k], old(pool.Values()), poll, sendListeners, receiveListeners)
    {
      ghost var hs, vals, log0 := requests, pool.Values(), log;
      k := 0;
      assert hs[..0] == [];
      while k < |requests| && !Fails(poll(requests[k]))
        invariant PolledUpTo(k, hs, vals, poll, log0) && k <= FirstFailure(hs, poll)
        decreases |hs| - k
      {
        FailureAt(hs, poll, k);
        PollAt(k, poll, hs, vals, log0);
        k := k + 1;
      }
      if k < |hs| {
        FailureAt(hs, poll, k);
      }
    }

    /**
     * The polling loop's invariant: the first k of the requests hs have been
     * polled, none failing, starting from payloads vals and log log0.
     */
    ghost predicate PolledUpTo(k: nat, hs: seq<nat>, vals: seq<Request>, poll: nat -> Poll, log0: seq<Event>)
      reads this, pool, pool.queue, pool.memory, pool.queue.Contents
    {
      && Valid() && requests == hs && k <= |hs|
      && CompletionsFit(hs, vals, poll) && CompletionsFit(hs[..k], vals, poll)
      && pool.Values() == PolledValues(hs[..k], vals, poll)
      && log == log0 + PollLog(hs[..k], vals, poll, sendListeners, receiveListeners)
    }

    /** One turn of the polling loop: request k, whose poll result is not a failure, after the k before it. */
    method PollAt(k: nat, poll: nat -> Poll, ghost hs: seq<nat>, ghost vals: seq<Request>, ghost log0: seq<Event>)
      requires PolledUpTo(k, hs, vals, poll, log0) && k < |hs| && !Fails(poll(hs[k]))
      modifies pool.memory, this`log
      ensures PolledUpTo(k + 1, hs, vals, poll, log0)
    {
      var h := requests[k];
      PollStep(hs, k, vals, poll, sendListeners, receiveListeners);
      assert h in requests && Slot(h) == pool.Values()[h] == vals[h];
      ghost var before, calls := pool.Values(), PollCalls(vals[h], poll(h), sendListeners, receiveListeners);
      Dispatch(h, poll(h));
      assert pool.Values() == before[h := AfterPoll(vals[h], poll(h))];
      LogAppend(log0, PollLog(hs[..k], vals, poll, sendListeners, receiveListeners), calls);
    }

    /**
     * One request of the polling loop whose result is not a failure: a
     * completed Send goes to `onSend`, a completed receive to `onReceive`,
     * anything else is left alone.
     */
    method Dispatch(h: nat, p: Poll)
      requires Valid() && h in requests && !Fails(p)
      requires WellFormed(Slot(h)) && (p.Done? ==> p.bytes <= Slot(h).buffer.len)
      modifies (pool.memory[h] as Item<Request>)`value, this`log
      ensures Valid()
      ensures pool.Values() == old(pool.Values())[h := AfterPoll(old(Slot(h)), p)]
      ensures log == old(log) + PollCalls(old(Slot(h)), p, sendListeners, receiveListeners)
    {
      if p.Done? {
        var kind := pool.memory[h].value.kind;
        if kind == RequestType.Send {
          var _ := OnSend(h, p.bytes);
        } else if kind == ReceiveFill || kind == ReceivePartial {
          var _ := OnReceive(h, p.bytes);
        }
      }
    }

    /** The first loop of `checkRequests`: pops the hand-off queue, head first, onto the end of the tracked requests. */
    method Drain()
      requires Valid()
      modifies this`requests, this`requestQueue
      ensures Valid() && requestQueue == []
      ensures requests == old(requests) + old(requestQueue)
    {
      while requestQueue != []
        invariant Valid()
        invariant requests + requestQueue == old(requests) + old(requestQueue)
        decreases |requestQueue|
      {
        MoveHeadKeepsHeld(requests, requestQueue, pool.FreeList(), pool.Values());
        var popped := Popped(requestQueue);
        requestQueue := popped.1;
        requests := requests + [popped.0.value];
      }
    }

    /** The state `destroySocket` leaves: nothing tracked, disconnected, handle closed, the tracked requests freed in order. */
    ghost predicate Destroyed(free0: seq<nat>, requests0: seq<nat>)
      reads this, pool, pool.queue
    {
      requests == [] && !connected && !handleOpen && pool.FreeList() == PushAll(free0, requests0)
    }

    /**
     * The network-event part of `checkRequests`: a connect or accept error
     * goes to `onError`, a successful one to `onConnected`/`onAccept`, and a
     * close to `onDisconnected`.
     */
    method HandleEvents(ev: NetworkEvents)
      requires Valid()
      modifies this`connected, this`handleOpen, this`requests, this`log, pool.queue, pool.memory
      ensures Valid() && pool.Values() == old(pool.Values())
      ensures log == old(log) + EventCalls(ev, errorListeners, connectListeners, acceptListeners, disconnectListeners)
      ensures TearsDown(ev) ==> Destroyed(old(pool.FreeList()), old(requests))
      ensures !TearsDown(ev) ==>
        (requests == old(requests) && pool.FreeList() == old(pool.FreeList())
         && connected == (old(connected) || ev.connect) && handleOpen == old(handleOpen))
    {
      ghost var log0 := log;
      HandleOpenEvents(ev);
      HandleClose(ev);
      CallsAssociate(log0, ConnectPart(ev, errorListeners, connectListeners),
        AcceptPart(ev, errorListeners, acceptListeners), ClosePart(ev, disconnectListeners));
    }

    /** The connect and accept flags of `checkRequests`. */
    method HandleOpenEvents(ev: NetworkEvents)
      requires Valid()
      modifies this`connected, this`handleOpen, this`requests, this`log, pool.queue, pool.memory
      ensures Valid() && pool.Values() == old(pool.Values())
      ensures log == old(log) + ConnectPart(ev, errorListeners, connectListeners) + AcceptPart(ev, errorListeners, acceptListeners)
      ensures Refused(ev) ==> Destroyed(old(pool.FreeList()), old(requests))
      ensures !Refused(ev) ==>
        (requests == old(requests) && pool.FreeList() == old(pool.FreeList())
         && connected == (old(connected) || ev.connect) && handleOpen == old(handleOpen))
    {
      HandleConnect(ev);
      HandleAccept(ev);
    }

    /** The connect flag of `checkRequests`. */
    method HandleConnect(ev: NetworkEvents)
      requires Valid()
      modifies this`connected, this`handleOpen, this`requests, this`log, pool.queue, pool.memory
      ensures Valid() && pool.Values() == old(pool.Values())
      ensures log == old(log) + ConnectPart(ev, errorListeners, connectListeners)
      ensures ev.connect && ev.connectError != 0 ==> Destroyed(old(pool.FreeList()), old(requests))
      ensures !(ev.connect && ev.connectError != 0) ==>
        (requests == old(requests) && pool.FreeList() == old(pool.FreeList())
         && connected == (old(connected) || ev.connect) && handleOpen == old(handleOpen))
    {
      if ev.connect {
        if ev.connectError != 0 {
          OnError(ev.connectError);
        } else {
          OnConnected();
        }
      }
    }

    /** The accept flag of `checkRequests`. */
    method HandleAccept(ev: NetworkEvents)
      requires Valid()
      modifies this`connected, this`handleOpen, this`requests, this`log, pool.queue, pool.memory
      ensures Valid() && pool.Values() == old(pool.Values())
      ensures log == old(log) + AcceptPart(ev, errorListeners, acceptListeners)
      ensures ev.accept && ev.acceptError != 0 ==> Destroyed(old(pool.FreeList()), old(requests))
      ensures !(ev.accept && ev.acceptError != 0) ==>
        (requests == old(requests) && pool.FreeList() == old(pool.FreeList())
         && connected == old(connected) && handleOpen == old(handleOpen))
    {
      if ev.accept {
        if ev.acceptError != 0 {
          OnError(ev.acceptError);
        } else {
          OnAccept();
        }
      }
    }

    /** The close flag of `checkRequests`. */
    method HandleClose(ev: NetworkEvents)
      requires Valid()
      modifies this`connected, this`handleOpen, this`requests, this`log, pool.queue, pool.memory
      ensures Valid() && pool.Values() == old(pool.Values())
      ensures log == old(log) + ClosePart(ev, disconnectListeners)
      ensures ev.close ==> Destroyed(old(pool.FreeList()), old(requests))
      ensures !ev.close ==>
        (requests == old(requests) && pool.FreeList() == old(pool.FreeList())
         && connected == old(connected) && handleOpen == old(handleOpen))
    {
      if ev.close {
        OnDisconnected();
      }
    }

    /** One erase step of the last loop of `checkRequests`: frees the request at position i and drops it. */
    method EraseAt(i: nat)
      requires Valid() && i < |requests|
      modifies this`requests, pool.queue, pool.memory
      ensures Valid() && pool.Values() == old(pool.Values())
      ensures requests == old(requests[..i] + requests[i + 1..])
      ensures pool.FreeList() == Pushed(old(pool.FreeList()), old(requests[i]))
    {
      var h := requests[i];
      EraseKeepsHeld(requests, i, requestQueue, pool.FreeList(), pool.Values());
      pool.Free(h);
      pool.FreeListFitsCapacity();
      requests := requests[..i] + requests[i + 1..];
    }

    /** The last loop of `checkRequests`: frees and erases every finished request, keeping the others in order. */
    method ReclaimFinished()
      requires Valid()
      modifies this`requests, pool.queue, pool.memory
      ensures Valid() && pool.Values() == old(pool.Values())
      ensures requests == Unfinished(old(requests), old(pool.Values()))
      ensures pool.FreeList() == PushAll(old(pool.FreeList()), FinishedOf(old(requests), old(pool.Values())))
    {
      ghost var hs, vals, free := requests, pool.Values(), pool.FreeList();
      var i: nat := 0;
      ghost var j: nat := 0;
      ReclaimStart(hs, vals, free);
      while i < |requests|
        invariant ReclaimedUpTo(i, j, hs, vals, free)
        decreases |hs| - j
      {
        i := ReclaimAt(i, j, hs, vals, free);
        j := j + 1;
      }
      ReclaimDone(i, j, hs, vals, free);
    }

    /** When the erase loop's position reaches the end, every request has been sorted out. */
    lemma ReclaimDone(i: nat, j: nat, hs: seq<nat>, vals: seq<Request>, free: seq<nat>)
      requires ReclaimedUpTo(i, j, hs, vals, free) && i >= |requests|
      ensures requests == Unfinished(hs, vals) && pool.FreeList() == PushAll(free, FinishedOf(hs, vals))
    {
      assert |hs[j..]| == 0;
      assert hs[..j] == hs;
      assert requests == Unfinished(hs, vals) + [];
    }

    /**
     * The erase loop's invariant: the first j of the requests hs have been
     * sorted out, the unfinished ones kept in order before position i and
     * the finished ones freed in order.
     */
    ghost predicate ReclaimedUpTo(i: nat, j: nat, hs: seq<nat>, vals: seq<Request>, free: seq<nat>)
      reads this, pool, pool.queue, pool.memory, pool.queue.Contents
    {
      && Valid() && pool.Values() == vals && j <= |hs|
      && i == |Unfinished(hs[..j], vals)|
      && requests == Unfinished(hs[..j], vals) + hs[j..]
      && pool.FreeList() == PushAll(free, FinishedOf(hs[..j], vals))
    }

    /** One turn of the erase loop: the request at position i is freed and erased if finished, else stepped over. */
    method ReclaimAt(i: nat, ghost j: nat, ghost hs: seq<nat>, ghost vals: seq<Request>, ghost free: seq<nat>)
      returns (next: nat)
      requires ReclaimedUpTo(i, j, hs, vals, free) && i < |requests|
      modifies this`requests, pool.queue, pool.memory
      ensures j < |hs| && ReclaimedUpTo(next, j + 1, hs, vals, free)
    {
      ReclaimStep(hs, j, vals, free);
      var h := requests[i];
      assert h in requests && h == hs[j];
      assert IsFinished(vals, h) <==> Slot(h).kind == Finished;
      if pool.memory[h].value.kind == Finished {
        EraseAt(i);
        next := i;
      } else {
        next := i + 1;
      }
    }

    /** Writing slot h's payload changes the pool's payloads at h only. */
    lemma SlotWritten(h: nat, before: seq<Request>, v: Request)
      requires pool.Valid() && h < |pool.memory| && |before| == |pool.memory|
      requires pool.memory[h].value == v
      requires forall i :: 0 <= i < |pool.memory| && i != h ==> pool.memory[i].value == before[i]
      ensures pool.Values() == before[h := v]
    {
    }
  }
}
