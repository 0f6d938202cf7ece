# ovsocket in Dafny

A model of the core of ovsocket, a small Winsock reactor for overlapped TCP
sockets. The model has five parts, one Dafny module each, plus a module of
shared vocabulary (`Common`, in `common.dfy`).

- **`Queues`** (`locklessqueue.dfy`): the intrusive hand-off stack
  `LocklessQueue`. Items carry their own `next` link. `push` prepends, `pop`
  unlinks the head or yields null, and `clear` forgets the chain. Each
  compare-and-swap retry loop is modelled as the single update it makes when
  no other thread interferes, so the stack is a Treiber stack.
- **`Pools`** (`locklesspool.dfy`): the fixed-capacity `LocklessPool`.
  - `resize` builds the slot vector and threads every slot onto a free stack.
  - `allocate` pops a slot and `free` pushes one back.
  - A handle is a slot's index, which stands for the address the source
    recovers by pointer arithmetic.
  - An exhausted pool yields the sentinel `None`.
- **`Requests`** (`request.dfy`): the `Request` record and its arithmetic.
  - What `send`/`recv` put into a request.
  - What the issue stubs `sendRequest`/`recvRequest` reset.
  - How `onSend`/`onReceive` advance, re-issue or finish a request.
- **`Sockets`** (`socket.dfy`): the `Socket` class.
  - Fields: the connected flag, the handle, the tracked requests `mRequests`,
    the hand-off queue `mRequestQueue`, and the six listener lists.
  - Operations: issuing requests, the listener registrations, the event
    handlers, `destroySocket`, and the per-socket completion check
    `checkRequests`.
  - Everything the OS decides is an input: whether an issue was accepted,
    the network-event flags and error codes, and each request's completion
    status.
  - Every listener invocation is appended to an event log.
- **`Networking`** (`networkthread.dfy`): the `NetworkThread` reactor.
  - `addSocket`, `removeSocket`, `start`, `stop`, and the `run` loop.
  - The loop waits on the internal event plus one event per live socket.
  - It then drains the add and remove stacks, runs one socket's completion
    check, carries on, or exits.
  - Sockets are abstract ids. Two things are inputs: the wait results, and
    the calls other threads make while a wait blocks.
  - The two stacks hold one entry per push. That is how they are evidently
    meant to behave, but not how the source builds them (see `LinkedStacks`
    and "## Findings").
  - The loop's behaviour is defined once as a state machine (`Woken`,
    `Iteration`, `RunFrom`). The imperative `Run` method is proved against it.
- **`LinkedStacks`** (`linkedstacks.dfy`): the reactor's hand-off stacks as
  the source lays them out.
  - A `Socket` is a `Queueable<Socket>`, so it has exactly one
    `nextQueueable` link, and both `mSocketAddQueue` and
    `mSocketRemoveQueue` thread their sockets through it.
  - `push` overwrites that link, and `pop` follows it without clearing it.
    A chain can therefore run back into a socket already passed. On the
    add stack the drain then pops for ever. On the remove stack it pops a
    socket it has already deleted and reads that socket's link from freed
    memory, which is undefined behaviour.
  - Four lemmas exhibit where this departs from one entry per push.
  - Two more prove that the two models agree whenever no call pushes a
    socket that is still on a stack. `LinkedAgrees` covers a new thread
    up to its first internal wake. `WakeAgrees` covers any later round
    between wakes, since each agreeing drain leaves the links in step
    again.

Requests live as payloads in the slots of a pool. A socket holds handles to
those slots. `Socket.Valid` states the ownership discipline:
- every handle the socket holds is lent out, not on the free list;
- its payload is well formed;
- no request is tracked twice, or both tracked and queued.

Every operation keeps this invariant.

The model follows the code as written, including behaviour that looks
unintended:

- **Re-issue resets `transferred`.** `sendRequest` and `recvRequest` set
  `transferred` to 0 on every issue, re-issues included (socket.cpp lines
  263 and 279). Consequences:
  - A pending Send finishes only when one completion carries the whole
    buffer (`SendFinishesOnlyInOneCompletion`).
  - Once part of a Send has gone out, it is re-issued for ever
    (`PartialSendNeverFinishes`). For a two-byte send completed a byte at a
    time, the re-issue has an empty descriptor (`TwoChunkSendStalls`).
  - A ReceiveFill split over several completions reports only its last
    chunk to the receive listeners (`ReceiveFillReportsLastChunk`).
- **A failure mid-poll ends the loop.** A completion failure calls
  `onError`, which destroys the socket and so clears `mRequests` while the
  polling loop iterates over it. The model ends the loop at the first
  failure. The socket is then destroyed: every tracked request is freed and
  none is erased a second time.
- **An exhausted pool returns a sentinel.** On an exhausted pool `allocate`
  returns the null pointer shifted by the value offset, and `send`/`recv`
  write through it unchecked. The model returns `None` from `Allocate`, and
  `Send`/`Recv` require a free slot.
- **Uninitialised flags.** `Socket()` leaves `mConnected` uninitialised and
  `NetworkThread()` leaves `mRunning` uninitialised. In the model both start
  false.

## Model

| member | source | states |
|---|---|---|
| Queues.Item.constructor | ovsocket/locklessqueue.h:8-11 | a new queueable slot has a null link and holds the given payload |
| Queues.Pushed | ovsocket/locklessqueue.h:28-35 | after `push(x)` the stack is one longer, x is on top and the old contents lie below it unchanged |
| Queues.Popped | ovsocket/locklessqueue.h:37-50 | `pop()` of the empty stack yields null and leaves it empty; otherwise it yields the top and leaves the contents below it |
| Queues.LocklessQueue.constructor | ovsocket/locklessqueue.h:17-20 | a new stack is empty, with a null head |
| Queues.LocklessQueue.Clear | ovsocket/locklessqueue.h:22-26 | the stack is empty afterwards whatever it held; no item's link is written (only the stack itself is in the frame) |
| Queues.LocklessQueue.Push | ovsocket/locklessqueue.h:28-35 | contents become `[x] + old`, x's link is the old head, x's payload and every other item's link are unchanged, and the chain stays well linked and duplicate-free |
| Queues.LocklessQueue.Pop | ovsocket/locklessqueue.h:37-50 | yields null exactly when the stack was empty (leaving it empty), otherwise returns the old head and leaves the old tail |
| Queues.PopEmpty | ovsocket/locklessqueue.h:39-43 | pop yields nothing exactly on the empty stack, and leaves the empty stack empty |
| Queues.PopAfterPush | ovsocket/locklessqueue.h:28-50 | `push(x)` then `pop()` returns x and restores the previous contents |
| Queues.PushAllReverses | ovsocket/locklessqueue.h:28-35 | pushing a run of items puts them on top in reverse order |
| Queues.PushAllSnoc | ovsocket/locklessqueue.h:28-35 | pushing one more item after a run puts it on top of that run's result |
| Queues.PushAllMultiset | ovsocket/locklessqueue.h:28-35 | pushing a run adds exactly its items to the stack, no more and no fewer |
| Queues.PopManyPrefix | ovsocket/locklessqueue.h:37-50 | popping the first part p of the contents once per element of p yields p's elements in order and leaves the rest |
| Queues.LastInFirstOut | ovsocket/locklessqueue.h:28-50 | pushing a1..an on an empty stack and popping n + 1 times yields an..a1 and then null |
| Pools.LocklessPool.constructor | ovsocket/locklesspool.h:22-25 | `LocklessPool(size)` has `size` slots holding the initial payload, all free, with slot size - 1 on top |
| Pools.LocklessPool.Resize | ovsocket/locklesspool.h:27-40 | afterwards there are exactly `size` fresh slots holding the initial payload, all of them free (free list `size - 1, ..., 0`); old slots and old free list are discarded |
| Pools.LocklessPool.NewSlots | ovsocket/locklesspool.h:33-35 | the first loop of `resize` builds `size` fresh slots, slot j at index j, each holding the initial payload |
| Pools.LocklessPool.PushSlots | ovsocket/locklesspool.h:37-39 | the second loop of `resize` leaves every slot on the free stack in reverse index order, payloads untouched |
| Pools.LocklessPool.FreeListFitsCapacity | ovsocket/locklesspool.h:53-55 | the free stack holds distinct handles below the capacity, and a handle is free exactly when its slot is linked on the stack |
| Pools.LocklessPool.Allocate | ovsocket/locklesspool.h:42-45 | pops the free list: yields the sentinel `None` on an exhausted pool and changes nothing, else the head handle, which is then no longer free; no payload changes |
| Pools.LocklessPool.Free | ovsocket/locklesspool.h:47-51 | an outstanding handle goes back on top of the free list; its payload is not reset |
| Pools.FreePlusOutstanding | ovsocket/locklesspool.h:33-51 | free handles plus outstanding handles make up the capacity |
| Pools.AllocateLends | ovsocket/locklesspool.h:42-45 | allocating from a non-exhausted pool lends out the head handle, which was free: outstanding grows by it, the free count drops by one, and the free list stays valid |
| Pools.AllocateExhausted | ovsocket/locklesspool.h:44 | allocating from an exhausted pool yields the sentinel, leaves the free list empty, and every slot stays outstanding |
| Pools.FreeReturns | ovsocket/locklesspool.h:47-51 | freeing an outstanding handle keeps the free list valid, takes it (and only it) off the outstanding set, and grows the free count by one |
| Pools.AllocateAfterFree | ovsocket/locklesspool.h:42-51 | the next allocate after `free(h)` returns h and restores the free list |
| Pools.AllocationsDistinct | ovsocket/locklesspool.h:42-45 | n successive allocations without a free return the first n free handles, pairwise distinct |
| Pools.SlotsOfReversed | ovsocket/locklesspool.h:37-39 | pushing slots 0..n-1 in order leaves handles n-1..0 on the stack |
| Requests.NewRequest | ovsocket/socket.h:24-34 | a default request is consistent (its empty descriptor lies inside its empty data) and is not waiting on the OS |
| Requests.FreshReceiveZeroed | ovsocket/socket.cpp:191-200 | the first receive issued from a slot that still holds the default request reads into `size` zero bytes |
| Requests.Issued | ovsocket/socket.cpp:259-263 | issuing binds the OS context to the socket's event and resets `transferred`, keeping type, descriptor and data |
| Requests.Advanced | ovsocket/socket.cpp:390-392 | a completion of n bytes moves the descriptor and `transferred` forward by n together, keeps the window's end, type, data and OS context, and keeps a consistent request consistent |
| Requests.Rewound | ovsocket/socket.cpp:399-401 | the reset marks the request finished and moves the descriptor back by `transferred`, so the listeners are told the start and length of what the last issue moved; a consistent request stays consistent |
| Requests.ToULong | ovsocket/socket.cpp:179 | `static_cast<ULONG>` yields a value below 2^32 and keeps any value that fits |
| Requests.Resized | ovsocket/socket.cpp:198 | `vector::resize(size)` has exactly `size` bytes, keeps the old prefix and pads with zeros |
| Requests.SendRequest | ovsocket/socket.cpp:169-179 | the request `send` issues: type Send, data exactly `buffer[0..size)`, a well-formed descriptor at offset 0 that covers all the data whenever size fits a ULONG, nothing transferred |
| Requests.ReceiveRequest | ovsocket/socket.cpp:191-200 | the request `recv` issues: the requested type, exactly `size` bytes of data, and a well-formed descriptor at offset 0 that covers them whenever size fits a ULONG |
| Requests.SendCompletion | ovsocket/socket.cpp:388-401 | a Send completion keeps the request well formed and its data unchanged; a request that covered its data either still covers it or has finished |
| Requests.ReceiveCompletion | ovsocket/socket.cpp:410-423 | a receive completion keeps the request well formed and its data unchanged |
| Requests.ContinuationKeepsWindow | ovsocket/socket.cpp:388-419 | a completion that does not finish the request re-issues it pending, with the same type, its window advanced by the byte count and still ending at the end of the data |
| Requests.SendFinishesOnlyInOneCompletion | ovsocket/socket.cpp:388-401 | a pending Send finishes exactly when it is at offset 0 and the completion carries all its data, and then reports the whole buffer |
| Requests.PartialSendNeverFinishes | ovsocket/socket.cpp:390-397 | a Send whose window has advanced is re-issued, still pending and covering its data, by every further completion |
| Requests.TwoChunkSendStalls | ovsocket/socket.cpp:390-397 | a two-byte Send completed one byte at a time is still unfinished, re-issued with an empty descriptor and nothing counted as transferred |
| Requests.ReceiveFillReportsLastChunk | ovsocket/socket.cpp:410-423 | a pending ReceiveFill finishes exactly when the completion fills its descriptor; it then reports only that chunk, which is the whole buffer only when it started at offset 0 |
| Requests.ReceivePartialFinishesAtOnce | ovsocket/socket.cpp:410-423 | a pending ReceivePartial finishes on its first completion whatever the byte count, reporting that chunk |
| Sockets.NewRequestPool | ovsocket/socket.cpp:7 | the process-wide pool has 32 slots, all free, handed out from slot 31 down, each holding a default request (type `Invalid`, nothing transferred, zeroed OS context and descriptor, no data) |
| Sockets.EventCalls | ovsocket/socket.cpp:299-317 | the listener calls of the network-event part of `checkRequests` never include a send or receive notification |
| Sockets.AfterPoll | ovsocket/socket.cpp:322-338 | polling keeps a request well formed with its data; an incomplete or failed poll, or a request of another type, leaves it unchanged |
| Sockets.PolledValues | ovsocket/socket.cpp:319-339 | polling a run of requests rewrites only their slots, and leaves each of them well formed |
| Sockets.FirstFailure | ovsocket/socket.cpp:322-327 | the position of the first poll failure other than "still in progress": every earlier poll succeeds or is incomplete, and it is the length of the list exactly when none fails |
| Sockets.UnfinishedLive | ovsocket/socket.cpp:341-350 | the requests the erase loop keeps are exactly the unfinished ones and none has finished; those it frees are exactly the finished ones |
| Sockets.UnfinishedPartition | ovsocket/socket.cpp:341-350 | kept and freed requests together are the tracked requests, each exactly once |
| Sockets.ReclaimConserves | ovsocket/socket.cpp:341-350 | the erase loop loses no handle: the new free list plus the kept requests hold exactly the old free list plus the tracked requests |
| Sockets.ReclaimStep | ovsocket/socket.cpp:341-350 | one turn of the erase loop: the iterator's position is the first request not yet sorted out, and erasing (finished) or stepping over it (otherwise) sorts it out |
| Sockets.LendKeepsHeld | ovsocket/socket.cpp:43-46 | lending the head of the free list and writing a well-formed request into it keeps the socket's handles lent out, and the new handle is not one of them |
| Sockets.MoveHeadKeepsHeld | ovsocket/socket.cpp:295-297 | moving the head of the hand-off queue to the end of the tracked requests keeps both lists duplicate-free, apart and held |
| Sockets.EraseKeepsHeld | ovsocket/socket.cpp:344-346 | freeing and erasing one tracked request keeps the rest (and the queued ones) duplicate-free and held |
| Sockets.ReturnNextKeepsHeld | ovsocket/socket.cpp:36-38 | freeing the next request of the teardown loop keeps the remaining ones held |
| Sockets.Socket.constructor | ovsocket/socket.cpp:9-13 | `Socket()`: no handle, not connected, no requests, no listeners, empty log |
| Sockets.Socket.FromHandle | ovsocket/socket.cpp:15-19 | `Socket(handle)`: an open handle, connected, no requests, no listeners |
| Sockets.Socket.AddErrorListener | ovsocket/socket.cpp:223-227 | appends to the error listeners only and returns true |
| Sockets.Socket.AddAcceptListener | ovsocket/socket.cpp:229-233 | appends to the accept listeners only and returns true |
| Sockets.Socket.AddConnectListener | ovsocket/socket.cpp:235-239 | appends to the connect listeners only and returns true |
| Sockets.Socket.AddDisconnectListener | ovsocket/socket.cpp:241-245 | appends to the disconnect listeners only and returns true |
| Sockets.Socket.AddReceiveListener | ovsocket/socket.cpp:247-251 | appends to the receive listeners only and returns true |
| Sockets.Socket.AddSendListener | ovsocket/socket.cpp:253-257 | appends to the send listeners only and returns true |
| Sockets.Socket.Notify | ovsocket/socket.cpp:380-382 | runs every listener of a list once, in insertion order |
| Sockets.Socket.IssueRequest | ovsocket/socket.cpp:259-263 | an issue binds the OS context to the socket's event and resets `transferred` to 0, touching no other slot |
| Sockets.Socket.TakeSlot | ovsocket/socket.cpp:43-46 | `allocateRequest` takes the head of the free list, a slot the socket does not hold |
| Sockets.Socket.PrepareSend | ovsocket/socket.cpp:172-179 | fills the fresh slot with the request `send` issues |
| Sockets.Socket.PrepareReceive | ovsocket/socket.cpp:193-200 | fills the fresh slot with the request `recv` issues, keeping the slot's old bytes as `resize` does |
| Sockets.Socket.Submit | ovsocket/socket.cpp:182-188 | a refused request goes back on the free list and false is returned; an accepted one is pushed on the hand-off queue and true is returned |
| Sockets.Socket.Send | ovsocket/socket.cpp:169-189 | `send` lends the head slot and fills it with the Send request for `buffer[0..size)`; it returns whether the OS accepted it: accepted, the slot is queued; refused, it is back on the free list and nothing is queued |
| Sockets.Socket.Recv | ovsocket/socket.cpp:191-210 | the same for `recv`: type ReceiveFill by default, a buffer of exactly `size` bytes |
| Sockets.Socket.RecvFill | ovsocket/socket.cpp:212-215 | `recv` with type ReceiveFill |
| Sockets.Socket.RecvPartial | ovsocket/socket.cpp:217-220 | `recv` with type ReceivePartial |
| Sockets.Socket.DestroySocket | ovsocket/socket.cpp:27-41 | disconnected, handle closed, every tracked request freed in order and the list emptied; payloads and the hand-off queue untouched; a second call frees nothing |
| Sockets.Socket.ReleaseAll | ovsocket/socket.cpp:36-38 | frees the given requests in order, keeping every other held handle lent out |
| Sockets.Socket.AdvanceSend | ovsocket/socket.cpp:390-401 | the in-place updates of `onSend` produce the Send completion of the old request, and report whether it finished |
| Sockets.Socket.OnSend | ovsocket/socket.cpp:388-408 | `onSend` rewrites the slot with the Send completion; when it finishes, every send listener runs once in order with the rewound window, otherwise no listener runs |
| Sockets.Socket.AdvanceReceive | ovsocket/socket.cpp:412-423 | the in-place updates of `onReceive` produce the receive completion of the old request, and report whether it finished |
| Sockets.Socket.OnReceive | ovsocket/socket.cpp:410-430 | `onReceive` rewrites the slot with the receive completion; when it finishes, every receive listener runs once in order, otherwise none runs |
| Sockets.Socket.OnConnected | ovsocket/socket.cpp:362-369 | marks the socket connected and runs the connect listeners in order |
| Sockets.Socket.OnAccept | ovsocket/socket.cpp:371-376 | runs the accept listeners in order and changes nothing else |
| Sockets.Socket.OnError | ovsocket/socket.cpp:378-386 | runs the error listeners with the code, then destroys the socket |
| Sockets.Socket.OnDisconnected | ovsocket/socket.cpp:353-360 | destroys the socket, then runs the disconnect listeners |
| Sockets.Socket.Drain | ovsocket/socket.cpp:295-297 | the hand-off queue is emptied, head first, onto the end of the tracked requests |
| Sockets.Socket.HandleConnect | ovsocket/socket.cpp:299-305 | a connect with an error code runs the error listeners and destroys the socket; a clean one marks it connected and runs the connect listeners |
| Sockets.Socket.HandleAccept | ovsocket/socket.cpp:307-313 | an accept with an error code runs the error listeners and destroys the socket; a clean one runs the accept listeners |
| Sockets.Socket.HandleClose | ovsocket/socket.cpp:315-317 | a close destroys the socket and runs the disconnect listeners |
| Sockets.Socket.HandleOpenEvents | ovsocket/socket.cpp:299-313 | connect then accept handling; the socket is destroyed exactly when either carried an error |
| Sockets.Socket.HandleEvents | ovsocket/socket.cpp:299-317 | connect, accept, then close; the socket is destroyed exactly when one of them is an error or a close, and no payload changes |
| Sockets.Socket.Dispatch | ovsocket/socket.cpp:328-337 | a completed Send goes to `onSend`, a completed receive to `onReceive`, and anything else changes nothing |
| Sockets.Socket.PollAt | ovsocket/socket.cpp:319-339 | one turn of the polling loop extends the polled prefix by one request |
| Sockets.Socket.PollUntilFailure | ovsocket/socket.cpp:319-339 | the polling loop stops at the first failure; the requests before it have been polled in order, with their listener calls |
| Sockets.Socket.PollRequests | ovsocket/socket.cpp:319-339 | without a failure every tracked request is polled; at the first failure the error listeners run and the socket is destroyed, freeing every tracked request |
| Sockets.Socket.EraseAt | ovsocket/socket.cpp:344-346 | frees the request at the iterator's position and erases it, keeping the others in order |
| Sockets.Socket.ReclaimAt | ovsocket/socket.cpp:342-349 | one turn of the erase loop keeps its invariant |
| Sockets.Socket.ReclaimDone | ovsocket/socket.cpp:341-350 | when the erase loop's position reaches the end, the kept requests are the unfinished ones and the finished ones have been freed in order |
| Sockets.Socket.ReclaimFinished | ovsocket/socket.cpp:341-350 | the erase loop frees every finished request once, in order, and keeps the unfinished ones in their relative order |
| Sockets.Socket.PollAndReclaim | ovsocket/socket.cpp:319-350 | polling then erasing; it reports a failure exactly when a poll failed, and afterwards no tracked request has finished |
| Sockets.Socket.CheckTracked | ovsocket/socket.cpp:299-350 | the event handling, polling and erasing of `checkRequests`: three cases (teardown by an event, a poll failure, no failure) with the exact tracked list, free list, payloads and listener calls of each. After a teardown or a failure the socket is disconnected and its handle closed; otherwise it is connected exactly when it was or a connect event arrived, and the handle is as it was |
| Sockets.Socket.CheckRequests | ovsocket/socket.cpp:290-351 | `checkRequests`: the hand-off queue drained, then the same three cases, with the same connection and handle state in each. In a teardown no send or receive listener runs (see `EventCalls`). Otherwise the finished requests are freed and the survivors kept in order, with no handle lost (see `ReclaimConserves`) |
| Networking.Called | ovsocket/networkthread.cpp:16-40 | each call from another thread sets the internal event and neither runs a completion check nor deletes a socket |
| Networking.CalledAll | ovsocket/networkthread.cpp:16-40 | a run of calls puts on the add stack exactly the sockets it adds and on the remove stack exactly those it removes, keeping what was there; it runs no check, deletes nothing, and leaves the running flag clear if it contains `stop` (stacks with one entry per push; see Findings) |
| Networking.Drained | ovsocket/networkthread.cpp:79-87 | draining empties both stacks and deletes every removed socket; afterwards a socket is live exactly when it was live or added and was not removed (stacks with one entry per push; see Findings) |
| Networking.Woken | ovsocket/networkthread.cpp:60-92 | a wake ends the loop exactly when the wait failed and never touches the running flag; any wake other than the internal event keeps the live list and both stacks |
| Networking.Iteration | ovsocket/networkthread.cpp:52-92 | one iteration ends the loop exactly when its wait failed, and leaves the running flag clear when `stop` was called during the wait |
| Networking.RunFrom | ovsocket/networkthread.cpp:47-96 | running the loop only appends to the record of completion checks run |
| Networking.WaitSet | ovsocket/networkthread.cpp:53-58 | the wait set is the internal event followed by one event per live socket, so wait index i >= 1 names socket i - 1 |
| Networking.Erase | ovsocket/networkthread.cpp:85 | `std::remove` plus `erase` drop x and keep every other socket |
| Networking.EraseCounts | ovsocket/networkthread.cpp:85 | erasing drops every occurrence of x and keeps every occurrence of every other socket |
| Networking.EraseAllRemoves | ovsocket/networkthread.cpp:84-87 | after the remove stack is drained none of its sockets is live, and every other socket that was live still is |
| Networking.CalledAllRemoves | ovsocket/networkthread.cpp:24-28 | every `removeSocket` call leaves exactly one more entry for its socket on the remove stack |
| Networking.DeletesPerRemove | ovsocket/networkthread.cpp:84-87 | at the next internal wake a socket is deleted once for every `removeSocket` call on it, so a socket removed twice is deleted twice |
| Networking.IdleWakes | ovsocket/networkthread.cpp:62-72 | I/O-completion and timeout wakes change nothing; a failed wait ends the loop and changes nothing |
| Networking.SocketWakeDispatches | ovsocket/networkthread.cpp:88-91 | a wake on index i >= 1 runs the completion check of exactly socket i - 1 and keeps the live list |
| Networking.InternalWakeDrains | ovsocket/networkthread.cpp:79-87 | an internal wake empties both stacks, adds before removes: afterwards a socket is live exactly when it was live or added and was not removed, and every removed socket is deleted (stacks with one entry per push; see Findings) |
| Networking.DispatchesLive | ovsocket/networkthread.cpp:74-91 | a wake either runs no completion check or runs one for a live socket, keeping the live list |
| Networking.AddedThenRemovedNeverDispatched | ovsocket/networkthread.cpp:47-96 | over any run of the loop: a socket that is not live, each of whose adds is followed by its removal before the next internal wake, is never live and its completion check never runs (stacks with one entry per push; see Findings) |
| Networking.StoppedRunsNothing | ovsocket/networkthread.cpp:52 | with the running flag clear the loop starts no iteration |
| Networking.StopEndsLoop | ovsocket/networkthread.cpp:36-40 | `stop` during a wait lets that iteration finish and ends the loop at the next check |
| LinkedStacks.Chain | ovsocket/locklessqueue.h:37-50 | the sockets successive pops return: a null-terminated chain of distinct linked sockets from the head, or nothing when the chain runs back into a socket already passed (which the add drain and the remove drain meet differently; see `LinkedDrained`) |
| LinkedStacks.ChainOfLinked | ovsocket/locklessqueue.h:37-50 | every null-terminated chain of distinct linked sockets from the head is exactly what the pops return |
| LinkedStacks.SelfLinkHangs | ovsocket/locklessqueue.h:37-50 | a socket linked to itself makes the drain of a stack it heads pop for ever |
| LinkedStacks.LinkedCalled | ovsocket/networkthread.cpp:16-28 | `addSocket`/`removeSocket` push through the socket's one link: the socket becomes the head and its link the old head, whatever stack it was on; `stop` pushes nothing |
| LinkedStacks.LinkedCalledAll | ovsocket/networkthread.cpp:16-40 | a run of calls keeps every head and link pointing at pushed sockets |
| LinkedStacks.LinkedDrained | ovsocket/networkthread.cpp:79-87 | the internal-event branch as written. A looping add chain makes the add drain pop for ever, before any delete. A looping remove chain makes the remove drain pop a socket it has already deleted, reading its freed link and deleting it again (undefined behaviour). Otherwise the drain ends: a socket is live exactly when it was live or on the add chain and is not on the remove chain, and the remove chain is what is deleted |
| LinkedStacks.LinkedLosesAdd | ovsocket/networkthread.cpp:16-28 | `addSocket(2); addSocket(1); removeSocket(1)`: socket 2 is neither live nor deleted after the drain, while one entry per push makes it live |
| LinkedStacks.LinkedDeletesUnremoved | ovsocket/networkthread.cpp:16-28 | with socket 1 live, `addSocket(2); removeSocket(1); addSocket(1)` deletes sockets 1 and 2 and leaves 2 off the live list, while one entry per push deletes only 1 and keeps 2 live |
| LinkedStacks.LinkedDrainHangs | ovsocket/networkthread.cpp:79-87 | `addSocket(1); removeSocket(1); addSocket(1); removeSocket(1)` makes the add drain pop for ever, while one entry per push ends it with socket 1 off the live list |
| LinkedStacks.PushKeepsChains | ovsocket/locklessqueue.h:28-35 | pushing a socket that is on neither chain puts it on top of its chain and leaves the other chain as it was |
| LinkedStacks.CalledRepresents | ovsocket/networkthread.cpp:16-28 | a call that pushes a socket on neither stack keeps the linked stacks equal to the one-entry-per-push stacks |
| LinkedStacks.CalledAllRepresents | ovsocket/networkthread.cpp:16-40 | so does a run of such calls |
| LinkedStacks.LinkedRemoveReadsDeleted | ovsocket/networkthread.cpp:84-87 | `removeSocket(2); removeSocket(1); removeSocket(2)` makes the remove drain, as written, pop socket 2 after deleting it; with one entry per push the drain ends, but deletes `[2, 1, 2]`, so socket 2 twice |
| LinkedStacks.DrainedAgrees | ovsocket/networkthread.cpp:79-87 | when the linked stacks equal the one-entry-per-push stacks, the drain as written ends, gives the same live list and deletions, and leaves the links equal to the drained stacks |
| LinkedStacks.LinkedAgrees | ovsocket/networkthread.cpp:16-87 | from a new thread up to its first internal wake, calls that never push a socket still on a stack lead to the same drain, as written and with one entry per push |
| LinkedStacks.WakeAgrees | ovsocket/networkthread.cpp:16-87 | from any links equal to the one-entry-per-push stacks, such as those an agreeing drain leaves, fresh calls and the next drain agree and leave the links equal again, so agreement holds over every later wake |
| Networking.NetworkThread.constructor | ovsocket/networkthread.cpp:7-10 | a new thread is not running, its internal event unset, its stacks empty |
| Networking.NetworkThread.AddSocket | ovsocket/networkthread.cpp:16-22 | binds the socket's disconnect listener to `removeSocket`, pushes it on the add stack, signals, and returns true (stacks with one entry per push; see Findings) |
| Networking.NetworkThread.RemoveSocket | ovsocket/networkthread.cpp:24-28 | only pushes on the remove stack and signals; the live list is not touched (stacks with one entry per push; see Findings) |
| Networking.NetworkThread.Stop | ovsocket/networkthread.cpp:36-40 | clears the running flag and signals |
| Networking.NetworkThread.OtherThreads | ovsocket/networkthread.cpp:16-40 | a run of calls from other threads has the effect of those calls in order |
| Networking.NetworkThread.Start | ovsocket/networkthread.cpp:30-34 | sets the running flag and runs the loop from an empty live list, dropping its result |
| Networking.NetworkThread.Run | ovsocket/networkthread.cpp:47-96 | the loop reaches the state the reactor state machine defines for the same inputs, and returns false (stacks with one entry per push; see Findings) |
| Networking.NetworkThread.BuildWaitSet | ovsocket/networkthread.cpp:53-58 | the wait set built entry by entry is `WaitSet` |
| Networking.NetworkThread.DrainAdds | ovsocket/networkthread.cpp:80-82 | pops every added socket, head first, onto the end of the live list and empties the add stack (stacks with one entry per push; see Findings) |
| Networking.NetworkThread.DrainRemoves | ovsocket/networkthread.cpp:84-87 | pops every removed socket, erases it from the live list and deletes it, emptying the remove stack (stacks with one entry per push; see Findings) |

## Left out

- Atomics, memory orders and interleavings inside the compare-and-swap loops of `push` and `pop`, and so the ABA hazard. The stack is modelled sequentially. Calls from other threads are interleaved only between waits of the reactor loop.
- The pointer-offset recovery of a slot from its payload (`PointerOffset`). A handle is the slot's index. The exhausted-pool result is `None` rather than a shifted null pointer.
- Sockets.Socket: a socket is given its pool, which may be any pool; `NewRequestPool` builds the process-wide one of 32 slots, but no global variable ties every socket to it.
- Sockets.Socket: the hand-off queue `mRequestQueue` is a sequence of handles, not a `Queues.LocklessQueue` linked through the requests' own `Queueable` fields. Its head-first order and its contents are modelled; the links inside pool slots are not.
- Address resolution, socket creation, `connect`, `listen`, `accept` and `disconnect`. These are Winsock calls with no logic of their own.
- The bodies of `WSASend`, `WSARecv`, `WSAGetOverlappedResult`, `WSAEnumNetworkEvents` and `WSAWaitForMultipleEvents`, and event creation, setting and resetting. Their outcomes are inputs. The reactor's internal event is set and reset (`signaled`); resetting a socket's own event after a wake on it is not modelled.
- The bytes a receive writes into a buffer. The payload keeps the bytes it had.
- The bodies of the listener callbacks. A callback cannot re-enter the socket.
- Sockets.Socket.PollRequests: the source keeps iterating over a vector that `onError` has just cleared, which is undefined behaviour. The model ends the loop at the first failure.
- Sockets.Socket.DestroySocket: requests still on the hand-off queue are not freed, as in the source. The next `checkRequests` drains them into the tracked list. When the socket is destroyed for good, they are lost to the pool; the destructor is not modelled.
- Sockets.Socket.Send: requires a free slot in the pool. The source writes through the sentinel of an exhausted pool, which the model cannot represent. `Recv`, `RecvFill` and `RecvPartial` have the same precondition.
- Sockets.Socket.PrepareSend: the field-by-field writes to the slot are grouped into one record update per statement. The memory copy of the buffer is a single assignment.
- Sockets.Socket.IssueRequest: `memset` of the OS context and the setting of its event handle are one value, `BoundToSocketEvent`.
- Unbounded integers: `transferred`, the descriptor offset and the byte counts are natural numbers. Only the `ULONG` cast of the descriptor length is modelled.
- Networking.NetworkThread.AddSocket: the disconnect listener it binds is recorded on the thread (`bound`), not in the socket's listener list. The reactor does not model `Socket` objects.
- Networking.Woken: a wait result of 0xC0 or 0x102 is read as I/O completion or timeout before the index range is checked, as in the source. With fewer than 64 events such an index cannot occur.
- Networking.NetworkThread.Run: the bound disconnect listener makes the reactor thread itself call `removeSocket` from inside `checkRequests`, while that socket's completion check runs. Sockets and reactor are separate models, so such a call appears only as a `removeSocket` call among the next round's calls.
- Networking.CalledAll: states the stacks with one entry per push. In the source a push overwrites the only link of a socket that may still be on a stack, so "exactly the sockets it adds" does not hold as written once a socket is pushed twice before a drain. The pushes as written are `LinkedStacks.LinkedCalled`; `LinkedStacks.CalledAllRepresents` proves the two agree while no socket is pushed twice (see Findings).
- Networking.Drained: the drain of stacks with one entry per push. As written, a drain can lose sockets, delete sockets nobody removed, pop for ever, or read the link of a socket it has already deleted; that drain is `LinkedStacks.LinkedDrained`, and `LinkedStacks.DrainedAgrees` proves the two agree while no socket is pushed twice (see Findings).
- Networking.Drained: a socket removed twice before one internal wake is deleted twice, as in the source (`Networking.DeletesPerRemove`). In the source that is a double `delete`, which is undefined behaviour. The model records both deletions and does not model what follows.
- LinkedStacks.LinkedDrained: a remove chain that runs back into a socket yields only `RemoveReadsDeleted`. The source reads the deleted socket's link from freed memory and deletes it again, and nothing after that read is modelled (`LinkedStacks.LinkedRemoveReadsDeleted`).
- Networking.InternalWakeDrains: stated of the stacks with one entry per push, for the reason given for `Networking.Drained`.
- Networking.NetworkThread.AddSocket: pushes onto a stack with one entry per push and writes no per-socket link; the link the source writes is `LinkedStacks.LinkedCalled`.
- Networking.NetworkThread.RemoveSocket: likewise, so it cannot cut the add stack as the source can (`LinkedStacks.LinkedLosesAdd`).
- Networking.NetworkThread.Run: runs the reactor over stacks with one entry per push; its drains always end and never lose or wrongly delete a socket, unlike the source's.
- Networking.NetworkThread.DrainAdds: pops the add stack with one entry per push, not the chain of shared links the source follows (`LinkedStacks.Chain`).
- Networking.NetworkThread.DrainRemoves: pops the remove stack with one entry per push, so the wrong deletion and the endless drain of `LinkedStacks.LinkedDeletesUnremoved` and `LinkedStacks.LinkedDrainHangs` do not occur.
- Networking.AddedThenRemovedNeverDispatched: proved of the stacks with one entry per push. Its premise admits a socket added, removed and added again before one drain; as written, that drain never ends (`LinkedStacks.LinkedDrainHangs`).
- `delete socket`, and the destructors of `Socket` and `NetworkThread`. A removed socket is recorded as deleted.
- ovsocket/networkthread.h and listentest/main.cpp are not part of this model. The header only declares the class; the test program does console I/O.

## Findings

| source | as written | input that shows it | evidently intended | confidence | as-written member | corrected member |
|---|---|---|---|---|---|---|
| ovsocket/networkthread.cpp:16-28 | `addSocket` and `removeSocket` push through the socket's one `nextQueueable`, shared by both stacks, so a push onto the remove stack cuts the add stack below the socket | `addSocket(2); addSocket(1); removeSocket(1)`, then an internal wake: socket 2 is never live and never deleted | each stack keeps every socket pushed on it: socket 2 is live after the wake | not executed; high (the overwrite is locklessqueue.h line 30) | LinkedStacks.LinkedLosesAdd | Networking.Drained |
| ovsocket/networkthread.cpp:84-87 | the remove drain follows a link that a later `addSocket` wrote, into the add stack | socket 1 live, `addSocket(2); removeSocket(1); addSocket(1)`, then an internal wake: socket 2 is deleted and dropped from the live list | only removed sockets are deleted: socket 1 is deleted, socket 2 stays live | not executed; high | LinkedStacks.LinkedDeletesUnremoved | Networking.InternalWakeDrains |
| ovsocket/networkthread.cpp:80-87 | a socket pushed while already on a stack can end up linked to itself, and `pop` never clears a link, so the add drain loop, which runs before any delete, never ends | `addSocket(1); removeSocket(1); addSocket(1); removeSocket(1)`, then an internal wake | the drain ends, socket 1 is off the live list | not executed; high | LinkedStacks.LinkedDrainHangs | Networking.AddedThenRemovedNeverDispatched |
