/**
 * The request record of ovsocket/socket.h and the arithmetic that
 * `onSend`/`onReceive` and the issue stubs of ovsocket/socket.cpp perform on
 * it. A request is a value here; the socket keeps it in a pool slot and
 * rewrites that slot in place.
 */
module Requests {
  import opened Common

  /** `RequestType`. */
  datatype RequestType = Invalid | Send | ReceiveFill | ReceivePartial | Accept | Finished

  /**
   * The `OVERLAPPED` context: all zero, or zero apart from the socket's event
   * handle, which is what an issue leaves in it.
   */
  datatype OsContext = Zeroed | BoundToSocketEvent

  /** The `WSABUF` descriptor: `buf` as an offset into `data`, and `len`. */
  datatype WsaBuf = WsaBuf(pos: nat, len: nat)

  /** `Request`, without its queue link (the hand-off queue is modelled by its contents). */
  datatype Request = Request(
    overlapped: OsContext,
    buffer: WsaBuf,
    kind: RequestType,
    transferred: nat,
    data: seq<byte>)

  /** `ULONG` holds values below 2^32; `buffer.len` is a `ULONG`. */
  const ULONG_RANGE: nat := 0x1_0000_0000

  /** `static_cast<ULONG>(n)`. */
  function ToULong(n: nat): (r: nat)
    ensures r < ULONG_RANGE
    ensures n < ULONG_RANGE ==> r == n
  {
    n % ULONG_RANGE
  }

  /**
   * `Request()`: zeroed context and descriptor, type `Invalid`, nothing
   * transferred, no data. Such a request is consistent but not waiting on
   * the OS, so no completion can be delivered for it.
   */
  function NewRequest(): (r: Request)
    ensures WellFormed(r) && !Pending(r)
  {
    Request(Zeroed, WsaBuf(0, 0), Invalid, 0, [])
  }

  /**
   * The first receive issued from a slot that still holds its default
   * request reads into a buffer of `size` zero bytes, whatever the type.
   */
  lemma FreshReceiveZeroed(size: nat, kind: RequestType)
    ensures ReceiveRequest(NewRequest(), size, kind).data == seq(size, _ => 0)
  {
  }

  /** `std::vector<char>::resize(size)`: keeps the first bytes, pads with zeros. */
  function Resized(d: seq<byte>, size: nat): (r: seq<byte>)
    ensures |r| == size
    ensures forall i :: 0 <= i < size ==> r[i] == if i < |d| then d[i] else 0
  {
    if size <= |d| then d[..size] else d + seq(size - |d|, _ => 0)
  }

  /**
   * The descriptor stays inside the request's data, and until the request
   * finishes the rewind by `transferred` cannot go below the data's start.
   */
  predicate WellFormed(r: Request)
  {
    r.buffer.pos + r.buffer.len <= |r.data| && (r.kind != Finished ==> r.transferred <= r.buffer.pos)
  }

  /** The descriptor's window ends exactly at the end of the data. */
  predicate Covers(r: Request)
  {
    r.buffer.pos + r.buffer.len == |r.data|
  }

  /** The state `sendRequest`/`recvRequest` leave a request in whether or not the OS accepts it. */
  function Issued(r: Request): (r': Request)
    ensures r'.transferred == 0 && r'.overlapped == BoundToSocketEvent
    ensures r'.kind == r.kind && r'.buffer == r.buffer && r'.data == r.data
  {
    r.(overlapped := BoundToSocketEvent, transferred := 0)
  }

  /** The request `send(buffer, size)` issues. */
  function SendRequest(buffer: seq<byte>, size: nat): (r: Request)
    requires size <= |buffer|
    ensures WellFormed(r) && r.kind == Send && r.data == buffer[..size]
    ensures r.transferred == 0 && r.buffer.pos == 0
    ensures size < ULONG_RANGE ==> Covers(r) && r.buffer.len == |r.data|
  {
    Issued(Request(BoundToSocketEvent, WsaBuf(0, ToULong(size)), Send, 0, buffer[..size]))
  }

  /** The request `recv(size, kind)` issues from a slot whose previous payload is `prev`. */
  function ReceiveRequest(prev: Request, size: nat, kind: RequestType): (r: Request)
    ensures WellFormed(r) && r.kind == kind && |r.data| == size
    ensures r.transferred == 0 && r.buffer.pos == 0
    ensures size < ULONG_RANGE ==> Covers(r) && r.buffer.len == size
  {
    Issued(prev.(kind := kind, data := Resized(prev.data, size), buffer := WsaBuf(0, ToULong(size))))
  }

  /**
   * The first three statements of `onSend`/`onReceive`: advance by the
   * completed byte count. The window keeps its end, and the descriptor and
   * `transferred` move together, so a consistent request stays consistent.
   */
  function Advanced(r: Request, bytes: nat): (r': Request)
    requires bytes <= r.buffer.len
    ensures r'.buffer.pos + r'.buffer.len == r.buffer.pos + r.buffer.len
    ensures r'.buffer.pos == r.buffer.pos + bytes && r'.transferred == r.transferred + bytes
    ensures r'.kind == r.kind && r'.data == r.data && r'.overlapped == r.overlapped
    ensures WellFormed(r) ==> WellFormed(r')
  {
    r.(transferred := r.transferred + bytes,
       buffer := WsaBuf(r.buffer.pos + bytes, r.buffer.len - bytes))
  }

  /**
   * "Reset buffer info": rewind the descriptor by `transferred` and mark the
   * request finished, so the listeners see the start of what the last issue
   * moved and its length.
   */
  function Rewound(r: Request): (r': Request)
    requires r.transferred <= r.buffer.pos
    ensures r'.kind == Finished && r'.buffer.pos + r.transferred == r.buffer.pos
    ensures r'.buffer.len == r.buffer.len && r'.transferred == r.transferred && r'.data == r.data
    ensures WellFormed(r) ==> WellFormed(r')
    ensures Reported(r') == (r.buffer.pos - r.transferred, r.transferred)
  {
    r.(buffer := r.buffer.(pos := r.buffer.pos - r.transferred), kind := Finished)
  }

  /** `onSend`: finished once `transferred` reaches the data size, otherwise re-issued. */
  function SendCompletion(r: Request, bytes: nat): (r': Request)
    requires WellFormed(r) && r.kind != Finished && bytes <= r.buffer.len
    ensures WellFormed(r') && r'.data == r.data
    ensures Covers(r) ==> Covers(r') || r'.kind == Finished
  {
    var a := Advanced(r, bytes);
    if a.transferred < |a.data| then Issued(a) else Rewound(a)
  }

  /**
   * `onReceive`: a `ReceiveFill` with descriptor space left is re-issued;
   * anything else finishes.
   */
  function ReceiveCompletion(r: Request, bytes: nat): (r': Request)
    requires WellFormed(r) && r.kind != Finished && bytes <= r.buffer.len
    ensures WellFormed(r') && r'.data == r.data
  {
    var a := Advanced(r, bytes);
    if a.kind == ReceiveFill && a.buffer.len != 0 then Issued(a) else Rewound(a)
  }

  /** The (offset, length) pair a finished request hands to its listeners. */
  function Reported(r: Request): (nat, nat)
  {
    (r.buffer.pos, r.transferred)
  }

  /** A request waiting on the OS: every issue has just reset `transferred`. */
  predicate Pending(r: Request)
  {
    WellFormed(r) && r.kind != Finished && r.transferred == 0 && r.overlapped == BoundToSocketEvent
  }

  /** A completion that does not finish a request keeps it covering its data and pending. */
  lemma ContinuationKeepsWindow(r: Request, bytes: nat)
    requires Pending(r) && Covers(r) && bytes <= r.buffer.len
    ensures SendCompletion(r, bytes).kind != Finished ==>
      Pending(SendCompletion(r, bytes)) && Covers(SendCompletion(r, bytes))
      && SendCompletion(r, bytes).buffer.pos == r.buffer.pos + bytes
      && SendCompletion(r, bytes).kind == r.kind
    ensures ReceiveCompletion(r, bytes).kind != Finished ==>
      Pending(ReceiveCompletion(r, bytes)) && Covers(ReceiveCompletion(r, bytes))
      && ReceiveCompletion(r, bytes).buffer.pos == r.buffer.pos + bytes
      && ReceiveCompletion(r, bytes).kind == r.kind
  {
  }

  /**
   * A pending Send finishes on a completion exactly when it is the first
   * completion and covers the whole buffer; it then reports the whole buffer.
   * Since every re-issue resets `transferred`, a Send split over several
   * completions never finishes.
   */
  lemma SendFinishesOnlyInOneCompletion(r: Request, bytes: nat)
    requires Pending(r) && Covers(r) && r.kind == Send && bytes <= r.buffer.len
    ensures SendCompletion(r, bytes).kind == Finished <==> r.buffer.pos == 0 && bytes == |r.data|
    ensures SendCompletion(r, bytes).kind == Finished ==>
      Reported(SendCompletion(r, bytes)) == (0, |r.data|)
  {
  }

  /** Once part of a Send has gone out, no later completion finishes it. */
  lemma PartialSendNeverFinishes(r: Request, bytes: nat)
    requires Pending(r) && Covers(r) && r.kind == Send && bytes <= r.buffer.len
    requires r.buffer.pos > 0
    ensures SendCompletion(r, bytes).kind == Send
    ensures Pending(SendCompletion(r, bytes)) && Covers(SendCompletion(r, bytes))
  {
  }

  /**
   * The completions of a request, applied in order, while it has not
   * finished. It serves only to spell out the concrete run below.
   */
  function SendCompletions(r: Request, chunks: seq<nat>): Request
    requires WellFormed(r)
    decreases |chunks|
  {
    if chunks == [] || r.kind == Finished || chunks[0] > r.buffer.len then r
    else SendCompletions(SendCompletion(r, chunks[0]), chunks[1..])
  }

  /**
   * A two-byte Send completed one byte at a time: the second completion does
   * not finish it, and it is re-issued with an empty descriptor. This is
   * one concrete instance of `PartialSendNeverFinishes`, which covers every
   * input; it shows the stall on a run of two completions.
   */
  lemma TwoChunkSendStalls(b0: byte, b1: byte)
    ensures var r := SendRequest([b0, b1], 2);
      var r' := SendCompletions(r, [1, 1]);
      r'.kind == Send && r'.buffer == WsaBuf(2, 0) && r'.transferred == 0
  {
    var r := SendRequest([b0, b1], 2);
    assert [b0, b1][..2] == [b0, b1];
    var r1 := SendCompletion(r, 1);
    assert r1.kind == Send && r1.buffer == WsaBuf(1, 1);
    var r2 := SendCompletion(r1, 1);
    assert r2.kind == Send && r2.buffer == WsaBuf(2, 0);
    assert [1, 1][1..] == [1];
    assert SendCompletions(r1, [1]) == SendCompletions(r2, []);
  }

  /**
   * A pending ReceiveFill finishes exactly when the completion fills the
   * rest of the descriptor, and it reports only that last chunk: the whole
   * buffer only when it arrived in one completion.
   */
  lemma ReceiveFillReportsLastChunk(r: Request, bytes: nat)
    requires Pending(r) && Covers(r) && r.kind == ReceiveFill && bytes <= r.buffer.len
    ensures ReceiveCompletion(r, bytes).kind == Finished <==> bytes == r.buffer.len
    ensures ReceiveCompletion(r, bytes).kind == Finished ==>
      Reported(ReceiveCompletion(r, bytes)) == (r.buffer.pos, bytes)
      && (Reported(ReceiveCompletion(r, bytes)) == (0, |r.data|) <==> r.buffer.pos == 0)
  {
  }

  /** A pending ReceivePartial finishes on its first completion, whatever the byte count. */
  lemma ReceivePartialFinishesAtOnce(r: Request, bytes: nat)
    requires Pending(r) && r.kind == ReceivePartial && bytes <= r.buffer.len
    ensures ReceiveCompletion(r, bytes).kind == Finished
    ensures Reported(ReceiveCompletion(r, bytes)) == (r.buffer.pos, bytes)
  {
  }
}
