/** How the HTTP/2 client accounts for response bytes (internal/http2/transport.go): what one DATA or HEADERS
    frame, one body read and one body close do to the connection's window and to the stream they concern. */
module Inbound {
  import opened Base
  import opened Flow
  import opened Pipe

  const TRANSPORT_DEFAULT_CONN_FLOW := 0x4000_0000
  const TRANSPORT_DEFAULT_STREAM_FLOW := 0x40_0000
  const INITIAL_WINDOW_SIZE := 65535

  /** The connection window increment a client wants to announce: the default when none is configured. */
  function AnnouncedConnFlow(connFlow: uint32): uint32 {
    if connFlow < 1 then TRANSPORT_DEFAULT_CONN_FLOW else connFlow
  }

  /** The client's own account of the connection window, added up in an int32. */
  function OwnConnWindow(connFlow: uint32): int32 {
    Int32(AnnouncedConnFlow(connFlow) + INITIAL_WINDOW_SIZE)
  }

  /** What the preface grants the peer: the frame writer refuses an increment above 2^31-1, and nobody looks at its
      error. A sum above 2^31-1 makes the peer end the connection. */
  function PeerConnWindow(connFlow: uint32): nat {
    INITIAL_WINDOW_SIZE + if AnnouncedConnFlow(connFlow) <= MAX_INT32 then AnnouncedConnFlow(connFlow) else 0
  }

  datatype BodyError = TooLong | UnexpectedEOF

  /** The receiving half of a clientStream. */
  datatype Stream = Stream(
    inflow: Window,
    pipe: PipeState,
    isHead: bool,
    pastHeaders: bool,
    readClosed: bool,
    readAborted: bool,
    bytesRemain: int,           // -1: not declared
    readErr: Option<BodyError>) // sticky

  function NewStream(isHead: bool): Stream {
    Stream(Window(TRANSPORT_DEFAULT_STREAM_FLOW, 0), NEW_PIPE, isHead, false, false, false, -1, None)
  }

  datatype Verdict = Fine | FlowControlError | ProtocolError | Panicked

  /** A DATA frame: length counts the padding, data does not. */
  datatype DataFrame = DataFrame(length: nat, data: bytes, endStream: bool)

  /** What a step leaves behind, and the increments to announce for the connection and for the stream. */
  datatype Effect = Effect(conn: Window, cs: Stream, sendConn: int, sendStream: int, verdict: Verdict)

  function EndStream(cs: Stream): Stream {
    if cs.readClosed then cs else cs.(readClosed := true, pipe := AfterClose(cs.pipe, EOF, true))
  }

  function EndStreamError(cs: Stream): Stream {
    cs.(readAborted := true)
  }

  /** DATA for a stream that is forgotten or was reset: only the connection's credit moves, there and back. */
  function OnDataUnknown(conn: Window, solicited: bool, length: nat): (Window, int, Verdict) {
    if !solicited then (conn, 0, ProtocolError)
    else if length == 0 then (conn, 0, Fine)
    else
      var ok := conn.Covers(length);
      var w := if ok then Spend(conn, length) else conn;
      if !w.Fits(length) then (w, 0, Panicked)
      else if !ok then (Refund(w, length), 0, FlowControlError)
      else (Refund(w, length), Announced(w, length), Fine)
  }

  /** DATA for a stream the read loop still serves. */
  function OnData(conn: Window, cs: Stream, f: DataFrame): Effect {
    if cs.readClosed || !cs.pastHeaders || (f.length > 0 && cs.isHead && f.data != []) then
      Effect(conn, EndStreamError(cs), 0, 0, Fine)
    else if f.length == 0 then
      Effect(conn, if f.endStream then EndStream(cs) else cs, 0, 0, Fine)
    else if !conn.Covers(f.length) || !cs.inflow.Covers(f.length) then
      Effect(conn, cs, 0, 0, FlowControlError)
    else
      var conn1, in1 := Spend(conn, f.length), Spend(cs.inflow, f.length);
      var refused := f.data != [] && !WriteResult(cs.pipe).Accepted?;
      var pad := f.length - |f.data|;
      var refund := if refused then f.length else pad;
      var cs1 := cs.(pipe := if f.data == [] then cs.pipe else AfterWrite(cs.pipe, f.data), inflow := in1);
      if !conn1.Fits(refund) || (!refused && !in1.Fits(refund)) then Effect(conn1, cs1, 0, 0, Panicked)
      else if refused then
        Effect(Refund(conn1, refund), EndStreamError(cs1), Announced(conn1, refund), 0, Fine)
      else
        var cs2 := cs1.(inflow := Refund(in1, refund));
        Effect(Refund(conn1, refund), if f.endStream then EndStream(cs2) else cs2,
               Announced(conn1, refund), Announced(in1, refund), Fine)
  }

  /** HEADERS for a stream the read loop still serves: the response, or its trailers. */
  function OnHeaders(cs: Stream, endStream: bool, contentLength: int): (Stream, Verdict) {
    if cs.readClosed then (EndStreamError(cs), Fine)
    else if cs.pastHeaders then
      if endStream then (EndStream(cs), Fine) else (cs, ProtocolError)
    else
      var cs1 := cs.(pastHeaders := true);
      var cs2 := if cs.isHead || endStream then cs1
                 else cs1.(pipe := AfterSetBuffer(cs.pipe), bytesRemain := contentLength);
      (if endStream then EndStream(cs2) else cs2, Fine)
  }

  /** The stream after the part of a body read that empties the pipe; n bytes are then to be refunded, and
      dropped bytes never are. */
  datatype ReadEffect = ReadEffect(cs: Stream, n: nat, dropped: nat)

  function OnBodyRead(cs: Stream, room: nat): ReadEffect {
    if cs.readErr.Some? then ReadEffect(cs, 0, 0)
    else
      var out := ReadResult(cs.pipe, room);
      var n := if out.Data? then |out.d| else 0;
      var cs1 := cs.(pipe := AfterRead(cs.pipe, room));
      if cs.bytesRemain == -1 then ReadEffect(cs1, n, 0)
      else if n > cs.bytesRemain then ReadEffect(cs1.(readErr := Some(TooLong)), 0, n)
      else
        var cs2 := cs1.(bytesRemain := cs.bytesRemain - n);
        if out.Ended? && out.e == EOF && cs2.bytesRemain > 0 then ReadEffect(cs2.(readErr := Some(UnexpectedEOF)), 0, 0)
        else ReadEffect(cs2, n, 0)
  }

  /** The refund of n > 0 bytes read, to the connection and to the stream. */
  function OnReadRefund(conn: Window, cs: Stream, n: nat): Effect {
    if !conn.Fits(n) || !cs.inflow.Fits(n) then Effect(conn, cs, 0, 0, Panicked)
    else Effect(Refund(conn, n), cs.(inflow := Refund(cs.inflow, n)), Announced(conn, n), Announced(cs.inflow, n), Fine)
  }

  function OnBodyClose(cs: Stream, e: Error): Stream {
    cs.(pipe := AfterBreak(cs.pipe, e))
  }

  /** The refund of what a closed body leaves unread, to the connection only. */
  function OnCloseRefund(conn: Window, cs: Stream): (Window, int, Verdict) {
    var unread := cs.pipe.Len();
    if unread == 0 then (conn, 0, Fine)
    else if !conn.Fits(unread) then (conn, 0, Panicked)
    else (Refund(conn, unread), Announced(conn, unread), Fine)
  }
}
