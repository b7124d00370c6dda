/** The objects of an HTTP/2 client connection (internal/http2/transport.go): a stream with its two windows and its
    pipe, and the connection with its own windows and its map of streams, method by method against Inbound and
    Outbound. */
module ClientConns {
  import opened Base
  import opened Flow
  import P = Pipe
  import opened Inbound
  import Out = Outbound
  import Frames
  import Framing

  lemma SpendInRange(w: Window, n: nat)
    requires w.InRange() && 0 <= w.avail && w.Covers(n)
    ensures Spend(w, n).InRange() && 0 <= Spend(w, n).avail
  {
  }

  lemma RefundKeepsRange(w: Window, n: int)
    requires w.InRange() && 0 <= w.avail
    ensures w.Fits(n) ==> Refund(w, n).InRange() && 0 <= Refund(w, n).avail
  {
    if w.Fits(n) {
      RefundConserves(w, n);
    }
  }

  /** Whether the pipe does not take the bytes of a frame. */
  predicate Refuses(cs: Stream, f: DataFrame) {
    f.data != [] && !P.WriteResult(cs.pipe).Accepted?
  }

  /** What becomes of the bytes of a frame that both windows have paid for. */
  function Accept(conn: Window, cs: Stream, f: DataFrame): Effect {
    var pad := f.length - |f.data|;
    var refund := if Refuses(cs, f) then f.length else pad;
    var cs1 := cs.(pipe := if f.data == [] then cs.pipe else P.AfterWrite(cs.pipe, f.data));
    if !conn.Fits(refund) || (!Refuses(cs, f) && !cs.inflow.Fits(refund)) then Effect(conn, cs1, 0, 0, Panicked)
    else if Refuses(cs, f) then Effect(Refund(conn, refund), EndStreamError(cs1), Announced(conn, refund), 0, Fine)
    else Effect(Refund(conn, refund), cs1.(inflow := Refund(cs.inflow, refund)), Announced(conn, refund), Announced(cs.inflow, refund), Fine)
  }

  /** A frame that is due is refused by a window, or paid for and then accepted. */
  lemma OnDataByParts(conn: Window, cs: Stream, f: DataFrame)
    requires !cs.readClosed && cs.pastHeaders && f.length > 0 && !(cs.isHead && f.data != [])
    ensures if !conn.Covers(f.length) || !cs.inflow.Covers(f.length) then OnData(conn, cs, f) == Effect(conn, cs, 0, 0, FlowControlError)
            else
              var e := Accept(Spend(conn, f.length), cs.(inflow := Spend(cs.inflow, f.length)), f);
              var e' := OnData(conn, cs, f);
              && e'.verdict == e.verdict
              && (e.verdict != Panicked ==>
                    e' == (if f.endStream && !Refuses(cs, f) then e.(cs := Inbound.EndStream(e.cs)) else e))
  {
    hide Refund, Announced, Spend, P.AfterWrite, P.AfterClose;
  }

  class ClientStream {
    const flow: Outflow
    const inflow: Inflow
    const bufPipe: P.Pipe
    const isHead: bool
    var pastHeaders: bool
    var readClosed: bool
    var readAborted: bool
    var bytesRemain: int
    var readErr: Option<BodyError>

    ghost predicate Valid()
      reads this, inflow, bufPipe, bufPipe.b, if bufPipe.b == null then {} else bufPipe.b.repr
    {
      bufPipe.Valid() && inflow.View().InRange() && 0 <= inflow.avail && bytesRemain >= -1
    }

    /** The receiving half. */
    ghost function View(): Stream
      requires Valid()
      reads this, inflow, bufPipe, bufPipe.b, if bufPipe.b == null then {} else bufPipe.b.repr
    {
      Stream(inflow.View(), bufPipe.View(), isHead, pastHeaders, readClosed, readAborted, bytesRemain, readErr)
    }

    constructor (isHead: bool)
      ensures Valid() && View() == NewStream(isHead) && !readAborted
      ensures fresh(flow) && fresh(inflow) && fresh(bufPipe.Footprint()) && flow.n == 0 && flow.conn == null
    {
      this.isHead := isHead;
      pastHeaders, readClosed, readAborted, bytesRemain, readErr := false, false, false, -1, None;
      flow := new Outflow();
      inflow := new Inflow(TRANSPORT_DEFAULT_STREAM_FLOW);
      bufPipe := new P.Pipe();
    }

    method EndStream()
      requires Valid()
      modifies this, bufPipe
      ensures Valid() && View() == Inbound.EndStream(old(View())) && bufPipe.Footprint() == old(bufPipe.Footprint())
    {
      if !readClosed {
        readClosed := true;
        bufPipe.CloseWithError(P.EOF, true);
      }
    }

    /** The bytes of a DATA frame go into the pipe, unless it is closed. */
    method StoreData(f: DataFrame) returns (refused: bool)
      requires Valid()
      modifies bufPipe, bufPipe.b, if bufPipe.b == null then {} else bufPipe.b.repr
      ensures Valid() && refused == Refuses(old(View()), f)
      ensures View() == old(View()).(pipe := if f.data == [] then old(View()).pipe else P.AfterWrite(old(View()).pipe, f.data))
    {
      if |f.data| == 0 {
        return false;
      }
      var written := bufPipe.Write(f.data);
      refused := !written.Accepted?;
    }

    /** The bytes of a DATA frame whose length both windows have paid for: into the pipe, or straight back to the
        connection; padding goes back to both windows. */
    method AcceptData(conn: Inflow, f: DataFrame) returns (sendConn: int, sendStream: int, refused: bool, panicked: bool)
      requires Valid() && conn != inflow && |f.data| <= f.length < 0x100_0000
      modifies this`readAborted, inflow, conn, bufPipe, bufPipe.b, if bufPipe.b == null then {} else bufPipe.b.repr
      ensures var e := Accept(old(conn.View()), old(View()), f);
              && panicked == (e.verdict == Panicked)
              && (!panicked ==> Valid() && refused == Refuses(old(View()), f) && conn.View() == e.conn && View() == e.cs
                                && sendConn == e.sendConn && sendStream == e.sendStream)
    {
      hide Refund, Announced, P.AfterWrite, Refuses;
      sendConn, sendStream, refused, panicked := 0, 0, false, false;
      var refund := 0;
      if f.length - |f.data| > 0 {
        refund := refund + (f.length - |f.data|);
      }
      refused := StoreData(f);
      if refused {
        refund := refund + |f.data|;
      }
      sendConn, sendStream, panicked := GiveBack(conn, refund, refused);
    }

    /** Credit goes back to the connection, and to the stream unless its pipe refused the bytes. */
    method GiveBack(conn: Inflow, refund: nat, refused: bool) returns (sendConn: int, sendStream: int, panicked: bool)
      requires Valid() && conn != inflow
      modifies this`readAborted, inflow, conn
      ensures panicked == (!old(conn.View()).Fits(refund) || (!refused && !old(inflow.View()).Fits(refund)))
      ensures !panicked ==> Valid() && conn.View() == Refund(old(conn.View()), refund) && sendConn == Announced(old(conn.View()), refund)
      ensures !panicked && refused ==> View() == EndStreamError(old(View())) && sendStream == 0
      ensures !panicked && !refused ==>
                View() == old(View()).(inflow := Refund(old(inflow.View()), refund)) && sendStream == Announced(old(inflow.View()), refund)
    {
      hide Refund, Announced;
      sendConn, sendStream, panicked := 0, 0, false;
      var c := conn.Add(refund);
      if c.None? {
        panicked := true;
        return;
      }
      sendConn := c.value;
      if refused {
        readAborted := true;
        return;
      }
      RefundKeepsRange(inflow.View(), refund);
      var s := inflow.Add(refund);
      if s.None? {
        panicked := true;
        return;
      }
      sendStream := s.value;
    }

    /** A DATA frame for this stream: the increments to announce, or the panic of a window. */
    method ProcessData(conn: Inflow, f: DataFrame) returns (sendConn: int, sendStream: int, verdict: Verdict)
      requires Valid() && conn != inflow
      requires |f.data| <= f.length < 0x100_0000
      modifies this, inflow, conn, bufPipe, bufPipe.b, if bufPipe.b == null then {} else bufPipe.b.repr
      ensures var e := OnData(old(conn.View()), old(View()), f);
              && verdict == e.verdict
              && (verdict != Panicked ==> Valid() && conn.View() == e.conn && View() == e.cs && sendConn == e.sendConn && sendStream == e.sendStream)
    {
      sendConn, sendStream, verdict := 0, 0, Fine;
      if readClosed || !pastHeaders {
        readAborted := true;
        return;
      }
      if f.length > 0 {
        if isHead && |f.data| > 0 {
          readAborted := true;
          return;
        }
        OnDataByParts(conn.View(), View(), f);
        hide Accept, Refuses, Spend;
        var ok := TakeInflows(conn, inflow, f.length);
        if !ok {
          return 0, 0, FlowControlError;
        }
        SpendInRange(old(inflow.View()), f.length);
        hide OnData;
        var refused, panicked;
        sendConn, sendStream, refused, panicked := AcceptData(conn, f);
        if panicked {
          return 0, 0, Panicked;
        }
        if refused {
          return;
        }
      }
      if f.endStream {
        EndStream();
      }
    }

    /** The part of a body read after the pipe: the refund of n > 0 bytes. */
    method RefundRead(conn: Inflow, n: nat) returns (sendConn: int, sendStream: int, verdict: Verdict)
      requires Valid() && conn != inflow
      modifies inflow, conn
      ensures var e := OnReadRefund(old(conn.View()), old(View()), n);
              && verdict == e.verdict
              && (verdict != Panicked ==> Valid() && conn.View() == e.conn && View() == e.cs && sendConn == e.sendConn && sendStream == e.sendStream)
    {
      var c := conn.Add(n);
      if c.None? {
        return 0, 0, Panicked;
      }
      var s := inflow.Add(n);
      if s.None? {
        return 0, 0, Panicked;
      }
      return c.value, s.value, Fine;
    }

    /** transportResponseBody.Read up to its refund: what goes to the application and what is to be refunded. */
    method BodyRead(p: array<byte>) returns (n: nat, refund: nat, out: P.ReadOutcome)
      requires Valid() && p !in bufPipe.Footprint()
      modifies this, bufPipe, bufPipe.b, p
      ensures Valid() && View() == OnBodyRead(old(View()), p.Length).cs && refund == OnBodyRead(old(View()), p.Length).n
      ensures old(readErr).None? ==> out == P.ReadResult(old(View()).pipe, p.Length)
      ensures refund <= n && (refund > 0 ==> out == P.Data(p[..refund]))
      ensures var left, got := old(bytesRemain), if old(readErr).None? && out.Data? then |out.d| else 0;
              && n == (if left != -1 && got > left then left else got)
              && readErr == (if old(readErr).Some? then old(readErr)
                             else if left != -1 && got > left then Some(TooLong)
                             else if out.Ended? && out.e == P.EOF && left > got then Some(UnexpectedEOF)
                             else None)
              && bytesRemain == (if old(readErr).Some? || left == -1 || got > left then left else left - got)
              && refund == (if readErr.Some? then 0 else got)
    {
      if readErr.Some? {
        return 0, 0, P.Parked;
      }
      n, out := bufPipe.Read(p);
      if bytesRemain != -1 {
        if n > bytesRemain {
          readErr := Some(TooLong);
          return bytesRemain, 0, out; // the rest is dropped
        }
        bytesRemain := bytesRemain - n;
        if out.Ended? && out.e == P.EOF && bytesRemain > 0 {
          readErr := Some(UnexpectedEOF);
          return n, 0, out;
        }
      }
      refund := n;
    }

    /** transportResponseBody.Close: the pipe is broken and what it still holds goes back to the connection. */
    method BodyClose(conn: Inflow, e: P.Error) returns (sendConn: int, verdict: Verdict)
      requires Valid() && conn != inflow
      modifies conn, bufPipe
      ensures Valid() && View() == OnBodyClose(old(View()), e)
      ensures var (w, send, v) := OnCloseRefund(old(conn.View()), View());
              conn.View() == w && sendConn == send && verdict == v
    {
      bufPipe.BreakWithError(e);
      var unread := bufPipe.Len();
      if unread > 0 {
        var c := conn.Add(unread);
        if c.None? {
          return 0, Panicked;
        }
        return c.value, Fine;
      }
      return 0, Fine;
    }
  }

  class ClientConn {
    const flow: Outflow
    const inflow: Inflow
    var streams: map<nat, ClientStream>
    var initialWindowSize: nat
    var maxFrameSize: nat
    var nextStreamID: nat

    /** Every registered stream draws on the connection's window besides its own. */
    ghost predicate Valid()
      reads this, flow, streams.Values, set cs | cs in streams.Values :: cs.flow
    {
      && flow.conn == null
      && initialWindowSize <= MAX_INT32
      && (forall id :: id in streams ==> streams[id].flow.conn == flow && streams[id].flow != flow)
      && (forall i, j :: i in streams && j in streams && i != j ==> streams[i].flow != streams[j].flow)
    }

    ghost function Flows(): map<nat, int>
      reads this, streams.Values, set cs | cs in streams.Values :: cs.flow
    {
      map id | id in streams :: streams[id].flow.n as int
    }

    ghost function Aborted(): set<nat>
      reads this, streams.Values
    {
      set id | id in streams && streams[id].readAborted
    }

    /** The outbound windows. */
    ghost function View(): Out.Windows
      reads this, flow, streams.Values, set cs | cs in streams.Values :: cs.flow
    {
      Out.Windows(flow.n, Flows(), Aborted(), initialWindowSize, maxFrameSize)
    }

    /** newClientConn's windows: connFlow is what Transport.ConnectionFlow asks for, settings what the client
        announces; its own SETTINGS_MAX_FRAME_SIZE also limits what it sends until the peer's arrives. */
    constructor (connFlow: uint32, settings: seq<Frames.Setting>)
      ensures Valid()
      ensures View() == Out.Windows(Out.INITIAL_WINDOW_SIZE, map[], {}, Out.INITIAL_WINDOW_SIZE,
                                    LastValue(settings, MAX_FRAME_SIZE_ID, 16384))
      ensures inflow.View() == Window(OwnConnWindow(connFlow), 0)
      ensures fresh(flow) && fresh(inflow)
    {
      flow := new Outflow();
      WrapsOnce(AnnouncedConnFlow(connFlow) + Out.INITIAL_WINDOW_SIZE);
      inflow := new Inflow(Wrap32(AnnouncedConnFlow(connFlow) + Out.INITIAL_WINDOW_SIZE));
      streams, initialWindowSize, nextStreamID := map[], Out.INITIAL_WINDOW_SIZE, 1;
      var max: nat := 16384;
      for i := 0 to |settings|
        invariant max == LastValue(settings[..i], MAX_FRAME_SIZE_ID, 16384)
      {
        assert settings[..i + 1][..i] == settings[..i];
        if settings[i].id == MAX_FRAME_SIZE_ID {
          max := settings[i].val;
        }
      }
      assert settings[..|settings|] == settings;
      maxFrameSize := max;
      new;
      var _ := flow.Add(Out.INITIAL_WINDOW_SIZE);
    }

    /** The windows of a new stream. */
    method OpenWindows(cs: ClientStream)
      requires initialWindowSize <= MAX_INT32 && cs.flow.n == 0
      modifies cs.flow, cs.inflow
      ensures cs.flow.n == Out.Added(0, initialWindowSize) && cs.flow.conn == flow
      ensures cs.inflow.View() == Window(TRANSPORT_DEFAULT_STREAM_FLOW, 0)
    {
      var _ := cs.flow.Add(initialWindowSize);
      cs.flow.SetConnFlow(flow);
      cs.inflow.avail, cs.inflow.unsent := TRANSPORT_DEFAULT_STREAM_FLOW, 0;
    }

    method AddStreamLocked(cs: ClientStream)
      requires Valid() && cs.flow != flow && cs.flow.n == 0 && nextStreamID !in streams && !cs.readAborted
      requires forall id :: id in streams ==> streams[id].flow != cs.flow
      requires cs.inflow != inflow
      modifies this`streams, this`nextStreamID, cs.flow, cs.inflow
      ensures Valid() && View() == Out.OnAddStream(old(View()), old(nextStreamID)) && nextStreamID == old(nextStreamID) + 2
      ensures cs.inflow.View() == Window(TRANSPORT_DEFAULT_STREAM_FLOW, 0) && streams == old(streams)[old(nextStreamID) := cs]
    {
      OpenWindows(cs);
      assert Valid() && View() == old(View());
      hide Out.Added;
      streams := streams[nextStreamID := cs];
      nextStreamID := nextStreamID + 2;
      assert Flows() == old(Flows())[old(nextStreamID) := cs.flow.n as int];
      assert Aborted() == old(Aborted()) - {old(nextStreamID)};
    }

    method ForgetStreamID(id: nat)
      requires Valid() && id in streams
      modifies this`streams
      ensures Valid() && View() == Out.OnForget(old(View()), id)
    {
      streams := streams - {id};
      assert Flows() == old(Flows()) - {id} && Aborted() == old(Aborted()) - {id};
    }

    /** The window of every registered stream moves by delta, in any order; a sum that does not fit is skipped. */
    method AdjustStreams(delta: int32)
      requires Valid()
      modifies set cs | cs in streams.Values :: cs.flow
      ensures Valid() && flow.n == old(flow.n) && Aborted() == old(Aborted())
      ensures Flows() == map id | id in old(Flows()) :: Out.Added(old(Flows())[id], delta)
    {
      var ids := streams.Keys;
      while ids != {}
        invariant ids <= streams.Keys && Valid() && flow.n == old(flow.n)
        invariant forall id :: id in streams ==>
          streams[id].flow.n == if id in ids then old(streams[id].flow.n) else Out.Added(old(streams[id].flow.n), delta)
        decreases ids
      {
        var id :| id in ids;
        var _ := streams[id].flow.Add(delta);
        ids := ids - {id};
      }
      hide Out.Added;
    }

    /** One SETTINGS_INITIAL_WINDOW_SIZE value: every registered stream's window moves by the difference. */
    method ApplyInitialWindowSize(v: uint32) returns (ok: bool)
      requires Valid()
      modifies this`initialWindowSize, set cs | cs in streams.Values :: cs.flow
      ensures Valid() && ok == Out.OnSetting(old(View()), Out.InitialWindowSize(v)).Some?
      ensures View() == if ok then Out.OnSetting(old(View()), Out.InitialWindowSize(v)).value else old(View())
    {
      if v > MAX_INT32 {
        return false;
      }
      hide Out.Added;
      AdjustStreams(v - initialWindowSize);
      ghost var moved := Flows();
      initialWindowSize := v;
      assert Flows() == moved && Aborted() == old(Aborted());
      return true;
    }

    method ProcessWindowUpdate(id: nat, incr: int32) returns (r: Out.UpdateResult)
      requires Valid() && incr >= 1
      modifies flow, if id in streams then {streams[id], streams[id].flow} else {}
      ensures Valid()
      ensures id == 0 ==> (View(), r) == Out.OnWindowUpdate(old(View()), None, incr)
      ensures id != 0 ==> (View(), r) == Out.OnWindowUpdate(old(View()), Some(id), incr)
      ensures id == 0 ==> if old(flow.n) + incr <= MAX_INT32 then r == Out.Updated && flow.n == old(flow.n) + incr
                          else r == Out.ConnError && flow.n == old(flow.n)
      ensures id != 0 ==> (r == Out.Ignored <==> id !in streams || old(streams[id].readAborted))
      ensures id != 0 && id in streams && !old(streams[id].readAborted) ==>
                if old(streams[id].flow.n) + incr <= MAX_INT32
                then r == Out.Updated && streams[id].flow.n == old(streams[id].flow.n) + incr && !streams[id].readAborted
                else r == Out.StreamError && streams[id].flow.n == old(streams[id].flow.n) && streams[id].readAborted
    {
      if id == 0 {
        var ok := flow.Add(incr);
        assert Flows() == old(Flows()) && Aborted() == old(Aborted());
        return if ok then Out.Updated else Out.ConnError;
      }
      if id !in streams || streams[id].readAborted {
        return Out.Ignored;
      }
      var ok := streams[id].flow.Add(incr);
      if !ok {
        streams[id].readAborted := true;
        assert Flows() == old(Flows()) && Aborted() == old(Aborted()) + {id};
        return Out.StreamError;
      }
      assert Flows() == old(Flows())[id := streams[id].flow.n as int] && Aborted() == old(Aborted());
      return Out.Updated;
    }

    /** One pass of awaitFlowControl for a registered stream: the credit taken, or none yet. */
    method TakeCredit(id: nat, maxBytes: int32) returns (taken: int)
      requires Valid() && id in streams && maxBytes > 0 && 0x4000 <= maxFrameSize < 0x100_0000
      modifies flow, streams[id].flow
      ensures Valid() && taken >= 0 && (taken == 0 <==> Out.Available(old(View()), id) <= 0)
      ensures taken > 0 ==> taken == Out.Taken(old(View()), id, maxBytes) && View() == Out.OnTake(old(View()), id, maxBytes)
      ensures taken == 0 ==> View() == old(View())
      ensures var n, c := old(streams[id].flow.n), old(flow.n);
              if n <= 0 || c <= 0 then taken == 0 && streams[id].flow.n == n && flow.n == c
              else taken == Min(Min(n, c), Min(maxBytes, maxFrameSize)) && streams[id].flow.n == n - taken && flow.n == c - taken
    {
      var fl := streams[id].flow;
      var a := fl.Available();
      if a <= 0 {
        return 0;
      }
      var take := a;
      if take > maxBytes {
        take := maxBytes;
      }
      if take > maxFrameSize {
        take := maxFrameSize;
      }
      var ok := fl.Take(take);
      assert ok;
      return take;
    }

    /** processData: a frame for a stream the read loop still serves, or for one it has forgotten. */
    method ProcessData(id: nat, f: DataFrame) returns (sendConn: int, sendStream: int, verdict: Verdict)
      requires Valid() && |f.data| <= f.length < 0x100_0000
      requires id in streams ==> streams[id].Valid() && streams[id].inflow != inflow
      modifies inflow, if id in streams then {streams[id], streams[id].inflow, streams[id].bufPipe} else {}
      modifies if id in streams && streams[id].bufPipe.b != null then {streams[id].bufPipe.b} + streams[id].bufPipe.b.repr else {}
      ensures old(Serves(id)) ==>
                var e := OnData(old(inflow.View()), old(streams[id].View()), f);
                && verdict == e.verdict
                && (verdict != Panicked ==> streams[id].Valid() && inflow.View() == e.conn && streams[id].View() == e.cs
                                            && sendConn == e.sendConn && sendStream == e.sendStream)
      ensures !old(Serves(id)) ==>
                var (w, send, v) := OnDataUnknown(old(inflow.View()), id < nextStreamID, f.length);
                verdict == v && (v != Panicked ==> inflow.View() == w && sendConn == send && sendStream == 0)
    {
      if id in streams && !streams[id].readAborted {
        sendConn, sendStream, verdict := streams[id].ProcessData(inflow, f);
        return;
      }
      if id >= nextStreamID {
        return 0, 0, ProtocolError;
      }
      if f.length == 0 {
        return 0, 0, Fine;
      }
      var ok := inflow.Take(f.length);
      var c := inflow.Add(f.length);
      if c.None? {
        return 0, 0, Panicked;
      }
      if !ok {
        return 0, 0, FlowControlError;
      }
      return c.value, 0, Fine;
    }

    /** streamByID finds the stream. */
    predicate Serves(id: nat)
      reads this, streams.Values
    {
      id in streams && !streams[id].readAborted
    }
  }

  const MAX_FRAME_SIZE_ID := 5

  /** The value that the last setting of an identifier gives it. */
  function LastValue(settings: seq<Frames.Setting>, id: nat, default: nat): nat {
    if settings == [] then default
    else
      var last := settings[|settings| - 1];
      if last.id == id then last.val else LastValue(settings[..|settings| - 1], id, default)
  }

  /** Both ends start with the same connection window exactly when the sum fits in 31 bits. A little beyond, the peer gets
      it all and the client's own window is negative; further on, the frame writer refuses the increment, the peer gets
      nothing but the initial window, and the client's own is smaller still. */
  lemma ConnWindowsAgreeExactlyWhen(connFlow: uint32)
    ensures PeerConnWindow(connFlow)
         == INITIAL_WINDOW_SIZE + if Framing.Refusal(Frames.WriteWindowUpdate(0, AnnouncedConnFlow(connFlow))).None? then AnnouncedConnFlow(connFlow) else 0
    ensures OwnConnWindow(connFlow) == PeerConnWindow(connFlow) <==> connFlow <= MAX_INT32 - INITIAL_WINDOW_SIZE
    ensures MAX_INT32 - INITIAL_WINDOW_SIZE < connFlow <= MAX_INT32 ==>
              OwnConnWindow(connFlow) < 0 && PeerConnWindow(connFlow) == connFlow + INITIAL_WINDOW_SIZE
    ensures connFlow > MAX_INT32 ==> OwnConnWindow(connFlow) < PeerConnWindow(connFlow) == INITIAL_WINDOW_SIZE
  {
    assert |Frames.U32(AnnouncedConnFlow(connFlow))| == 4;
    hide Frames.U32;
  }
}
