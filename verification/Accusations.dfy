/** When the client accuses a peer that stayed within its windows. A stream's own window is fixed, whatever
    SETTINGS_INITIAL_WINDOW_SIZE announces, so it can be too small; the connection's window and the frame size decide
    whether a peer ever gets that far. */
module Accusations {
  import opened Base
  import opened Flow
  import opened Pipe
  import opened Inbound
  import opened TwoParty
  import opened Agreement
  import opened AgreementTheorems

  /** The peer is granted more than one of the client's own windows, and gets there. For the connection, one byte that may
      be sent at all is enough. For a stream, what a full connection leaves of its window, less the most that can be
      withheld, must be less than what one more frame may carry. */
  predicate CanAccuse(cfg: Config) {
    var least := STREAM_FLOW - cfg.Granted() - (INFLOW_MIN_REFRESH - 1);
    && !cfg.Broken()
    && ((cfg.w0 > 0 && Short(cfg)) || (cfg.w0 > STREAM_FLOW && least < cfg.Granted() && least < cfg.maxFrame))
  }

  // ----- What a served stream's window is never below -----

  /** What a served stream's window lacks is held or dropped, and was never more than the connection's window: a closed
      body's bytes are back in the connection's window and not in the stream's. */
  predicate Backed(cfg: Config, dropped: nat, sl: Slot) {
    sl.Served() ==>
      && STREAM_FLOW <= sl.cs.inflow.Credit() + sl.reading + sl.cs.pipe.Len() + dropped
      && STREAM_FLOW <= sl.cs.inflow.Credit() + cfg.Granted()
  }

  predicate AllBacked(s: State) {
    forall k :: 0 <= k < |s.slots| ==> Backed(s.cfg, s.dropped, s.slots[k])
  }

  /** How one step changes one slot. */
  predicate Moves(sl: Slot, dropped: nat, sl': Slot, dropped': nat) {
    sl'.Served() ==>
      && sl.Served()
      && sl.cs.inflow.Credit() + sl.reading + sl.cs.pipe.Len() + dropped
         <= sl'.cs.inflow.Credit() + sl'.reading + sl'.cs.pipe.Len() + dropped'
      && (sl'.closing.Closed? ==> sl.cs.inflow.Credit() <= sl'.cs.inflow.Credit())
  }

  lemma DataMoves(conn: Window, sl: Slot, f: DataFrame, dropped: nat)
    requires SlotShape(sl) && sl.Served() && |f.data| <= f.length
    requires OnData(conn, sl.cs, f).verdict == Fine
    ensures Moves(sl, dropped, sl.(cs := OnData(conn, sl.cs, f).cs), dropped)
  {
  }

  lemma HeadersMove(sl: Slot, endStream: bool, contentLength: int, dropped: nat)
    requires SlotShape(sl) && sl.Served()
    ensures Moves(sl, dropped, sl.(cs := OnHeaders(sl.cs, endStream, contentLength).0), dropped)
  {
  }

  lemma ReadMoves(sl: Slot, room: nat, dropped: nat)
    requires SlotShape(sl) && sl.reading == 0
    ensures var e := OnBodyRead(sl.cs, room);
            Moves(sl, dropped, sl.(cs := e.cs, reading := e.n), dropped + e.dropped)
  {
  }

  lemma RefundMoves(conn: Window, sl: Slot, dropped: nat)
    requires SlotShape(sl) && OnReadRefund(conn, sl.cs, sl.reading).verdict == Fine
    ensures Moves(sl, dropped, sl.(cs := OnReadRefund(conn, sl.cs, sl.reading).cs, reading := 0), dropped)
  {
  }

  lemma EndsMove(sl: Slot, e: Error, dropped: nat)
    requires SlotShape(sl)
    ensures sl.closing.NotClosed? ==> Moves(sl, dropped, sl.(cs := OnBodyClose(sl.cs, Failure(0)), closing := Breaking), dropped)
    ensures Moves(sl, dropped, sl.(closing := Closed), dropped)
    ensures Moves(sl, dropped, sl.(cs := sl.cs.(pipe := AfterClose(sl.cs.pipe, e, false))), dropped)
    ensures Moves(sl, dropped, sl.(cs := EndStreamError(sl.cs)), dropped)
    ensures Moves(sl, dropped, sl.(live := false), dropped)
    ensures Moves(sl, dropped, sl, dropped)
  {
  }

  lemma SlotMoves(s: State, step: Step, k: nat)
    requires Inv(s) && Enabled(s, step) && Apply(s, step).verdict == Fine && k < |s.slots|
    ensures var s' := Apply(s, step);
            k < |s'.slots| && Moves(s.slots[k], s.dropped, s'.slots[k], s'.dropped)
  {
    hide Moves, SlotShape, OnData, OnHeaders, OnBodyRead, OnReadRefund, OnBodyClose, AfterClose;
    StreamOf(s, k);
    assert SlotShape(s.slots[k]);
    EndsMove(s.slots[k], EOF, s.dropped);
    match step {
      case Deliver =>
        assert FrameOk(s, s.toClient[0]);
        match s.toClient[0] {
          case Data(j, f) =>
            if j == k && s.slots[k].Served() {
              DataMoves(s.conn, s.slots[k], f, s.dropped);
            }
          case Headers(j, endStream, contentLength) =>
            if j == k && s.slots[k].Served() {
              HeadersMove(s.slots[k], endStream, contentLength, s.dropped);
            }
        }
      case ReadBody(j, room) =>
        if j == k {
          ReadMoves(s.slots[k], room, s.dropped);
        } else {
          Undisturbed(s.slots[k], s.dropped, Apply(s, step).dropped);
        }
      case RefundRead(j) =>
        if j == k {
          RefundMoves(s.conn, s.slots[k], s.dropped);
        }
      case EndPipe(j, e) => EndsMove(s.slots[k], e, s.dropped);
      case _ =>
    }
  }

  lemma Undisturbed(sl: Slot, dropped: nat, dropped': nat)
    requires dropped <= dropped'
    ensures Moves(sl, dropped, sl, dropped')
  {
  }

  /** Whoever holds bytes unrefunded has them from the connection's window. */
  lemma MovedBacked(s: State, s': State, k: nat)
    requires Inv(s') && s'.cfg == s.cfg && k < |s.slots| && k < |s'.slots|
    requires Backed(s.cfg, s.dropped, s.slots[k]) && Moves(s.slots[k], s.dropped, s'.slots[k], s'.dropped)
    ensures Backed(s'.cfg, s'.dropped, s'.slots[k])
  {
    HeldUpdate(s'.slots, k, s'.slots[k]);
    hide SlotOk, BrokenOk, Config.Own, Config.Granted;
  }

  lemma BackedStep(s: State, step: Step)
    requires Inv(s) && AllBacked(s) && Enabled(s, step) && Apply(s, step).verdict == Fine
    ensures AllBacked(Apply(s, step))
  {
    var s' := Apply(s, step);
    StepKeeps(s, step);
    hide Inv, Apply, Moves, Backed;
    forall k | 0 <= k < |s'.slots|
      ensures Backed(s'.cfg, s'.dropped, s'.slots[k])
    {
      if k < |s.slots| {
        SlotMoves(s, step, k);
        SameConfig(s, step);
        MovedBacked(s, s', k);
      } else {
        NewIsBacked(s, step, k);
      }
    }
  }

  lemma SameConfig(s: State, step: Step)
    requires Enabled(s, step)
    ensures Apply(s, step).cfg == s.cfg
  {
  }

  lemma NewIsBacked(s: State, step: Step, k: nat)
    requires Inv(s) && Enabled(s, step) && |s.slots| <= k < |Apply(s, step).slots|
    ensures Backed(s.cfg, Apply(s, step).dropped, Apply(s, step).slots[k])
    ensures Apply(s, step).cfg == s.cfg
  {
  }

  /** A frame that arrives is covered by the connection's window, and then by the stream's. */
  lemma NoAccusation(s: State, step: Step)
    requires Inv(s) && AllBacked(s) && Enabled(s, step) && !CanAccuse(s.cfg)
    ensures Apply(s, step).verdict == Fine
  {
    StepKeeps(s, step);
    if step.Deliver? && s.toClient[0].Data? && (s.cfg.w0 > STREAM_FLOW || Short(s.cfg)) {
      assert FrameOk(s, s.toClient[0]);
      var k, f := s.toClient[0].k, s.toClient[0].f;
      ConfigFacts(s.cfg);
      StreamOf(s, k);
      ArrivingData(s);
      if Short(s.cfg) {
        NoData(s);
      } else if s.slots[k].Served() {
        Covered(s, k, f.length);
      }
      hide Inv, Config.Own, Config.Granted, Apply;
      DataIsTaken(s);
    }
  }

  /** With no stream window at all the peer has no byte to send. */
  lemma NoData(s: State)
    requires Inv(s) && s.cfg.w0 == 0 && s.toClient != [] && s.toClient[0].Data? && FrameOk(s, s.toClient[0])
    ensures s.toClient[0].f.length == 0 && 0 <= s.slots[s.toClient[0].k].cs.inflow.avail
  {
    var k := s.toClient[0].k;
    StreamOf(s, k);
    hide Orderly, Inv, Config.Own, Config.Granted;
  }

  /** DATA that both windows cover accuses nobody. */
  lemma DataIsTaken(s: State)
    requires Enabled(s, Deliver) && Excused(s, Apply(s, Deliver)) && s.toClient[0].Data? && s.toClient[0].k < |s.slots|
    requires s.conn.Covers(s.toClient[0].f.length)
    requires s.slots[s.toClient[0].k].Served() ==> s.slots[s.toClient[0].k].cs.inflow.Covers(s.toClient[0].f.length)
    ensures Apply(s, Deliver).verdict == Fine
  {
    hide Window.Covers, Short;
  }

  lemma Covered(s: State, k: nat, length: nat)
    requires Inv(s) && k < |s.slots| && Backed(s.cfg, s.dropped, s.slots[k]) && s.slots[k].Served()
    requires !CanAccuse(s.cfg) && s.cfg.w0 > STREAM_FLOW && !s.cfg.Broken()
    requires length <= ConnLedger(s) && length <= s.cfg.maxFrame
    ensures length <= s.slots[k].cs.inflow.avail
  {
    StreamOf(s, k);
    HeldUpdate(s.slots, k, s.slots[k]);
    hide Config.Own, Config.Granted, Orderly, Short;
  }

  lemma {:induction false} RunIsBacked(s: State, steps: seq<Step>)
    requires Inv(s) && AllBacked(s) && !CanAccuse(s.cfg) && Allowed(s, steps)
    ensures Run(s, steps).verdict == Fine
    decreases |steps|
  {
    if steps != [] {
      StepKeeps(s, steps[0]);
      NoAccusation(s, steps[0]);
      BackedStep(s, steps[0]);
      SameConfig(s, steps[0]);
      RunIsBacked(Apply(s, steps[0]), steps[1..]);
    }
    hide Inv, AllBacked, Apply, Enabled, CanAccuse;
  }

  // ----- The run that accuses -----

  /** The connection's window is spent, all of it unread on one stream, of whose window u bytes more were spent: they
      were read, refunded to the connection, withheld from the stream. */
  function Full(cfg: Config, u: nat): State {
    var c := cfg.Granted();
    State(cfg, Window(0, 0),
      [Slot(Stream(Window(STREAM_FLOW - c - u, u), PipeState(Some(Zeros(c)), 0, None, None, false), false, true, false, false, -1, None),
            true, 0, NotClosed)],
      [], [], [],
      Peer(true, false, cfg.w0, 0, [PeerStream(true, cfg.w0 - c - u, true, false)]), 0, Fine)
  }

  /** The same stream when n of its bytes were read, refunded and withheld, and the peer knows of it or not yet. */
  function Withheld(cfg: Config, n: nat, pending: seq<ClientFrame>, connWin: nat): State
    requires n <= cfg.Granted()
  {
    var c := cfg.Granted();
    State(cfg, Window(n, 0),
      [Slot(Stream(Window(STREAM_FLOW - c, n), PipeState(Some(Zeros(c - n)), 0, None, None, false), false, true, false, false, -1, None),
            true, 0, NotClosed)],
      pending, [], [],
      Peer(true, false, cfg.w0, connWin, [PeerStream(true, cfg.w0 - c, true, false)]), 0, Fine)
  }

  const MOST := INFLOW_MIN_REFRESH - 1

  predicate Roomy(cfg: Config) {
    cfg.Legal() && cfg.Agreed() && cfg.w0 > STREAM_FLOW && cfg.Granted() + 2 * INFLOW_MIN_REFRESH <= STREAM_FLOW
  }

  lemma ReadSome(cfg: Config)
    requires Roomy(cfg)
    ensures Allowed(Full(cfg, 0), [ReadBody(0, MOST), RefundRead(0)])
    ensures Run(Full(cfg, 0), [ReadBody(0, MOST), RefundRead(0)]) == Withheld(cfg, MOST, [Update(OnConn, MOST)], 0)
  {
    var s1 := Apply(Full(cfg, 0), ReadBody(0, MOST));
    assert Zeros(cfg.Granted())[MOST..] == Zeros(cfg.Granted() - MOST);
    assert s1.slots[0].reading == MOST;
    assert Apply(s1, RefundRead(0)) == Withheld(cfg, MOST, [Update(OnConn, MOST)], 0);
    RunTwo(Full(cfg, 0), ReadBody(0, MOST), RefundRead(0));
  }

  lemma AnnounceOne(s: State, n: nat)
    requires s.verdict == Fine && !s.peer.gone && s.peer.connWin + n <= MAX_INT32 && s.pending == [Update(OnConn, n)] && s.toPeer == []
    ensures Allowed(s, [WriteOut(0), PeerReceive])
    ensures Run(s, [WriteOut(0), PeerReceive]) == s.(pending := [], peer := s.peer.(connWin := s.peer.connWin + n))
  {
    var s1 := Apply(s, WriteOut(0));
    assert s1 == s.(pending := [], toPeer := [Update(OnConn, n)]);
    assert [Update(OnConn, n)][1..] == [];
    RunTwo(s, WriteOut(0), PeerReceive);
  }

  lemma FillAgain(cfg: Config)
    requires Roomy(cfg)
    ensures Allowed(Withheld(cfg, MOST, [], MOST), [PeerData(0, Refill()), Deliver])
    ensures Run(Withheld(cfg, MOST, [], MOST), [PeerData(0, Refill()), Deliver]) == Full(cfg, MOST)
  {
    hide *;
    OneSlot(cfg);
    CanRefill(cfg);
    Refilled(cfg);
    SendAndDeliver(Withheld(cfg, MOST, [], MOST), Refill());
    NoUpdates();
  }

  lemma NoUpdates()
    ensures [] + (Updates(OnConn, 0) + Updates(OnStream(0), 0)) == []
  {
  }

  lemma OneSlot(cfg: Config)
    requires Roomy(cfg)
    ensures cfg.Granted() >= MOST
    ensures var s := Withheld(cfg, MOST, [], MOST);
            && s.toClient == [] && s.pending == [] && |s.slots| == |s.peer.streams| == 1 && s.slots[0].Served() && s.conn == Window(MOST, 0)
            && s.peer.connWin == MOST && s.verdict == Fine
            && Refill().length == MOST && !Refill().endStream
            && Full(cfg, MOST) == s.(conn := Window(0, 0), slots := [s.slots[0].(cs := Full(cfg, MOST).slots[0].cs)],
                                     peer := s.peer.(connWin := 0, streams := [s.peer.streams[0].(win := s.peer.streams[0].win - MOST, ended := false)]))
  {
    hide Zeros;
  }

  lemma CanRefill(cfg: Config)
    requires Roomy(cfg)
    ensures Enabled(Withheld(cfg, MOST, [], MOST), PeerData(0, Refill()))
  {
    ZerosAdd(0, MOST);
    hide Zeros;
  }

  function Refill(): DataFrame {
    DataFrame(MOST, Zeros(MOST), false)
  }

  lemma RefundNothing(w: Window)
    requires w == Window(0, 0) || (0 <= w.unsent < INFLOW_MIN_REFRESH && w.unsent < w.avail)
    ensures Refund(w, 0) == w && Announced(w, 0) == 0
  {
  }

  predicate Plain(conn: Window, cs: Stream, f: DataFrame) {
    && 0 < f.length && f.data != [] && |f.data| == f.length && !f.endStream
    && cs.pastHeaders && !cs.readClosed && !cs.isHead && WriteResult(cs.pipe).Accepted?
    && conn == Window(f.length, 0) && f.length + cs.inflow.unsent < cs.inflow.avail
    && 0 <= cs.inflow.unsent < INFLOW_MIN_REFRESH && cs.inflow.Credit() <= MAX_WINDOW
  }

  lemma Unpadded(conn: Window, cs: Stream, f: DataFrame)
    requires Plain(conn, cs, f)
    ensures var conn1, in1 := Spend(conn, f.length), Spend(cs.inflow, f.length);
            OnData(conn, cs, f)
            == Effect(Refund(conn1, 0), cs.(pipe := AfterWrite(cs.pipe, f.data), inflow := Refund(in1, 0)),
                      Announced(conn1, 0), Announced(in1, 0), Fine)
  {
    assert f.length - |f.data| == 0;
    hide Refund, Announced, AfterWrite;
  }

  /** Bytes that fill the connection's window, and after which the stream's is still above what it withholds. */
  lemma PlainData(conn: Window, cs: Stream, f: DataFrame)
    requires Plain(conn, cs, f)
    ensures OnData(conn, cs, f)
         == Effect(Spend(conn, f.length), cs.(pipe := AfterWrite(cs.pipe, f.data), inflow := Spend(cs.inflow, f.length)), 0, 0, Fine)
  {
    Unpadded(conn, cs, f);
    var conn1, in1 := Spend(conn, f.length), Spend(cs.inflow, f.length);
    assert conn1 == Window(0, 0) && 0 <= in1.unsent < INFLOW_MIN_REFRESH && in1.unsent < in1.avail;
    hide *;
    RefundNothing(conn1);
    RefundNothing(in1);
  }

  lemma Refilled(cfg: Config)
    requires Roomy(cfg)
    ensures OnData(Window(MOST, 0), Withheld(cfg, MOST, [], MOST).slots[0].cs, Refill())
         == Effect(Window(0, 0), Full(cfg, MOST).slots[0].cs, 0, 0, Fine)
  {
    var cs := Withheld(cfg, MOST, [], MOST).slots[0].cs;
    IsPlain(cfg);
    PlainData(Window(MOST, 0), cs, Refill());
    assert Spend(Window(MOST, 0), MOST) == Window(0, 0);
    hide OnData, Zeros, Plain;
  }

  lemma IsPlain(cfg: Config)
    requires Roomy(cfg)
    ensures Plain(Window(MOST, 0), Withheld(cfg, MOST, [], MOST).slots[0].cs, Refill()) && Refill().length == MOST
    ensures var cs := Withheld(cfg, MOST, [], MOST).slots[0].cs;
            cs.(pipe := AfterWrite(cs.pipe, Refill().data), inflow := Spend(cs.inflow, MOST)) == Full(cfg, MOST).slots[0].cs
  {
    ZerosAdd(cfg.Granted() - MOST, MOST);
    hide Zeros;
  }

  lemma ZerosAdd(a: nat, b: nat)
    ensures Zeros(a) + Zeros(b) == Zeros(a + b) && |Zeros(b)| == b
  {
  }

  /** What is read and refunded of a spent connection is announced at once, but withheld from the stream; the peer then
      sends as much again. */
  lemma Withholding(cfg: Config) returns (steps: seq<Step>)
    requires Roomy(cfg)
    ensures Allowed(Full(cfg, 0), steps) && Run(Full(cfg, 0), steps) == Full(cfg, MOST)
  {
    hide Allowed, Run, Full, Refill;
    ReadSome(cfg);
    AnnounceOne(Withheld(cfg, MOST, [Update(OnConn, MOST)], 0), MOST);
    FillAgain(cfg);
    RunAppend(Full(cfg, 0), [ReadBody(0, MOST), RefundRead(0)], [WriteOut(0), PeerReceive]);
    RunAppend(Full(cfg, 0), [ReadBody(0, MOST), RefundRead(0)] + [WriteOut(0), PeerReceive], [PeerData(0, Refill()), Deliver]);
    steps := [ReadBody(0, MOST), RefundRead(0)] + [WriteOut(0), PeerReceive] + [PeerData(0, Refill()), Deliver];
  }

  /** The body is closed: its bytes go back to the connection only. */
  function AfterClosing(cfg: Config, u: nat, pending: seq<ClientFrame>, connWin: nat): State {
    var c, s := cfg.Granted(), Full(cfg, u);
    s.(conn := Window(c, 0), pending := pending, peer := s.peer.(connWin := connWin),
       slots := [s.slots[0].(cs := s.slots[0].cs.(pipe := PipeState(None, c, None, Some(Failure(0)), false)), closing := Closed)])
  }

  lemma Closing(cfg: Config, u: nat)
    requires cfg.Legal() && cfg.Agreed()
    ensures Allowed(Full(cfg, u), [CloseBody(0), RefundClose(0)])
    ensures Run(Full(cfg, u), [CloseBody(0), RefundClose(0)]) == AfterClosing(cfg, u, [Update(OnConn, cfg.Granted())], 0)
  {
    ConfigFacts(cfg);
    var c, s := cfg.Granted(), Full(cfg, u);
    assert Apply(Apply(s, CloseBody(0)), RefundClose(0)) == AfterClosing(cfg, u, [Update(OnConn, c)], 0);
    RunTwo(s, CloseBody(0), RefundClose(0));
  }

  /** One frame more than the stream has window for. */
  lemma OneFrameMore(cfg: Config, u: nat) returns (f: DataFrame)
    requires cfg.Legal() && cfg.Agreed() && cfg.w0 > STREAM_FLOW
    requires 0 <= STREAM_FLOW - cfg.Granted() - u < Min(cfg.Granted(), cfg.maxFrame)
    ensures var s := AfterClosing(cfg, u, [], cfg.Granted());
            Allowed(s, [PeerData(0, f), Deliver]) && Run(s, [PeerData(0, f), Deliver]).verdict == FlowControlError
  {
    var n := STREAM_FLOW - cfg.Granted() - u + 1;
    f := DataFrame(n, Zeros(n), false);
    var s := AfterClosing(cfg, u, [], cfg.Granted());
    assert Apply(Apply(s, PeerData(0, f)), Deliver).verdict == FlowControlError;
    RunTwo(s, PeerData(0, f), Deliver);
  }

  lemma AccusedFrom(cfg: Config, u: nat) returns (steps: seq<Step>)
    requires cfg.Legal() && cfg.Agreed() && cfg.w0 > STREAM_FLOW
    requires 0 <= STREAM_FLOW - cfg.Granted() - u < Min(cfg.Granted(), cfg.maxFrame)
    ensures Allowed(Full(cfg, u), steps) && Run(Full(cfg, u), steps).verdict == FlowControlError
  {
    var c := cfg.Granted();
    Closing(cfg, u);
    AnnounceOne(AfterClosing(cfg, u, [Update(OnConn, c)], 0), c);
    var f := OneFrameMore(cfg, u);
    hide Allowed, Run, Full;
    RunAppend(Full(cfg, u), [CloseBody(0), RefundClose(0)], [WriteOut(0), PeerReceive]);
    RunAppend(Full(cfg, u), [CloseBody(0), RefundClose(0)] + [WriteOut(0), PeerReceive], [PeerData(0, f), Deliver]);
    steps := [CloseBody(0), RefundClose(0)] + [WriteOut(0), PeerReceive] + [PeerData(0, f), Deliver];
  }

  /** A connection window that exceeds the stream's needs no close: the peer sends one byte past the stream's. */
  lemma AccusedByOneByte(cfg: Config) returns (s: State)
    requires cfg.Legal() && cfg.Agreed() && cfg.w0 > STREAM_FLOW && cfg.Granted() > STREAM_FLOW
    ensures Reachable(cfg, s) && s.verdict == FlowControlError
  {
    ConfigFacts(cfg);
    hide Config.Own, Config.Granted;
    var steps := Flood(cfg, STREAM_FLOW);
    var f := DataFrame(1, Zeros(1), false);
    var s0 := Flooded(cfg, STREAM_FLOW);
    s := Apply(Apply(s0, PeerData(0, f)), Deliver);
    RunTwo(s0, PeerData(0, f), Deliver);
    hide Apply, Init, Flooded;
    RunAppend(Init(cfg), steps, [PeerData(0, f), Deliver]);
    assert Run(Init(cfg), steps + [PeerData(0, f), Deliver]) == s;
  }

  /** A stream's window that is smaller than announced. */
  lemma AccusedForStream(cfg: Config) returns (s: State)
    requires cfg.Legal() && cfg.Agreed() && CanAccuse(cfg)
    ensures Reachable(cfg, s) && s.verdict == FlowControlError
  {
    ConfigFacts(cfg);
    hide Allowed, Run, Init, Full, Flooded, Config.Own, Config.Granted;
    var c := cfg.Granted();
    if c > STREAM_FLOW {
      s := AccusedByOneByte(cfg);
    } else {
      var steps := Flood(cfg, c);
      FloodedIsFull(cfg);
      var more: seq<Step>;
      if STREAM_FLOW - c < Min(c, cfg.maxFrame) {
        more := AccusedFrom(cfg, 0);
      } else {
        var with := Withholding(cfg);
        var last := AccusedFrom(cfg, MOST);
        RunAppend(Full(cfg, 0), with, last);
        more := with + last;
      }
      RunAppend(Init(cfg), steps, more);
      s := Run(Init(cfg), steps + more);
    }
  }

  lemma FloodedIsFull(cfg: Config)
    requires cfg.Agreed()
    ensures Flooded(cfg, cfg.Granted()) == Full(cfg, 0)
  {
  }

  // ----- The connection's own window that is smaller than announced -----

  /** n streams, each with one byte that nobody reads. */
  function OneEach(cfg: Config, n: nat): State {
    State(cfg, Window(cfg.Own() - n, 0), seq(n, i => OneByte()), [], [], [],
          Peer(true, false, cfg.w0, cfg.Granted() - n, seq(n, i => PeerStream(true, cfg.w0 - 1, true, false))), 0, Fine)
  }

  function OneByte(): Slot {
    Slot(Stream(Window(STREAM_FLOW - 1, 0), PipeState(Some([0]), 0, None, None, false), false, true, false, false, -1, None),
         true, 0, NotClosed)
  }

  /** The next stream is opened and answered. */
  function NextAnswered(cfg: Config, n: nat): State {
    var s := OneEach(cfg, n);
    s.(slots := s.slots + [NewSlot()], peer := s.peer.(streams := s.peer.streams + [PeerStream(true, cfg.w0, true, false)]))
  }

  function NewSlot(): Slot {
    Slot(Stream(Window(STREAM_FLOW, 0), PipeState(Some([]), 0, None, None, false), false, true, false, false, -1, None),
         true, 0, NotClosed)
  }

  lemma OpenNext(cfg: Config, n: nat) returns (steps: seq<Step>)
    ensures Allowed(OneEach(cfg, n), steps) && Run(OneEach(cfg, n), steps) == NextAnswered(cfg, n)
  {
    hide Config.Own, Config.Granted, OneByte;
    var s0 := OneEach(cfg, n);
    var s1 := Apply(s0, OpenStream(false));
    assert s1.pending == [Open(n)] && s1.slots[n] == Slot(NewStream(false), true, 0, NotClosed);
    var s2 := Apply(s1, WriteOut(0));
    assert s2.pending == [] && s2.toPeer == [Open(n)];
    var s3 := Apply(s2, PeerReceive);
    assert s3.toPeer == [] && s3.peer.streams[n] == PeerStream(true, cfg.w0, false, false);
    var s4 := Apply(s3, PeerHeaders(n, false, -1));
    assert s4.toClient == [Headers(n, false, -1)];
    var s5 := Apply(s4, Deliver);
    assert s5.slots == s0.slots + [NewSlot()];
    assert s5.peer.streams == s0.peer.streams + [PeerStream(true, cfg.w0, true, false)];
    assert s5 == NextAnswered(cfg, n);
    RunTwo(s3, PeerHeaders(n, false, -1), Deliver);
    RunTwo(s1, WriteOut(0), PeerReceive);
    hide Apply, Enabled, OneEach, NextAnswered;
    RunAppend(s1, [WriteOut(0), PeerReceive], [PeerHeaders(n, false, -1), Deliver]);
    RunCons(s0, OpenStream(false), [WriteOut(0), PeerReceive] + [PeerHeaders(n, false, -1), Deliver]);
    steps := [OpenStream(false)] + ([WriteOut(0), PeerReceive] + [PeerHeaders(n, false, -1), Deliver]);
  }

  /** A byte for it: received while there is a window, else an accusation. */
  lemma NextByte(cfg: Config, n: nat)
    requires cfg.Legal() && cfg.w0 > 0 && Short(cfg) && n <= cfg.Own()
    ensures Allowed(NextAnswered(cfg, n), [PeerData(n, BYTE), Deliver])
    ensures var t := Run(NextAnswered(cfg, n), [PeerData(n, BYTE), Deliver]);
            if n < cfg.Own() then t == OneEach(cfg, n + 1) else t.verdict == FlowControlError
  {
    ConfigFacts(cfg);
    hide Config.Own, Config.Granted, OneByte, NewSlot;
    var s := NextAnswered(cfg, n);
    NewSlotIsServed();
    assert s.slots[n] == NewSlot();
    var s1 := Apply(s, PeerData(n, BYTE));
    ByteTaken(s.conn);
    assert s1.toClient == [PeerFrame.Data(n, BYTE)] && s1.slots[n] == NewSlot();
    RunTwo(s, PeerData(n, BYTE), Deliver);
    var s2 := Apply(s1, Deliver);
    hide OnData;
    if n < cfg.Own() {
      assert s2.slots == OneEach(cfg, n + 1).slots;
      assert s2.peer.streams == OneEach(cfg, n + 1).peer.streams;
      assert s2.pending == [];
    }
  }

  lemma NewSlotIsServed()
    ensures NewSlot().Served() && !NewSlot().cs.isHead
  {
  }

  lemma ByteTaken(conn: Window)
    requires conn.unsent == 0 && 0 <= conn.avail <= MAX_INT32
    ensures conn.avail > 0 ==> OnData(conn, NewSlot().cs, BYTE) == Effect(Window(conn.avail - 1, 0), OneByte().cs, 0, 0, Fine)
    ensures conn.avail == 0 ==> OnData(conn, NewSlot().cs, BYTE).verdict == FlowControlError
    ensures OneByte() == NewSlot().(cs := OneByte().cs)
  {
    assert [] + BYTE.data == [0];
  }

  lemma {:induction false} FillConnection(cfg: Config, n: nat) returns (steps: seq<Step>)
    requires cfg.Legal() && cfg.w0 > 0 && Short(cfg) && n <= cfg.Own() && !cfg.Broken()
    ensures Allowed(Init(cfg), steps) && Run(Init(cfg), steps) == OneEach(cfg, n)
  {
    hide Config.Own, Config.Granted, Allowed, Run, Init, NextAnswered;
    if n == 0 {
      steps := Greeting(cfg);
      assert OneEach(cfg, 0) == Greeted(cfg);
    } else {
      var before := FillConnection(cfg, n - 1);
      var open := OpenNext(cfg, n - 1);
      NextByte(cfg, n - 1);
      hide OneEach;
      RunAppend(Init(cfg), before, open);
      RunAppend(Init(cfg), before + open, [PeerData(n - 1, BYTE), Deliver]);
      steps := before + open + [PeerData(n - 1, BYTE), Deliver];
    }
  }

  lemma AccusedForConnection(cfg: Config) returns (s: State)
    requires cfg.Legal() && cfg.w0 > 0 && Short(cfg) && !cfg.Broken()
    ensures Reachable(cfg, s) && s.verdict == FlowControlError
  {
    hide Config.Own, Config.Granted, Allowed, Run, Init, NextAnswered, OneEach;
    var n := cfg.Own();
    var before := FillConnection(cfg, n);
    var open := OpenNext(cfg, n);
    NextByte(cfg, n);
    RunAppend(Init(cfg), before, open);
    RunAppend(Init(cfg), before + open, [PeerData(n, BYTE), Deliver]);
    s := Run(Init(cfg), before + open + [PeerData(n, BYTE), Deliver]);
  }

  // ----- The main result -----

  /** Whenever the condition holds, some run accuses a peer that did nothing wrong. */
  lemma CompliantPeerAccused(cfg: Config) returns (s: State)
    requires cfg.Legal() && CanAccuse(cfg)
    ensures Reachable(cfg, s) && s.verdict == FlowControlError
  {
    ConfigFacts(cfg);
    if cfg.w0 > 0 && Short(cfg) {
      s := AccusedForConnection(cfg);
    } else {
      assert cfg.Agreed();
      s := AccusedForStream(cfg);
    }
  }

  /** A compliant peer is never accused exactly when the preface ends the connection, or the windows of the client cover
      all that its announcements let the peer send; for every configuration. */
  lemma PeerNeverAccusedExactlyWhen(cfg: Config)
    requires cfg.Legal()
    ensures (forall s :: Reachable(cfg, s) ==> s.verdict == Fine) <==> !CanAccuse(cfg)
  {
    hide CanAccuse;
    if CanAccuse(cfg) {
      var s := CompliantPeerAccused(cfg);
    } else {
      InitInv(cfg);
      assert AllBacked(Init(cfg));
      forall s | Reachable(cfg, s)
        ensures s.verdict == Fine
      {
        var steps :| Allowed(Init(cfg), steps) && Run(Init(cfg), steps) == s;
        RunIsBacked(Init(cfg), steps);
      }
    }
  }

  /** The condition in terms of what is configured: the extra connection window, the stream window and the frame size. */
  lemma CanAccuseIs(cfg: Config)
    requires cfg.Legal()
    ensures CanAccuse(cfg) <==>
      || (cfg.connFlow >= 0x1_0000_0000 - INITIAL_WINDOW_SIZE && cfg.w0 > 0)
      || (cfg.connFlow <= MAX_INT32 - INITIAL_WINDOW_SIZE && cfg.w0 > STREAM_FLOW
          && var least := STREAM_FLOW - (AnnouncedConnFlow(cfg.connFlow) + INITIAL_WINDOW_SIZE) - (INFLOW_MIN_REFRESH - 1);
             least < AnnouncedConnFlow(cfg.connFlow) + INITIAL_WINDOW_SIZE && least < cfg.maxFrame)
  {
  }
}
