/** What every reachable state of the client, a compliant peer and the two channels has in common. */
module Agreement {
  import opened Base
  import opened Flow
  import opened Pipe
  import opened Inbound
  import opened TwoParty

  const STREAM_FLOW := TRANSPORT_DEFAULT_STREAM_FLOW

  // ----- The invariant -----

  /** One stream on its own: its credit and the bytes it holds never exceed the stream window, nothing of
      it is withheld that could stall it, and nothing is lost while it is served. */
  predicate SlotShape(sl: Slot) {
    var cs := sl.cs;
    && cs.inflow.InRange() && 0 <= cs.inflow.avail
    && (cs.pipe.breakErr.Some? ==> cs.pipe.buf.None?)
    && (cs.pipe.buf.Some? ==> cs.pipe.unread == 0)
    && (!cs.pastHeaders ==> cs.pipe.Len() == 0 && sl.reading == 0)
    && (sl.closing != NotClosed ==> cs.pipe.breakErr.Some?)
    && cs.inflow.Credit() + sl.reading + cs.pipe.Len() <= STREAM_FLOW
    && (sl.Served() ==> cs.inflow.Settled())
    && (sl.Served() && cs.readErr != Some(TooLong) ==> cs.inflow.Credit() + sl.reading + cs.pipe.Len() == STREAM_FLOW)
  }

  /** What the peer may send on stream k, before it learns of the stream and after. */
  function PeerWindow(s: State, k: nat): int
    requires k < |s.peer.streams|
  {
    if s.peer.streams[k].known then s.peer.streams[k].win else s.cfg.w0
  }

  /** The peer's window of stream k, plus DATA on its way here, plus credit on its way there or about to be. */
  function StreamLedger(s: State, k: nat): int
    requires k < |s.peer.streams|
  {
    PeerWindow(s, k) + DataOn(s.toClient, k) + Credit(s.toPeer, OnStream(k)) + Credit(s.pending, OnStream(k))
  }

  function ConnLedger(s: State): int {
    s.peer.connWin + DataTotal(s.toClient) + Credit(s.toPeer, OnConn) + Credit(s.pending, OnConn)
  }

  /** The frames in flight on stream k take a client that has seen (past, closed) to a peer that has sent
      (sent, ended). */
  predicate Orderly(fs: seq<PeerFrame>, k: nat, isHead: bool, past: bool, closed: bool, sent: bool, ended: bool) {
    if fs == [] then past == sent && closed == ended
    else match fs[0]
      case Headers(j, endStream, _) =>
        if j != k then Orderly(fs[1..], k, isHead, past, closed, sent, ended)
        else !closed && (past ==> endStream) && Orderly(fs[1..], k, isHead, true, endStream, sent, ended)
      case Data(j, f) =>
        if j != k then Orderly(fs[1..], k, isHead, past, closed, sent, ended)
        else !closed && past && (isHead ==> f.data == []) && Orderly(fs[1..], k, isHead, past, f.endStream, sent, ended)
  }

  predicate SlotOk(s: State, k: nat)
    requires k < |s.slots| == |s.peer.streams|
  {
    var sl, ps := s.slots[k], s.peer.streams[k];
    && SlotShape(sl)
    && (ps.known ==> 0 <= ps.win)
    && sl.cs.inflow.avail + s.cfg.w0 >= STREAM_FLOW + StreamLedger(s, k)
    && (sl.Served() ==> sl.cs.inflow.avail + s.cfg.w0 == STREAM_FLOW + StreamLedger(s, k))
    && (sl.Served() ==> Orderly(s.toClient, k, sl.cs.isHead, sl.cs.pastHeaders, sl.cs.readClosed, ps.sentHeaders, ps.ended))
  }

  predicate ConnOk(s: State) {
    && s.conn.InRange() && s.conn.Settled()
    && 0 <= s.peer.connWin
    && s.conn.avail - s.cfg.Own() == ConnLedger(s) - s.cfg.Granted()
    && s.conn.Credit() + Held(s.slots) + s.dropped == s.cfg.Own()
    && (0 <= s.cfg.Own() ==> 0 <= s.conn.avail)
  }

  predicate NoSettings(fs: seq<ClientFrame>) {
    forall i :: 0 <= i < |fs| ==> !fs[i].Settings?
  }

  /** SETTINGS is the first thing the peer receives. */
  predicate PrefaceOk(s: State) {
    && NoSettings(s.pending)
    && (if s.peer.ready then s.peer.iw == s.cfg.w0 && NoSettings(s.toPeer)
        else s.toPeer != [] && s.toPeer[0] == Settings(s.cfg.w0) && NoSettings(s.toPeer[1..]))
  }

  /** A peer that the preface drives away has sent nothing before, as no stream can open ahead of the WINDOW_UPDATE; any
      other stays. */
  predicate BrokenOk(s: State) {
    if s.cfg.Broken() then s.toClient == [] && (s.peer.gone || Untouched(s)) else !s.peer.gone
  }

  predicate Untouched(s: State) {
    var update := Update(OnConn, s.cfg.Granted() - INITIAL_WINDOW_SIZE);
    && s.peer.connWin == INITIAL_WINDOW_SIZE
    && (forall k :: 0 <= k < |s.peer.streams| ==> !s.peer.streams[k].known)
    && (if s.peer.ready then s.toPeer != [] && s.toPeer[0] == update else |s.toPeer| > 1 && s.toPeer[1] == update)
  }

  /** Updates in flight concern the connection or one of the first n streams. */
  predicate TargetsOk(fs: seq<ClientFrame>, n: nat) {
    forall i :: 0 <= i < |fs| && fs[i].Update? && fs[i].t.OnStream? ==> fs[i].t.k < n
  }

  predicate FrameOk(s: State, f: PeerFrame) {
    f.k < |s.slots| && (f.Data? ==> |f.f.data| <= f.f.length <= s.cfg.maxFrame)
  }

  predicate FramesOk(s: State) {
    forall i :: 0 <= i < |s.toClient| ==> FrameOk(s, s.toClient[i])
  }

  predicate Core(s: State) {
    && s.cfg.Legal() && s.verdict == Fine
    && |s.slots| == |s.peer.streams|
    && FramesOk(s) && ConnOk(s) && PrefaceOk(s)
    && TargetsOk(s.pending, |s.slots|) && TargetsOk(s.toPeer, |s.slots|)
    && forall k :: 0 <= k < |s.slots| ==> SlotOk(s, k)
  }

  /** The client's own connection window is the smaller one, and in force: a negative one refuses nothing. */
  predicate Short(cfg: Config) {
    0 <= cfg.Own() < cfg.Granted()
  }

  /** A step keeps an invariant, unless it accuses the peer of overrunning a window smaller than announced. */
  predicate Excused(s: State, s': State) {
    s'.verdict != Fine ==> s'.verdict == FlowControlError && (s.cfg.w0 > STREAM_FLOW || Short(s.cfg))
  }

  predicate CoreKeeps(s: State, s': State) {
    (s'.verdict == Fine ==> Core(s')) && Excused(s, s')
  }

  predicate Inv(s: State) {
    Core(s) && BrokenOk(s)
  }

  predicate Keeps(s: State, s': State) {
    (s'.verdict == Fine ==> Inv(s')) && Excused(s, s')
  }

  lemma ConfigFacts(cfg: Config)
    ensures cfg.Own() <= cfg.Granted() && cfg.Own() <= MAX_INT32 && INITIAL_WINDOW_SIZE <= cfg.Granted()
    ensures if cfg.Broken() then MIN_INT32 <= cfg.Own() < 0 else MIN_INT32 <= cfg.Own() - cfg.Granted()
  {
  }

  // ----- One stream, one frame -----

  /** DATA that fits both windows: the connection's credit and the stored bytes stay in balance, and each
      window moves by what was taken and what is announced. */
  lemma DataStep(conn: Window, sl: Slot, f: DataFrame)
    requires SlotShape(sl) && sl.Served() && conn.InRange() && conn.Settled()
    requires |f.data| <= f.length <= sl.cs.inflow.avail && conn.Covers(f.length) && MIN_INT32 <= conn.avail - f.length
    requires sl.cs.pastHeaders && !sl.cs.readClosed && (sl.cs.isHead ==> f.data == [])
    ensures var e := OnData(conn, sl.cs, f);
            && e.verdict == Fine && 0 <= e.sendConn && 0 <= e.sendStream
            && e.conn.InRange() && e.conn.Settled()
            && e.conn.avail == conn.avail - f.length + e.sendConn && (0 <= conn.avail ==> 0 <= e.conn.avail)
            && e.cs.inflow.avail == sl.cs.inflow.avail - f.length + e.sendStream
            && SlotShape(sl.(cs := e.cs))
            && e.conn.Credit() + sl.(cs := e.cs).Held() == conn.Credit() + sl.Held()
            && e.cs.pastHeaders && e.cs.isHead == sl.cs.isHead
            && (!e.cs.readAborted ==> e.cs.readClosed == f.endStream)
  {
    hide Refund, Announced, Spend, Window.Covers;
    SpendCovered(conn, f.length);
    SpendCovered(sl.cs.inflow, f.length);
    if f.length > 0 {
      var refused := f.data != [] && !WriteResult(sl.cs.pipe).Accepted?;
      var refund := if refused then f.length else f.length - |f.data|;
      RefundConserves(Spend(conn, f.length), refund);
      if !refused {
        RefundConserves(Spend(sl.cs.inflow, f.length), refund);
      }
    }
  }

  lemma SpendCovered(w: Window, n: nat)
    requires w.InRange() && MIN_INT32 <= w.avail - n && n < 0x8000_0000
    ensures Spend(w, n) == Window(w.avail - n, w.unsent) && Spend(w, n).InRange()
    ensures 0 <= w.avail ==> (w.Covers(n) <==> n <= w.avail)
  {
  }

  lemma DataOverrun(conn: Window, sl: Slot, f: DataFrame)
    requires SlotShape(sl) && sl.Served() && conn.InRange() && |f.data| <= f.length
    requires f.length > sl.cs.inflow.avail || !conn.Covers(f.length)
    requires sl.cs.pastHeaders && !sl.cs.readClosed && (sl.cs.isHead ==> f.data == [])
    ensures OnData(conn, sl.cs, f).verdict == FlowControlError
  {
  }

  lemma DataUnknownStep(conn: Window, length: nat)
    requires conn.InRange() && conn.Settled() && length < 0x100_0000 && conn.Covers(length) && MIN_INT32 <= conn.avail - length
    ensures var (conn', send, verdict) := OnDataUnknown(conn, true, length);
            && verdict == Fine && 0 <= send && conn'.InRange() && conn'.Settled()
            && conn'.avail == conn.avail - length + send && conn'.Credit() == conn.Credit() && (0 <= conn.avail ==> 0 <= conn'.avail)
  {
  }

  lemma HeadersStep(sl: Slot, endStream: bool, contentLength: int)
    requires SlotShape(sl) && sl.Served() && !sl.cs.readClosed && (sl.cs.pastHeaders ==> endStream)
    ensures var (cs, verdict) := OnHeaders(sl.cs, endStream, contentLength);
            && verdict == Fine && SlotShape(sl.(cs := cs)) && sl.(cs := cs).Held() == sl.Held()
            && cs.inflow == sl.cs.inflow && cs.pastHeaders && cs.readClosed == endStream
            && cs.isHead == sl.cs.isHead && !cs.readAborted
  {
    hide Window.InRange, Window.Settled;
  }

  lemma BodyReadStep(sl: Slot, room: nat)
    requires SlotShape(sl) && sl.reading == 0 && sl.cs.pastHeaders
    ensures var e := OnBodyRead(sl.cs, room);
            var sl' := sl.(cs := e.cs, reading := e.n);
            && SlotShape(sl') && sl'.Held() + e.dropped == sl.Held()
            && e.cs.inflow == sl.cs.inflow && e.cs.pastHeaders
            && e.cs.readClosed == sl.cs.readClosed && e.cs.isHead == sl.cs.isHead && e.cs.readAborted == sl.cs.readAborted
  {
    hide Window.InRange, Window.Settled;
  }

  lemma ReadRefundStep(conn: Window, sl: Slot)
    requires SlotShape(sl) && sl.reading > 0 && conn.InRange() && conn.Settled() && conn.Fits(sl.reading)
    ensures var e := OnReadRefund(conn, sl.cs, sl.reading);
            var sl' := sl.(cs := e.cs, reading := 0);
            && e.verdict == Fine && 0 <= e.sendConn && 0 <= e.sendStream
            && e.conn.InRange() && e.conn.Settled() && e.conn.avail == conn.avail + e.sendConn
            && SlotShape(sl') && e.cs.inflow.avail == sl.cs.inflow.avail + e.sendStream
            && e.conn.Credit() + sl'.Held() == conn.Credit() + sl.Held()
            && e.cs == sl.cs.(inflow := e.cs.inflow)
  {
  }

  lemma CloseStep(sl: Slot)
    requires SlotShape(sl) && sl.closing == NotClosed
    ensures var sl' := sl.(cs := OnBodyClose(sl.cs, Failure(0)), closing := Breaking);
            SlotShape(sl') && sl'.Held() == sl.Held() && sl'.cs == sl.cs.(pipe := sl'.cs.pipe)
  {
    hide Window.InRange, Window.Settled;
  }

  lemma EndPipeStep(sl: Slot, e: Error)
    requires SlotShape(sl)
    ensures var sl' := sl.(cs := sl.cs.(pipe := AfterClose(sl.cs.pipe, e, false)));
            SlotShape(sl') && sl'.Held() == sl.Held()
  {
    hide Window.InRange, Window.Settled;
  }

  lemma NoLongerServed(sl: Slot)
    requires SlotShape(sl)
    ensures SlotShape(sl.(cs := EndStreamError(sl.cs))) && SlotShape(sl.(live := false))
  {
    hide Window.InRange, Window.Settled;
  }

  lemma CloseRefundStep(conn: Window, sl: Slot)
    requires SlotShape(sl) && sl.closing == Breaking && conn.InRange() && conn.Settled() && conn.Fits(sl.cs.pipe.Len())
    ensures var (conn', send, verdict) := OnCloseRefund(conn, sl.cs);
            var sl' := sl.(closing := Closed);
            && verdict == Fine && 0 <= send && conn'.InRange() && conn'.Settled() && conn'.avail == conn.avail + send
            && SlotShape(sl') && conn'.Credit() + sl'.Held() == conn.Credit() + sl.Held()
  {
  }

  // ----- Steps of the client -----

  lemma {:induction false} OrderlyAppend(fs: seq<PeerFrame>, f: PeerFrame, k: nat, isHead: bool, past: bool, closed: bool,
                                         ps: PeerStream, ps': PeerStream)
    requires Orderly(fs, k, isHead, past, closed, ps.sentHeaders, ps.ended)
    requires if f.k != k then ps' == ps
             else !ps.ended && (if f.Headers? then (ps.sentHeaders ==> f.endStream) && ps'.sentHeaders && ps'.ended == f.endStream
                                else ps.sentHeaders && (isHead ==> f.f.data == []) && ps'.sentHeaders && ps'.ended == f.f.endStream)
    ensures Orderly(fs + [f], k, isHead, past, closed, ps'.sentHeaders, ps'.ended)
  {
    if fs == [] {
      assert fs + [f] == [f] && [f][1..] == [];
    } else {
      assert (fs + [f])[1..] == fs[1..] + [f] && (fs + [f])[0] == fs[0];
      match fs[0]
      case Headers(j, e, _) =>
        OrderlyAppend(fs[1..], f, k, isHead, if j == k then true else past, if j == k then e else closed, ps, ps');
      case Data(j, g) =>
        OrderlyAppend(fs[1..], f, k, isHead, past, if j == k then g.endStream else closed, ps, ps');
    }
  }

  lemma FramesOkTail(s: State, s': State)
    requires FramesOk(s) && s.toClient != []
    requires s'.toClient == s.toClient[1..] && |s'.slots| == |s.slots| && s'.cfg == s.cfg
    ensures FramesOk(s')
  {
    forall i | 0 <= i < |s'.toClient| ensures FrameOk(s', s'.toClient[i]) {
      assert FrameOk(s, s.toClient[i + 1]);
    }
  }

  /** DATA that arrives is within what the peer was granted; that the client's own window then refuses it takes a smaller
      one that is not negative. */
  lemma ArrivingData(s: State)
    requires Core(s) && BrokenOk(s) && s.toClient != [] && s.toClient[0].Data? && FrameOk(s, s.toClient[0])
    ensures var len := s.toClient[0].f.length;
            && len < 0x100_0000
            && MIN_INT32 <= s.conn.avail - len && (0 <= s.cfg.Own() && s.conn.Covers(len) ==> 0 <= s.conn.avail - len)
            && (s.conn.Covers(len) || Short(s.cfg))
  {
    ConfigFacts(s.cfg);
    hide Config.Own, Config.Granted, SlotOk, FramesOk;
  }

  lemma DeliverServedDataKeeps(s: State)
    requires Core(s) && BrokenOk(s) && s.toClient != [] && s.toClient[0].Data?
    requires FrameOk(s, s.toClient[0]) && s.slots[s.toClient[0].k].Served()
    ensures CoreKeeps(s, Apply(s, Deliver))
  {
    var k, f := s.toClient[0].k, s.toClient[0].f;
    ArrivingData(s);
    StreamOf(s, k);
    if f.length > s.slots[k].cs.inflow.avail || !s.conn.Covers(f.length) {
      DataOverrun(s.conn, s.slots[k], f);
      hide OnData, SlotShape, BrokenOk, Short, Core, FrameOk;
    } else {
      hide *;
      DeliverCoveredData(s);
    }
  }

  lemma DeliverCoveredData(s: State)
    requires Core(s) && BrokenOk(s) && s.toClient != [] && s.toClient[0].Data?
    requires FrameOk(s, s.toClient[0]) && s.slots[s.toClient[0].k].Served()
    requires s.toClient[0].f.length <= s.slots[s.toClient[0].k].cs.inflow.avail && s.conn.Covers(s.toClient[0].f.length)
    ensures CoreKeeps(s, Apply(s, Deliver))
  {
    var k, s' := s.toClient[0].k, Apply(s, Deliver);
    var e := OnData(s.conn, s.slots[k].cs, s.toClient[0].f);
    DeliveredConn(s);
    UpdatesOk(s.pending, k, e.sendConn, e.sendStream, |s.slots|);
    FramesOkTail(s, s');
    forall j | 0 <= j < |s'.slots| ensures SlotOk(s', j) {
      DeliveredSlot(s, j);
    }
    hide SlotOk, ConnOk, FramesOk, OnData, BrokenOk, FrameOk, NoSettings, TargetsOk;
  }

  lemma UpdatesOk(a: seq<ClientFrame>, k: nat, c: int, d: int, n: nat)
    requires NoSettings(a) && TargetsOk(a, n) && k < n
    ensures var b := a + (Updates(OnConn, c) + Updates(OnStream(k), d));
            NoSettings(b) && TargetsOk(b, n)
  {
  }

  lemma DeliveredConn(s: State)
    requires Core(s) && BrokenOk(s) && s.toClient != [] && s.toClient[0].Data?
    requires FrameOk(s, s.toClient[0]) && s.slots[s.toClient[0].k].Served()
    requires s.toClient[0].f.length <= s.slots[s.toClient[0].k].cs.inflow.avail && s.conn.Covers(s.toClient[0].f.length)
    ensures ConnOk(Apply(s, Deliver)) && Apply(s, Deliver).verdict == Fine
    ensures |Apply(s, Deliver).slots| == |s.slots|
  {
    var k, f := s.toClient[0].k, s.toClient[0].f;
    var sl, e := s.slots[k], OnData(s.conn, s.slots[k].cs, f);
    ArrivingData(s);
    StreamOf(s, k);
    assert Orderly(s.toClient, k, sl.cs.isHead, sl.cs.pastHeaders, sl.cs.readClosed, s.peer.streams[k].sentHeaders, s.peer.streams[k].ended);
    DataStep(s.conn, sl, f);
    HeldUpdate(s.slots, k, sl.(cs := e.cs));
    CreditOfUpdates(s.pending, k, e.sendConn, e.sendStream, OnConn);
    assert ConnOk(s);
    hide OnData, SlotShape, Window.Settled, Window.InRange, Window.Covers, FramesOk, BrokenOk, Config.Own, Config.Granted, SlotOk, Core, Orderly, FrameOk,
      PrefaceOk, TargetsOk, NoSettings;
  }

  lemma DeliveredSlot(s: State, j: nat)
    requires Core(s) && BrokenOk(s) && s.toClient != [] && s.toClient[0].Data? && j < |s.slots|
    requires FrameOk(s, s.toClient[0]) && s.slots[s.toClient[0].k].Served()
    requires s.toClient[0].f.length <= s.slots[s.toClient[0].k].cs.inflow.avail && s.conn.Covers(s.toClient[0].f.length)
    ensures SlotOk(Apply(s, Deliver), j)
  {
    ArrivingData(s);
    hide OnData, SlotShape, Window.Settled, Window.InRange, Window.Covers, FramesOk, BrokenOk, Config.Own, Config.Granted;
    var k, f := s.toClient[0].k, s.toClient[0].f;
    assert SlotOk(s, k) && SlotOk(s, j);
    var e := OnData(s.conn, s.slots[k].cs, f);
    DataStep(s.conn, s.slots[k], f);
    CreditOfUpdates(s.pending, k, e.sendConn, e.sendStream, OnStream(j));
  }

  lemma DeliverUnservedDataKeeps(s: State)
    requires Core(s) && BrokenOk(s) && s.toClient != [] && s.toClient[0].Data? && FrameOk(s, s.toClient[0])
    requires !s.slots[s.toClient[0].k].Served()
    ensures CoreKeeps(s, Apply(s, Deliver))
  {
    ArrivingData(s);
    var f := s.toClient[0].f;
    if !s.conn.Covers(f.length) {
      UnknownOverrun(s.conn, f.length);
      hide OnDataUnknown, Core, BrokenOk, Short;
    } else {
      hide OnDataUnknown, SlotShape, Window.Settled, Window.InRange, Window.Covers, BrokenOk, Config.Own, Config.Granted;
      var (conn, send, verdict) := OnDataUnknown(s.conn, true, f.length);
      DataUnknownStep(s.conn, f.length);
      CreditOfUpdates(s.pending, 0, send, 0, OnConn);
      var s' := Apply(s, Deliver);
      FramesOkTail(s, s');
      forall j | 0 <= j < |s'.slots| ensures SlotOk(s', j) {
        assert SlotOk(s, j);
        CreditOfUpdates(s.pending, 0, send, 0, OnStream(j));
      }
    }
  }

  lemma UnknownOverrun(conn: Window, length: nat)
    requires conn.InRange() && !conn.Covers(length)
    ensures OnDataUnknown(conn, true, length).2 != Fine
    ensures conn.Fits(length) ==> OnDataUnknown(conn, true, length).2 == FlowControlError
  {
  }

  lemma {:induction false} CreditNone(fs: seq<ClientFrame>, n: nat)
    requires TargetsOk(fs, n)
    ensures Credit(fs, OnStream(n)) == 0
  {
    if fs != [] {
      assert forall i :: 0 <= i < |fs[1..]| ==> fs[1..][i] == fs[i + 1];
      CreditNone(fs[1..], n);
    }
  }

  lemma {:induction false} FramesNone(fs: seq<PeerFrame>, n: nat, isHead: bool)
    requires forall i :: 0 <= i < |fs| ==> fs[i].k < n
    ensures DataOn(fs, n) == 0 && Orderly(fs, n, isHead, false, false, false, false)
  {
    if fs != [] {
      assert forall i :: 0 <= i < |fs[1..]| ==> fs[1..][i] == fs[i + 1];
      assert fs[0].k < n;
      FramesNone(fs[1..], n, isHead);
    }
  }

  lemma DeliverHeadersKeeps(s: State)
    requires Core(s) && s.toClient != [] && s.toClient[0].Headers?
    ensures CoreKeeps(s, Apply(s, Deliver))
  {
    hide OnHeaders, SlotShape, Window.Settled, Window.InRange;
    var k, h := s.toClient[0].k, s.toClient[0];
    assert FrameOk(s, h) && SlotOk(s, k);
    var s' := Apply(s, Deliver);
    FramesOkTail(s, s');
    if s.slots[k].Served() {
      HeadersStep(s.slots[k], h.endStream, h.contentLength);
      HeldUpdate(s.slots, k, s'.slots[k]);
    }
    forall j | 0 <= j < |s'.slots| ensures SlotOk(s', j) {
      assert SlotOk(s, j);
    }
  }

  /** A step that changes one stream, keeps its window and moves no frame. */
  lemma LocalKeeps(s: State, k: nat, x: Slot, dropped: nat)
    requires Core(s) && k < |s.slots|
    requires SlotShape(x) && x.Held() + dropped == s.slots[k].Held() + s.dropped
    requires x.cs.inflow == s.slots[k].cs.inflow
    requires x.Served() ==> s.slots[k].Served() && x.cs.isHead == s.slots[k].cs.isHead
                            && x.cs.pastHeaders == s.slots[k].cs.pastHeaders && x.cs.readClosed == s.slots[k].cs.readClosed
    ensures Core(s.(slots := s.slots[k := x], dropped := dropped))
  {
    hide SlotShape;
    var s' := s.(slots := s.slots[k := x], dropped := dropped);
    HeldUpdate(s.slots, k, x);
    forall j | 0 <= j < |s'.slots| ensures SlotOk(s', j) {
      assert SlotOk(s, j);
    }
    forall i | 0 <= i < |s'.toClient| ensures FrameOk(s', s'.toClient[i]) {
      assert FrameOk(s, s.toClient[i]);
    }
  }

  lemma LocalStepsKeep(s: State, step: Step)
    requires Core(s) && Enabled(s, step)
    requires step.ReadBody? || step.CloseBody? || step.EndPipe? || step.Abort? || step.Forget?
    ensures Core(Apply(s, step))
  {
    hide Core, OnBodyRead, OnBodyClose, SlotShape, AfterClose;
    var k := step.k;
    assert SlotOk(s, k) && k < |s.slots| by { StreamOf(s, k); }
    var x := Apply(s, step).slots[k];
    match step {
      case ReadBody(_, room) => BodyReadStep(s.slots[k], room);
      case CloseBody(_) => CloseStep(s.slots[k]);
      case EndPipe(_, e) => EndPipeStep(s.slots[k], e);
      case Abort(_) => NoLongerServed(s.slots[k]);
      case Forget(_) => NoLongerServed(s.slots[k]);
    }
    LocalKeeps(s, k, x, Apply(s, step).dropped);
  }

  lemma StreamOf(s: State, k: nat)
    requires Core(s) && k < |s.slots|
    ensures |s.slots| == |s.peer.streams| && SlotOk(s, k)
  {
  }

  /** A refund to the connection and to stream k, with its announcements queued for writing. */
  lemma RefundKeeps(s: State, k: nat, x: Slot, conn: Window, c: nat, d: nat)
    requires Core(s) && k < |s.slots|
    requires conn.InRange() && conn.Settled() && conn.avail == s.conn.avail + c
    requires conn.Credit() + x.Held() == s.conn.Credit() + s.slots[k].Held()
    requires SlotShape(x) && x.cs.inflow.avail == s.slots[k].cs.inflow.avail + d
    requires x.Served() == s.slots[k].Served() && x.cs.isHead == s.slots[k].cs.isHead
             && x.cs.pastHeaders == s.slots[k].cs.pastHeaders && x.cs.readClosed == s.slots[k].cs.readClosed
    ensures Core(s.(slots := s.slots[k := x], conn := conn,
                   pending := s.pending + (Updates(OnConn, c) + Updates(OnStream(k), d))))
  {
    hide SlotShape, Window.InRange, Window.Settled;
    var s' := s.(slots := s.slots[k := x], conn := conn,
                 pending := s.pending + (Updates(OnConn, c) + Updates(OnStream(k), d)));
    HeldUpdate(s.slots, k, x);
    CreditOfUpdates(s.pending, k, c, d, OnConn);
    forall j | 0 <= j < |s'.slots| ensures SlotOk(s', j) {
      assert SlotOk(s, j);
      CreditOfUpdates(s.pending, k, c, d, OnStream(j));
    }
    forall i | 0 <= i < |s'.toClient| ensures FrameOk(s', s'.toClient[i]) {
      assert FrameOk(s, s.toClient[i]);
    }
  }

  /** What the connection owes for stream k fits into its window. */
  lemma OwedFits(s: State, k: nat)
    requires Core(s) && k < |s.slots|
    ensures s.conn.Fits(s.slots[k].Held()) && s.conn.InRange() && s.conn.Settled()
  {
    HeldUpdate(s.slots, k, s.slots[k]);
  }

  lemma RefundStepsKeep(s: State, step: Step)
    requires Core(s) && Enabled(s, step) && (step.RefundRead? || step.RefundClose?)
    ensures Core(Apply(s, step))
  {
    hide Core, OnReadRefund, OnCloseRefund, Window.Settled;
    var k := step.k;
    StreamOf(s, k);
    OwedFits(s, k);
    var s' := Apply(s, step);
    if step.RefundRead? {
      var e := OnReadRefund(s.conn, s.slots[k].cs, s.slots[k].reading);
      ReadRefundStep(s.conn, s.slots[k]);
      RefundKeeps(s, k, s'.slots[k], s'.conn, e.sendConn, e.sendStream);
    } else {
      var (conn, send, verdict) := OnCloseRefund(s.conn, s.slots[k].cs);
      CloseRefundStep(s.conn, s.slots[k]);
      RefundKeeps(s, k, s'.slots[k], conn, send, 0);
      assert Updates(OnConn, send) + Updates(OnStream(k), 0) == Updates(OnConn, send);
    }
  }

  lemma OpenStreamKeeps(s: State, isHead: bool)
    requires Core(s)
    ensures Core(Apply(s, OpenStream(isHead)))
  {
    var n, s' := |s.slots|, Apply(s, OpenStream(isHead));
    var f := Open(n);
    HeldAppend(s.slots, s'.slots[n]);
    CreditNone(s.pending, n);
    CreditNone(s.toPeer, n);
    assert forall i :: 0 <= i < |s.toClient| ==> FrameOk(s, s.toClient[i]);
    FramesNone(s.toClient, n, isHead);
    CreditAppend(s.pending, [f], OnConn);
    CreditOne(f, OnConn);
    forall j | 0 <= j <= n ensures SlotOk(s', j) {
      CreditAppend(s.pending, [f], OnStream(j));
      CreditOne(f, OnStream(j));
      if j < n {
        assert SlotOk(s, j);
      }
    }
    forall i | 0 <= i < |s'.toClient| ensures FrameOk(s', s'.toClient[i]) {
      assert FrameOk(s, s.toClient[i]);
    }
  }

  lemma WriteOutKeeps(s: State, i: nat)
    requires Core(s) && i < |s.pending|
    ensures Core(Apply(s, WriteOut(i)))
  {
    hide SlotShape, Window.InRange, Window.Settled;
    var f, s' := s.pending[i], Apply(s, WriteOut(i));
    CreditRemove(s.pending, i, OnConn);
    CreditAppend(s.toPeer, [f], OnConn);
    CreditOne(f, OnConn);
    forall j | 0 <= j < |s'.slots| ensures SlotOk(s', j) {
      assert SlotOk(s, j);
      CreditRemove(s.pending, i, OnStream(j));
      CreditAppend(s.toPeer, [f], OnStream(j));
      CreditOne(f, OnStream(j));
    }
    forall i | 0 <= i < |s'.toClient| ensures FrameOk(s', s'.toClient[i]) {
      assert FrameOk(s, s.toClient[i]);
    }
    forall n | 0 <= n < |s'.pending| ensures exists m :: 0 <= m < |s.pending| && s'.pending[n] == s.pending[m] {
      assert s'.pending[n] == s.pending[if n < i then n else n + 1];
    }
    assert s.toPeer != [] ==> s'.toPeer[1..] == s.toPeer[1..] + [f];
  }

  // ----- Steps of the peer -----

  /** So a stream the peer has not heard of has nothing in flight. */
  lemma StreamWindowBound(sl: Slot)
    requires SlotShape(sl)
    ensures sl.cs.inflow.avail <= STREAM_FLOW
  {
  }

  lemma PeerReceiveKeeps(s: State)
    requires Core(s) && s.toPeer != []
    ensures Core(Apply(s, PeerReceive))
  {
    hide SlotShape, Window.InRange, Window.Settled;
    var s' := Apply(s, PeerReceive);
    forall j | 0 <= j < |s'.slots| ensures SlotOk(s', j) {
      assert SlotOk(s, j);
      StreamWindowBound(s.slots[j]);
    }
    forall i | 0 <= i < |s'.toClient| ensures FrameOk(s', s'.toClient[i]) {
      assert FrameOk(s, s.toClient[i]);
    }
    assert forall i :: 0 <= i < |s'.toPeer| ==> s'.toPeer[i] == s.toPeer[i + 1];
  }

  lemma PeerSendKeeps(s: State, step: Step)
    requires Core(s) && Enabled(s, step) && (step.PeerHeaders? || step.PeerData?)
    ensures Core(Apply(s, step))
  {
    hide SlotShape, Window.InRange, Window.Settled;
    var s' := Apply(s, step);
    var f := s'.toClient[|s.toClient|];
    forall j | 0 <= j < |s'.slots| ensures SlotOk(s', j) {
      assert SlotOk(s, j);
      DataAppend(s.toClient, f, j);
      var sl := s.slots[j];
      if sl.Served() {
        OrderlyAppend(s.toClient, f, j, sl.cs.isHead, sl.cs.pastHeaders, sl.cs.readClosed, s.peer.streams[j], s'.peer.streams[j]);
      }
    }
    DataAppend(s.toClient, f, 0);
    forall i | 0 <= i < |s'.toClient| ensures FrameOk(s', s'.toClient[i]) {
      assert i < |s.toClient| ==> FrameOk(s, s.toClient[i]);
    }
  }

  lemma CoreStep(s: State, step: Step)
    requires Core(s) && BrokenOk(s) && Enabled(s, step)
    ensures CoreKeeps(s, Apply(s, step))
  {
    match step {
      case OpenStream(isHead) => OpenStreamKeeps(s, isHead);
      case WriteOut(i) => WriteOutKeeps(s, i);
      case Deliver =>
        assert FrameOk(s, s.toClient[0]);
        if s.toClient[0].Headers? {
          DeliverHeadersKeeps(s);
        } else if s.slots[s.toClient[0].k].Served() {
          DeliverServedDataKeeps(s);
        } else {
          DeliverUnservedDataKeeps(s);
        }
      case RefundRead(_) => RefundStepsKeep(s, step);
      case RefundClose(_) => RefundStepsKeep(s, step);
      case PeerReceive => PeerReceiveKeeps(s);
      case PeerHeaders(_, _, _) => PeerSendKeeps(s, step);
      case PeerData(_, _) => PeerSendKeeps(s, step);
      case ReadBody(_, _) => LocalStepsKeep(s, step);
      case CloseBody(_) => LocalStepsKeep(s, step);
      case EndPipe(_, _) => LocalStepsKeep(s, step);
      case Abort(_) => LocalStepsKeep(s, step);
      case Forget(_) => LocalStepsKeep(s, step);
    }
  }

  /** No step lets a stream open, or a frame leave, before a preface that ends the connection, and no other preface does. */
  lemma BrokenStep(s: State, step: Step)
    requires Core(s) && BrokenOk(s) && Enabled(s, step)
    ensures BrokenOk(Apply(s, step))
  {
    ConfigFacts(s.cfg);
    if step.PeerReceive? {
      ReceiveKeepsBroken(s);
    } else {
      hide Core, OnData, OnDataUnknown, OnHeaders, OnBodyRead, OnReadRefund, OnCloseRefund, Config.Own, Config.Granted;
    }
  }

  lemma ReceiveKeepsBroken(s: State)
    requires Core(s) && BrokenOk(s) && s.toPeer != []
    ensures BrokenOk(Apply(s, PeerReceive))
  {
    ConfigFacts(s.cfg);
    hide SlotOk, FramesOk, Config.Own, Config.Granted;
  }

  lemma StepKeeps(s: State, step: Step)
    requires Inv(s) && Enabled(s, step)
    ensures Keeps(s, Apply(s, step))
  {
    CoreStep(s, step);
    BrokenStep(s, step);
    hide Core, BrokenOk, Apply;
  }
}
