/** The promises of HTTP/2 flow control, over every run of the client against a compliant peer. */
module AgreementTheorems {
  import opened Base
  import opened Flow
  import opened Pipe
  import opened Inbound
  import opened TwoParty
  import opened Agreement

  lemma InitInv(cfg: Config)
    requires cfg.Legal()
    ensures Inv(Init(cfg))
  {
    var more := cfg.Granted() - INITIAL_WINDOW_SIZE;
    ConfigFacts(cfg);
    CreditOfUpdates([Settings(cfg.w0)], 0, more, 0, OnConn);
    CreditOne(Settings(cfg.w0), OnConn);
    assert ([Settings(cfg.w0)] + Updates(OnConn, more))[1..] == Updates(OnConn, more);
  }

  lemma {:induction false} RunKeeps(s: State, steps: seq<Step>)
    requires Inv(s) && Allowed(s, steps)
    ensures Keeps(s, Run(s, steps)) && Run(s, steps).cfg == s.cfg
    decreases |steps|
  {
    if steps != [] {
      StepKeeps(s, steps[0]);
      var s1 := Apply(s, steps[0]);
      if s1.verdict == Fine {
        RunKeeps(s1, steps[1..]);
      } else {
        assert steps[1..] == [];
      }
    }
  }

  /** A state some run reaches from the preface. */
  ghost predicate Reachable(cfg: Config, s: State) {
    cfg.Legal() && exists steps :: Allowed(Init(cfg), steps) && Run(Init(cfg), steps) == s
  }

  lemma ReachableInv(cfg: Config, s: State)
    requires Reachable(cfg, s)
    ensures s.cfg == cfg && Keeps(s, s)
  {
    var steps :| Allowed(Init(cfg), steps) && Run(Init(cfg), steps) == s;
    InitInv(cfg);
    RunKeeps(Init(cfg), steps);
  }

  /** Two-party agreement. The connection window this end enforces is the peer's remaining window plus the
      DATA on its way here plus the credit on its way there or still to be written, always off by the difference the two
      began with, which is none for a window that fits in 31 bits; each stream's window is at least that sum when no more
      than the fixed stream window was announced. */
  lemma WindowsAgree(cfg: Config, s: State)
    requires Reachable(cfg, s) && s.verdict == Fine
    ensures s.conn.avail - ConnLedger(s) == cfg.Own() - cfg.Granted() && |s.slots| == |s.peer.streams|
    ensures cfg.Agreed() ==> s.conn.avail == ConnLedger(s)
    ensures forall k :: 0 <= k < |s.slots| && cfg.w0 <= STREAM_FLOW ==> s.slots[k].cs.inflow.avail >= StreamLedger(s, k)
    ensures forall k :: 0 <= k < |s.slots| && s.slots[k].Served() ==>
              s.slots[k].cs.inflow.avail - StreamLedger(s, k) == STREAM_FLOW - cfg.w0
  {
    ReachableInv(cfg, s);
    forall k | 0 <= k < |s.slots|
      ensures cfg.w0 <= STREAM_FLOW ==> s.slots[k].cs.inflow.avail >= StreamLedger(s, k)
      ensures s.slots[k].Served() ==> s.slots[k].cs.inflow.avail - StreamLedger(s, k) == STREAM_FLOW - cfg.w0
    {
      assert SlotOk(s, k);
    }
  }

  /** Conservation: the connection's announced and withheld credit, the bytes its streams still hold and the
      bytes dropped by over-length reads always add up to the initial window. */
  lemma CreditIsConserved(cfg: Config, s: State)
    requires Reachable(cfg, s) && s.verdict == Fine
    ensures s.conn.avail + s.conn.unsent + Held(s.slots) + s.dropped == cfg.Own()
  {
    ReachableInv(cfg, s);
  }

  /** No run reaches a panic in inflow.add or a protocol error, and only a stream's or a connection's own window that is
      smaller than announced lets it reach a flow-control error. */
  lemma NeverPanics(cfg: Config, s: State)
    requires Reachable(cfg, s)
    ensures s.verdict == Fine || (s.verdict == FlowControlError && (cfg.w0 > STREAM_FLOW || Short(cfg)))
  {
    ReachableInv(cfg, s);
  }

  // ----- Runs -----

  function Zeros(n: nat): bytes {
    seq(n, i => 0)
  }

  /** One open stream, answered, into which the peer has sent n bytes that nobody has read. */
  function Flooded(cfg: Config, n: nat): State {
    State(cfg, Window(cfg.Own() - n, 0),
      [Slot(Stream(Window(STREAM_FLOW - n, 0), PipeState(Some(Zeros(n)), 0, None, None, false), false, true, false, false, -1, None),
            true, 0, NotClosed)],
      [], [], [],
      Peer(true, false, cfg.w0, cfg.Granted() - n, [PeerStream(true, cfg.w0 - n, true, false)]), 0, Fine)
  }

  lemma RunCons(s: State, step: Step, steps: seq<Step>)
    requires Enabled(s, step) && Allowed(Apply(s, step), steps)
    ensures Allowed(s, [step] + steps) && Run(s, [step] + steps) == Run(Apply(s, step), steps)
  {
    assert ([step] + steps)[1..] == steps;
  }

  lemma RunTwo(s: State, a: Step, b: Step)
    requires Enabled(s, a) && Enabled(Apply(s, a), b)
    ensures Allowed(s, [a, b]) && Run(s, [a, b]) == Apply(Apply(s, a), b)
  {
    assert [a, b][1..] == [b] && [b][1..] == [];
    assert Allowed(Apply(s, a), [b]);
    assert Run(Apply(s, a), [b]) == Apply(Apply(s, a), b);
  }

  /** The preface received, and a stream opened at both ends but not answered. */
  function Asked(cfg: Config): State {
    State(cfg, Window(cfg.Own(), 0), [Slot(NewStream(false), true, 0, NotClosed)], [], [], [],
          Peer(true, false, cfg.w0, cfg.Granted(), [PeerStream(true, cfg.w0, false, false)]), 0, Fine)
  }

  /** The preface received. */
  function Greeted(cfg: Config): State {
    State(cfg, Window(cfg.Own(), 0), [], [], [], [], Peer(true, false, cfg.w0, cfg.Granted(), []), 0, Fine)
  }

  lemma Greeting(cfg: Config) returns (steps: seq<Step>)
    requires !cfg.Broken()
    ensures Allowed(Init(cfg), steps) && Run(Init(cfg), steps) == Greeted(cfg)
  {
    var s1 := Apply(Init(cfg), PeerReceive);
    ConfigFacts(cfg);
    hide Config.Own, Config.Granted;
    if cfg.Granted() == INITIAL_WINDOW_SIZE {
      assert Init(cfg).toPeer == [Settings(cfg.w0)];
      steps := [PeerReceive];
      assert steps[1..] == [] && s1 == Greeted(cfg);
      assert Allowed(s1, steps[1..]) && Run(s1, steps[1..]) == s1;
    } else {
      assert s1.toPeer == [Update(OnConn, cfg.Granted() - INITIAL_WINDOW_SIZE)];
      assert Apply(s1, PeerReceive) == Greeted(cfg);
      RunTwo(Init(cfg), PeerReceive, PeerReceive);
      steps := [PeerReceive, PeerReceive];
    }
  }

  lemma Asking(cfg: Config) returns (steps: seq<Step>)
    requires !cfg.Broken()
    ensures Allowed(Init(cfg), steps) && Run(Init(cfg), steps) == Asked(cfg)
  {
    hide Config.Own, Config.Granted;
    var before := Greeting(cfg);
    var s1 := Apply(Greeted(cfg), OpenStream(false));
    var s2 := Apply(s1, WriteOut(0));
    assert Apply(s2, PeerReceive) == Asked(cfg);
    RunTwo(s1, WriteOut(0), PeerReceive);
    RunCons(Greeted(cfg), OpenStream(false), [WriteOut(0), PeerReceive]);
    hide *;
    RunAppend(Init(cfg), before, [OpenStream(false)] + [WriteOut(0), PeerReceive]);
    steps := before + ([OpenStream(false)] + [WriteOut(0), PeerReceive]);
  }

  lemma Opening(cfg: Config) returns (steps: seq<Step>)
    requires !cfg.Broken()
    ensures Allowed(Init(cfg), steps) && Run(Init(cfg), steps) == Flooded(cfg, 0)
  {
    hide Config.Own, Config.Granted;
    var before := Asking(cfg);
    var answer := [PeerHeaders(0, false, -1), Deliver];
    RunTwo(Asked(cfg), PeerHeaders(0, false, -1), Deliver);
    assert Zeros(0) == [];
    assert Run(Asked(cfg), answer) == Flooded(cfg, 0);
    hide *;
    RunAppend(Init(cfg), before, answer);
    steps := before + answer;
  }

  /** What the peer may send unread without being accused for the connection. */
  function Room(cfg: Config): int {
    if cfg.Own() < 0 then cfg.Granted() else Min(cfg.Own(), cfg.Granted())
  }

  lemma FloodFrame(cfg: Config, n: nat, f: DataFrame)
    requires cfg.Legal() && !cfg.Broken() && 1 <= f.length <= 0x4000 && f.data == Zeros(f.length) && !f.endStream
    requires n + f.length <= cfg.w0 && n + f.length <= STREAM_FLOW && n + f.length <= Room(cfg)
    ensures Allowed(Flooded(cfg, n), [PeerData(0, f), Deliver])
    ensures Run(Flooded(cfg, n), [PeerData(0, f), Deliver]) == Flooded(cfg, n + f.length)
  {
    var s := Flooded(cfg, n);
    ConfigFacts(cfg);
    hide Config.Own, Config.Granted;
    FloodedData(cfg, n, f);
    assert Enabled(s, PeerData(0, f));
    hide OnData, Zeros;
    var s1 := Apply(s, PeerData(0, f));
    assert s1.toClient == [PeerFrame.Data(0, f)];
    assert Apply(s1, Deliver) == Flooded(cfg, n + f.length);
    RunTwo(s, PeerData(0, f), Deliver);
  }

  /** Unread bytes are only taken from both windows. */
  lemma FloodedData(cfg: Config, n: nat, f: DataFrame)
    requires cfg.Legal() && !cfg.Broken() && 1 <= f.length <= 0x4000 && f.data == Zeros(f.length) && !f.endStream
    requires n + f.length <= STREAM_FLOW && n + f.length <= Room(cfg)
    ensures OnData(Flooded(cfg, n).conn, Flooded(cfg, n).slots[0].cs, f)
         == Effect(Flooded(cfg, n + f.length).conn, Flooded(cfg, n + f.length).slots[0].cs, 0, 0, Fine)
  {
    ConfigFacts(cfg);
    hide Config.Own, Config.Granted;
    assert Zeros(n) + f.data == Zeros(n + f.length);
    assert f.length - |f.data| == 0 && f.data != [];
    hide Zeros;
  }

  /** Any number of bytes can be sent and left unread that all windows have room for. */
  lemma {:induction false} Flood(cfg: Config, n: nat) returns (steps: seq<Step>)
    requires cfg.Legal() && !cfg.Broken() && n <= Min(cfg.w0, Min(STREAM_FLOW, Room(cfg)))
    ensures Allowed(Init(cfg), steps) && Run(Init(cfg), steps) == Flooded(cfg, n)
    decreases n
  {
    hide Config.Own, Config.Granted, Room;
    if n == 0 {
      steps := Opening(cfg);
    } else {
      var last := Min(n, 0x4000);
      var f := DataFrame(last, Zeros(last), false);
      hide Allowed, Run, Init, Flooded, Zeros;
      steps := Flood(cfg, n - last);
      FloodFrame(cfg, n - last, f);
      RunAppend(Init(cfg), steps, [PeerData(0, f), Deliver]);
      steps := steps + [PeerData(0, f), Deliver];
    }
  }

  // ----- Stalls -----

  /** Nothing for the target is on its way, in either direction. */
  predicate QuietConn(s: State) {
    DataTotal(s.toClient) == 0 && Credit(s.toPeer, OnConn) == 0 && Credit(s.pending, OnConn) == 0
  }

  /** Withheld connection credit never stalls the peer: with nothing on its way, the peer's window is all
      but 4095 bytes of what nobody holds, at least half of it, and empty only when all of it is held. */
  lemma ConnectionNeverStalls(cfg: Config, s: State)
    requires Reachable(cfg, s) && s.verdict == Fine && QuietConn(s)
    ensures var free := cfg.Granted() - Held(s.slots) - s.dropped;
            && s.peer.connWin > free - INFLOW_MIN_REFRESH
            && 2 * s.peer.connWin >= free
            && (s.peer.connWin == 0 <==> free == 0)
  {
    ReachableInv(cfg, s);
    ConfigFacts(cfg);
    hide Config.Own, Config.Granted;
  }

  /** The peer may still send on stream k and has no window left, although the application has read it all
      and nothing is on its way. */
  predicate Stalled(s: State, k: nat) {
    && k < |s.slots| == |s.peer.streams| && s.verdict == Fine && !s.peer.gone
    && s.slots[k].Served() && s.slots[k].cs.readErr.None?
    && s.slots[k].reading == 0 && s.slots[k].cs.pipe.Len() == 0
    && s.peer.streams[k].known && s.peer.streams[k].win == 0 && !s.peer.streams[k].ended
    && DataOn(s.toClient, k) == 0 && Credit(s.toPeer, OnStream(k)) == 0 && Credit(s.pending, OnStream(k)) == 0
  }

  /** One stream of which n bytes were sent one by one, read and refunded: to the connection, whose window became w, and
      withheld from the stream. */
  function Sipped(cfg: Config, n: nat, w: Window): State {
    State(cfg, w,
      [Slot(Stream(Window(STREAM_FLOW - n, n), PipeState(Some([]), 0, None, None, false), false, true, false, false, -1, None),
            true, 0, NotClosed)],
      [], [], [],
      Peer(true, false, cfg.w0, w.avail - cfg.Own() + cfg.Granted(), [PeerStream(true, cfg.w0 - n, true, false)]), 0, Fine)
  }

  /** All of the connection's credit is back. */
  predicate Whole(cfg: Config, w: Window) {
    w.InRange() && w.Settled() && w.Credit() == cfg.Own()
  }

  const BYTE := DataFrame(1, [0], false)

  /** The two windows when one more byte is received, read and refunded. */
  lemma SipWindows(cfg: Config, n: nat, w: Window)
    requires n + 1 < INFLOW_MIN_REFRESH && !cfg.Broken() && cfg.Own() != 0 && Whole(cfg, w)
    ensures var cs := Sipped(cfg, n, w).slots[0].cs;
            var e := OnData(w, cs, BYTE);
            var r := OnBodyRead(e.cs, 1);
            var d := OnReadRefund(e.conn, r.cs, r.n);
            && e.verdict == Fine && e.sendStream == 0 && e.cs.pastHeaders && r.n == 1 && r.dropped == 0 && d.verdict == Fine && d.sendStream == 0
            && e.sendConn >= 0 && d.sendConn >= 0 && Whole(cfg, d.conn) && d.conn.avail == w.avail - 1 + e.sendConn + d.sendConn
            && d.cs == Sipped(cfg, n + 1, d.conn).slots[0].cs
  {
    ConfigFacts(cfg);
    hide Config.Own, Config.Granted;
    var cs := Sipped(cfg, n, w).slots[0].cs;
    var w1 := Spend(w, 1);
    assert w.Covers(1) && w1.InRange() && w1.Credit() == w.Credit() - 1;
    RefundConserves(w1, 0);
    RefundConserves(Refund(w1, 0), 1);
    assert [] + BYTE.data == BYTE.data && BYTE.data[..1] == BYTE.data && BYTE.data[1..] == [];
    hide Window.InRange, Window.Settled, Window.Credit;
  }

  predicate ConnUpdates(fs: seq<ClientFrame>) {
    forall i :: 0 <= i < |fs| ==> fs[i].Update? && fs[i].t == OnConn
  }

  /** Announcements of connection credit reach the peer. */
  lemma {:induction false} Announce(s: State) returns (steps: seq<Step>)
    requires s.verdict == Fine && s.toPeer == [] && ConnUpdates(s.pending) && !s.peer.gone
    requires s.peer.connWin + Credit(s.pending, OnConn) <= MAX_INT32
    ensures Allowed(s, steps)
    ensures Run(s, steps) == s.(pending := [], peer := s.peer.(connWin := s.peer.connWin + Credit(s.pending, OnConn)))
    decreases |s.pending|
  {
    if s.pending == [] {
      steps := [];
    } else {
      var s1 := Apply(s, WriteOut(0));
      var s2 := Apply(s1, PeerReceive);
      assert s1 == s.(pending := s.pending[1..], toPeer := [s.pending[0]]);
      assert [s.pending[0]][1..] == [];
      assert s2 == s.(pending := s.pending[1..], peer := s.peer.(connWin := s.peer.connWin + s.pending[0].incr));
      RunTwo(s, WriteOut(0), PeerReceive);
      var more := Announce(s2);
      hide Apply, Enabled, Allowed, Run;
      RunAppend(s, [WriteOut(0), PeerReceive], more);
      steps := [WriteOut(0), PeerReceive] + more;
    }
  }

  /** A frame that a lone stream takes. */
  lemma SendAndDeliver(s: State, f: DataFrame)
    requires Enabled(s, PeerData(0, f)) && s.toClient == [] && |s.slots| == |s.peer.streams| == 1 && s.slots[0].Served()
    requires OnData(s.conn, s.slots[0].cs, f).verdict == Fine
    ensures Allowed(s, [PeerData(0, f), Deliver])
    ensures var e, ps := OnData(s.conn, s.slots[0].cs, f), s.peer.streams[0];
            Run(s, [PeerData(0, f), Deliver])
            == s.(conn := e.conn, slots := [s.slots[0].(cs := e.cs)],
                  pending := s.pending + (Updates(OnConn, e.sendConn) + Updates(OnStream(0), e.sendStream)),
                  peer := s.peer.(connWin := s.peer.connWin - f.length,
                                  streams := [ps.(win := ps.win - f.length, ended := f.endStream)]))
  {
    var s1 := Apply(s, PeerData(0, f));
    assert s1.toClient == [PeerFrame.Data(0, f)] && [PeerFrame.Data(0, f)][1..] == [];
    RunTwo(s, PeerData(0, f), Deliver);
    hide OnData;
  }

  /** A read of a lone stream and its refund. */
  lemma ReadAndRefund(s: State, room: nat)
    requires s.verdict == Fine && |s.slots| == 1 && s.slots[0].cs.pastHeaders && s.slots[0].reading == 0
    requires var r := OnBodyRead(s.slots[0].cs, room); r.n > 0 && r.dropped == 0 && OnReadRefund(s.conn, r.cs, r.n).verdict == Fine
    ensures Allowed(s, [ReadBody(0, room), RefundRead(0)])
    ensures var r := OnBodyRead(s.slots[0].cs, room);
            var d := OnReadRefund(s.conn, r.cs, r.n);
            Run(s, [ReadBody(0, room), RefundRead(0)])
            == s.(conn := d.conn, slots := [s.slots[0].(cs := d.cs)],
                  pending := s.pending + (Updates(OnConn, d.sendConn) + Updates(OnStream(0), d.sendStream)))
  {
    hide OnBodyRead, OnReadRefund;
    RunTwo(s, ReadBody(0, room), RefundRead(0));
  }

  /** One byte more: sent, received, read and refunded; not yet announced. */
  lemma SipSteps(cfg: Config, n: nat, w: Window) returns (w': Window, pending: seq<ClientFrame>)
    requires n + 1 < INFLOW_MIN_REFRESH && n < cfg.w0 && cfg.Legal() && !cfg.Broken() && cfg.Own() != 0 && Whole(cfg, w)
    ensures Whole(cfg, w') && ConnUpdates(pending) && Credit(pending, OnConn) == w'.avail - w.avail + 1
    ensures var t := Sipped(cfg, n + 1, w');
            var u := t.(pending := pending, peer := t.peer.(connWin := w.avail - 1 - cfg.Own() + cfg.Granted()));
            Allowed(Sipped(cfg, n, w), [PeerData(0, BYTE), Deliver] + [ReadBody(0, 1), RefundRead(0)])
            && Run(Sipped(cfg, n, w), [PeerData(0, BYTE), Deliver] + [ReadBody(0, 1), RefundRead(0)]) == u
  {
    hide Config.Own, Config.Granted, OnData, OnBodyRead, OnReadRefund, Whole, Apply, Allowed, Run, Updates, Credit;
    var s0 := Sipped(cfg, n, w);
    var e := OnData(w, s0.slots[0].cs, BYTE);
    var r := OnBodyRead(e.cs, 1);
    var d := OnReadRefund(e.conn, r.cs, r.n);
    w' := d.conn;
    SipWindows(cfg, n, w);
    EnoughToSip(cfg, w);
    SendAndDeliver(s0, BYTE);
    var s2 := Run(s0, [PeerData(0, BYTE), Deliver]);
    ReadAndRefund(s2, 1);
    pending := s0.pending + (Updates(OnConn, e.sendConn) + Updates(OnStream(0), 0)) + (Updates(OnConn, d.sendConn) + Updates(OnStream(0), 0));
    RunAppend(s0, [PeerData(0, BYTE), Deliver], [ReadBody(0, 1), RefundRead(0)]);
    TwoUpdates(e.sendConn, d.sendConn);
    hide Enabled;
  }

  lemma TwoUpdates(c: nat, d: nat)
    ensures var fs := [] + (Updates(OnConn, c) + Updates(OnStream(0), 0)) + (Updates(OnConn, d) + Updates(OnStream(0), 0));
            ConnUpdates(fs) && Credit(fs, OnConn) == c + d
  {
    var a: seq<ClientFrame> := [];
    CreditOfUpdates(a, 0, c, 0, OnConn);
    CreditOfUpdates(a + (Updates(OnConn, c) + Updates(OnStream(0), 0)), 0, d, 0, OnConn);
  }

  lemma EnoughToSip(cfg: Config, w: Window)
    requires !cfg.Broken() && Whole(cfg, w)
    ensures 1 <= w.avail - cfg.Own() + cfg.Granted() <= MAX_INT32
  {
    ConfigFacts(cfg);
    hide Config.Own, Config.Granted;
  }

  lemma {:induction false} Sip(cfg: Config, n: nat) returns (steps: seq<Step>, w: Window)
    requires cfg.Legal() && !cfg.Broken() && (n == 0 || cfg.Own() != 0) && n <= cfg.w0 && n < INFLOW_MIN_REFRESH
    ensures Allowed(Init(cfg), steps) && Run(Init(cfg), steps) == Sipped(cfg, n, w) && Whole(cfg, w)
  {
    hide Config.Own, Config.Granted;
    if n == 0 {
      steps := Opening(cfg);
      w := Window(cfg.Own(), 0);
      ConfigFacts(cfg);
      assert Zeros(0) == [];
    } else {
      var before, w0 := Sip(cfg, n - 1);
      var more;
      more, w := SipMore(cfg, n - 1, w0);
      hide *;
      RunAppend(Init(cfg), before, more);
      steps := before + more;
    }
  }

  lemma SipMore(cfg: Config, n: nat, w: Window) returns (steps: seq<Step>, w': Window)
    requires n + 1 < INFLOW_MIN_REFRESH && n < cfg.w0 && cfg.Legal() && !cfg.Broken() && cfg.Own() != 0 && Whole(cfg, w)
    ensures Whole(cfg, w') && Allowed(Sipped(cfg, n, w), steps) && Run(Sipped(cfg, n, w), steps) == Sipped(cfg, n + 1, w')
  {
    hide Config.Own, Config.Granted, Apply, Enabled, Allowed, Run, Credit, ConnUpdates, Whole;
    var pending;
    w', pending := SipSteps(cfg, n, w);
    var four := [PeerData(0, BYTE), Deliver] + [ReadBody(0, 1), RefundRead(0)];
    var t := Run(Sipped(cfg, n, w), four);
    EnoughToSip(cfg, w');
    var last := Announce(t);
    assert Run(t, last) == Sipped(cfg, n + 1, w');
    RunAppend(Sipped(cfg, n, w), four, last);
    steps := four + last;
  }

  /** A stream with an announced window below 4096 bytes stalls: all of it is read and refunded, and the refund withheld for
      good. Only a connection window of the client's own that is 0 keeps a byte from getting that far. */
  lemma TinyWindowStalls(cfg: Config) returns (s: State)
    requires cfg.Legal() && cfg.w0 < INFLOW_MIN_REFRESH && !cfg.Broken() && (cfg.w0 == 0 || cfg.Own() != 0)
    ensures Reachable(cfg, s) && Stalled(s, 0)
  {
    hide Config.Own, Config.Granted;
    var steps, w := Sip(cfg, cfg.w0);
    s := Sipped(cfg, cfg.w0, w);
    assert Run(Init(cfg), steps) == s;
    hide Allowed, Run, Init;
  }

  /** With no window of its own the client takes no byte from the connection. */
  predicate Untaken(s: State) {
    s.conn == Window(0, 0) && forall k :: 0 <= k < |s.slots| ==> UntakenSlot(s.slots[k])
  }

  predicate UntakenSlot(sl: Slot) {
    sl.cs.inflow == Window(STREAM_FLOW, 0) && sl.reading == 0 && sl.cs.pipe.Len() == 0 && sl.cs.pipe.unread == 0
  }

  lemma UntakenStep(s: State, step: Step)
    requires Untaken(s) && Enabled(s, step) && Apply(s, step).verdict == Fine
    ensures Untaken(Apply(s, step))
  {
    var s' := Apply(s, step);
    forall k | 0 <= k < |s'.slots|
      ensures UntakenSlot(s'.slots[k])
    {
      if k < |s.slots| {
        assert UntakenSlot(s.slots[k]);
      }
    }
  }

  lemma {:induction false} UntakenRun(s: State, steps: seq<Step>)
    requires Untaken(s) && Allowed(s, steps)
    ensures Run(s, steps).verdict == Fine ==> Untaken(Run(s, steps))
    decreases |steps|
  {
    if steps != [] {
      var s1 := Apply(s, steps[0]);
      if s1.verdict == Fine {
        UntakenStep(s, steps[0]);
        UntakenRun(s1, steps[1..]);
      } else {
        assert steps[1..] == [];
      }
    }
    hide Untaken, Apply, Enabled;
  }

  /** Which configurations let a stream stall. */
  predicate CanStall(cfg: Config) {
    cfg.w0 < INFLOW_MIN_REFRESH && !cfg.Broken() && (cfg.w0 == 0 || cfg.Own() != 0)
  }

  lemma NotStalled(cfg: Config, s: State, k: nat)
    requires Reachable(cfg, s) && !CanStall(cfg)
    ensures !Stalled(s, k)
  {
    ReachableInv(cfg, s);
    hide Config.Own, Config.Granted, Orderly;
    if s.verdict == Fine && k < |s.slots| {
      assert SlotOk(s, k);
      if cfg.w0 < INFLOW_MIN_REFRESH && !cfg.Broken() {
        var steps :| Allowed(Init(cfg), steps) && Run(Init(cfg), steps) == s;
        UntakenRun(Init(cfg), steps);
        assert UntakenSlot(s.slots[k]);
      }
    }
    hide Allowed, Run, Reachable;
  }

  /** No stream can stall exactly when at least 4096 bytes of stream window are announced, or the connection comes to
      nothing: the preface ends it, or the client's own connection window is 0 and refuses the first byte. */
  lemma StreamsNeverStallExactlyWhen(cfg: Config)
    requires cfg.Legal()
    ensures (forall s, k :: Reachable(cfg, s) ==> !Stalled(s, k)) <==> !CanStall(cfg)
  {
    hide Reachable, Stalled;
    if CanStall(cfg) {
      var s := TinyWindowStalls(cfg);
    } else {
      forall s, k | Reachable(cfg, s) ensures !Stalled(s, k) {
        NotStalled(cfg, s, k);
      }
    }
  }

  /** Closing a body twice refunds its unread bytes twice: the balance survives exactly if there are none. */
  lemma SecondCloseBreaksTheBalance(s: State, k: nat)
    requires Inv(s) && k < |s.slots| && s.slots[k].closing == Closed
    ensures var (conn, _, verdict) := OnCloseRefund(s.conn, s.slots[k].cs);
            verdict == Fine && conn.Credit() + Held(s.slots) + s.dropped == s.cfg.Own()
            <==> s.slots[k].cs.pipe.Len() == 0
  {
  }

  /** The connection's window after m more closes of a body that is closed; nothing when one of them panics. */
  function ClosedAgain(conn: Window, cs: Stream, m: nat): Option<Window> {
    if m == 0 then Some(conn)
    else match ClosedAgain(conn, cs, m - 1)
      case None => None
      case Some(w) =>
        var (w', _, verdict) := OnCloseRefund(w, cs);
        if verdict.Panicked? then None else Some(w')
  }

  /** The window grew to the total, or panicked on the way because no int32 holds that. */
  predicate HoldsOrPanics(w: Option<Window>, total: int) {
    if total > MAX_WINDOW then w == None else w.Some? && w.value.InRange() && w.value.Credit() == total
  }

  /** Every further close adds the unread bytes to the window once more, until the sum fits in no int32. */
  lemma {:induction false} EachCloseRefunds(conn: Window, cs: Stream, m: nat)
    requires conn.InRange() && (0 <= conn.avail || conn.unsent + cs.pipe.Len() <= MAX_WINDOW)
    ensures HoldsOrPanics(ClosedAgain(conn, cs, m), conn.Credit() + m * cs.pipe.Len())
  {
    if m > 0 {
      EachCloseRefunds(conn, cs, m - 1);
      assert m * cs.pipe.Len() == (m - 1) * cs.pipe.Len() + cs.pipe.Len();
    }
  }

  /** A run that leaves n bytes unread in a closed body. All credit is back, so m more closes leave the window above what
      it ever granted by m * n, and panic exactly when that passes 2^31-1. */
  lemma ClosedWithUnread(cfg: Config, n: nat) returns (s: State)
    requires cfg.Legal() && !cfg.Broken() && 1 <= n <= Min(cfg.w0, Min(STREAM_FLOW, Room(cfg)))
    ensures Reachable(cfg, s) && s.verdict == Fine && |s.slots| == 1
    ensures s.slots[0].closing == Closed && s.slots[0].cs.pipe.Len() == n && s.conn.Credit() == cfg.Own()
    ensures forall m: nat :: HoldsOrPanics(ClosedAgain(s.conn, s.slots[0].cs, m), cfg.Own() + m * n)
  {
    var steps := Flood(cfg, n);
    s := CloseFlooded(cfg, n);
    var close := [CloseBody(0), RefundClose(0)];
    RunAppend(Init(cfg), steps, close);
    assert Reachable(cfg, s) by {
      assert Run(Init(cfg), steps + close) == s;
    }
    hide *;
    forall m: nat
      ensures HoldsOrPanics(ClosedAgain(s.conn, s.slots[0].cs, m), cfg.Own() + m * n)
    {
      EachCloseRefunds(s.conn, s.slots[0].cs, m);
    }
  }

  lemma CloseFlooded(cfg: Config, n: nat) returns (s: State)
    requires cfg.Legal() && !cfg.Broken() && 1 <= n <= Min(cfg.w0, Min(STREAM_FLOW, Room(cfg)))
    ensures Allowed(Flooded(cfg, n), [CloseBody(0), RefundClose(0)])
    ensures Run(Flooded(cfg, n), [CloseBody(0), RefundClose(0)]) == s && s.verdict == Fine && |s.slots| == 1
    ensures s.slots[0].closing == Closed && s.slots[0].cs.pipe.Len() == n
    ensures s.conn.InRange() && s.conn.Credit() == cfg.Own()
  {
    var s0 := Flooded(cfg, n);
    s := Apply(Apply(s0, CloseBody(0)), RefundClose(0));
    RunTwo(s0, CloseBody(0), RefundClose(0));
  }
}
