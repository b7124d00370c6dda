/** The client's receive side against a compliant peer: a connection, any number of streams, and a FIFO
    channel each way. Every critical section of the client is one step; a WINDOW_UPDATE computed under the
    connection's mutex is written by a later step, and pending writes may overtake one another. */
module TwoParty {
  import opened Base
  import opened Flow
  import opened Pipe
  import opened Inbound

  /** connFlow: the extra connection window that is configured; w0: SETTINGS_INITIAL_WINDOW_SIZE as announced;
      maxFrame: SETTINGS_MAX_FRAME_SIZE as announced. */
  datatype Config = Config(connFlow: uint32, w0: nat, maxFrame: nat) {
    predicate Legal() {
      w0 <= MAX_INT32 && 0x4000 <= maxFrame < 0x100_0000
    }

    /** The client's own connection window. */
    function Own(): int {
      OwnConnWindow(connFlow)
    }

    /** The connection window that the preface gives the peer. */
    function Granted(): nat {
      PeerConnWindow(connFlow)
    }

    /** The preface overflows the peer's window, and a compliant peer ends the connection. */
    predicate Broken() {
      Granted() > MAX_INT32
    }

    /** Both ends mean the same window. */
    predicate Agreed() {
      Own() == Granted()
    }
  }

  datatype Target = OnConn | OnStream(k: nat)

  datatype ClientFrame = Settings(iw: nat) | Open(k: nat) | Update(t: Target, incr: nat)

  datatype PeerFrame =
    | Headers(k: nat, endStream: bool, contentLength: int)
    | Data(k: nat, f: DataFrame)

  datatype Closing = NotClosed | Breaking | Closed

  /** A stream as the client holds it, whether it is still registered, the bytes a body read has taken and
      not yet refunded, and how far the application's Close has come. */
  datatype Slot = Slot(cs: Stream, live: bool, reading: nat, closing: Closing) {
    predicate Served() {
      live && !cs.readAborted
    }

    /** Bytes of this stream whose credit the connection still owes. */
    function Held(): nat {
      reading + if closing.Closed? then 0 else cs.pipe.Len()
    }
  }

  datatype PeerStream = PeerStream(known: bool, win: int, sentHeaders: bool, ended: bool)

  /** gone: it has ended the connection and sends nothing any more. */
  datatype Peer = Peer(ready: bool, gone: bool, iw: nat, connWin: int, streams: seq<PeerStream>)

  datatype State = State(
    cfg: Config,
    conn: Window,
    slots: seq<Slot>,
    pending: seq<ClientFrame>,  // computed, not yet written
    toPeer: seq<ClientFrame>,
    toClient: seq<PeerFrame>,
    peer: Peer,
    dropped: nat,               // read past the declared length
    verdict: Verdict)

  function Init(cfg: Config): State {
    State(cfg, Window(cfg.Own(), 0), [], [],
          [Settings(cfg.w0)] + Updates(OnConn, cfg.Granted() - INITIAL_WINDOW_SIZE), [],
          Peer(false, false, INITIAL_WINDOW_SIZE, INITIAL_WINDOW_SIZE, []), 0, Fine)
  }

  datatype Step =
    | OpenStream(isHead: bool)
    | WriteOut(i: nat)
    | Deliver
    | ReadBody(k: nat, room: nat)
    | RefundRead(k: nat)
    | CloseBody(k: nat)
    | RefundClose(k: nat)
    | EndPipe(k: nat, e: Error)
    | Abort(k: nat)
    | Forget(k: nat)
    | PeerReceive
    | PeerHeaders(k: nat, endStream: bool, contentLength: int)
    | PeerData(k: nat, f: DataFrame)

  const MAX_PADDING := 256 // the Pad Length byte and what it counts

  /** The peer sends DATA only on a stream it answered and did not end, within the frame size and both windows. */
  predicate CompliantData(s: State, k: nat, f: DataFrame) {
    && k < |s.peer.streams| && k < |s.slots| && !s.peer.gone
    && s.peer.streams[k].known && s.peer.streams[k].sentHeaders && !s.peer.streams[k].ended
    && |f.data| <= f.length <= |f.data| + MAX_PADDING && f.length <= s.cfg.maxFrame
    && (f.length > 0 ==> f.length <= s.peer.connWin && f.length <= s.peer.streams[k].win)
    && (s.slots[k].cs.isHead ==> f.data == [])
  }

  predicate Enabled(s: State, step: Step) {
    && s.verdict == Fine
    && match step
       case OpenStream(_) => true
       case WriteOut(i) => i < |s.pending|
       case Deliver => s.toClient != []
       case ReadBody(k, _) => k < |s.slots| && s.slots[k].cs.pastHeaders && s.slots[k].reading == 0
       case RefundRead(k) => k < |s.slots| && s.slots[k].reading > 0
       case CloseBody(k) => k < |s.slots| && s.slots[k].closing == NotClosed
       case RefundClose(k) => k < |s.slots| && s.slots[k].closing == Breaking
       case EndPipe(k, _) => k < |s.slots|
       case Abort(k) => k < |s.slots|
       case Forget(k) => k < |s.slots|
       case PeerReceive => s.toPeer != []
       case PeerHeaders(k, endStream, contentLength) =>
         -1 <= contentLength && k < |s.peer.streams| && !s.peer.gone && s.peer.streams[k].known && !s.peer.streams[k].ended
         && (s.peer.streams[k].sentHeaders ==> endStream)
       case PeerData(k, f) => CompliantData(s, k, f)
  }

  function Updates(t: Target, incr: int): seq<ClientFrame> {
    if incr > 0 then [Update(t, incr)] else []
  }

  function WithStream(s: State, k: nat, cs: Stream): State
    requires k < |s.slots|
  {
    s.(slots := s.slots[k := s.slots[k].(cs := cs)])
  }

  function DeliverData(s: State, k: nat, f: DataFrame): State {
    if k < |s.slots| && s.slots[k].Served() then
      var e := OnData(s.conn, s.slots[k].cs, f);
      WithStream(s, k, e.cs).(conn := e.conn, verdict := e.verdict,
        pending := s.pending + (Updates(OnConn, e.sendConn) + Updates(OnStream(k), e.sendStream)))
    else
      var (conn, send, verdict) := OnDataUnknown(s.conn, k < |s.slots|, f.length);
      s.(conn := conn, verdict := verdict, pending := s.pending + Updates(OnConn, send))
  }

  function DeliverHeaders(s: State, k: nat, endStream: bool, contentLength: int): State {
    if k < |s.slots| && s.slots[k].Served() then
      var (cs, verdict) := OnHeaders(s.slots[k].cs, endStream, contentLength);
      WithStream(s, k, cs).(verdict := verdict)
    else s
  }

  function PeerGets(p: Peer, f: ClientFrame): Peer {
    match f
    case Settings(iw) => p.(ready := true, iw := iw)
    case Open(k) =>
      if k < |p.streams| && !p.streams[k].known then
        p.(streams := p.streams[k := p.streams[k].(known := true, win := p.iw)])
      else p
    case Update(OnConn, incr) => // section 6.9.1 of RFC 7540
      p.(connWin := p.connWin + incr, gone := p.gone || p.connWin + incr > MAX_INT32)
    case Update(OnStream(k), incr) =>
      if k < |p.streams| then p.(streams := p.streams[k := p.streams[k].(win := p.streams[k].win + incr)]) else p
  }

  function Apply(s: State, step: Step): State
    requires Enabled(s, step)
  {
    match step
    case OpenStream(isHead) =>
      s.(slots := s.slots + [Slot(NewStream(isHead), true, 0, NotClosed)],
         pending := s.pending + [Open(|s.slots|)],
         peer := s.peer.(streams := s.peer.streams + [PeerStream(false, 0, false, false)]))
    case WriteOut(i) =>
      s.(pending := s.pending[..i] + s.pending[i + 1..], toPeer := s.toPeer + [s.pending[i]])
    case Deliver =>
      var s1 := s.(toClient := s.toClient[1..]);
      (match s.toClient[0]
       case Headers(k, endStream, contentLength) => DeliverHeaders(s1, k, endStream, contentLength)
       case Data(k, f) => DeliverData(s1, k, f))
    case ReadBody(k, room) =>
      var e := OnBodyRead(s.slots[k].cs, room);
      s.(slots := s.slots[k := s.slots[k].(cs := e.cs, reading := e.n)], dropped := s.dropped + e.dropped)
    case RefundRead(k) =>
      var e := OnReadRefund(s.conn, s.slots[k].cs, s.slots[k].reading);
      s.(slots := s.slots[k := s.slots[k].(cs := e.cs, reading := 0)], conn := e.conn, verdict := e.verdict,
         pending := s.pending + (Updates(OnConn, e.sendConn) + Updates(OnStream(k), e.sendStream)))
    case CloseBody(k) =>
      s.(slots := s.slots[k := s.slots[k].(cs := OnBodyClose(s.slots[k].cs, Failure(0)), closing := Breaking)])
    case RefundClose(k) =>
      var (conn, send, verdict) := OnCloseRefund(s.conn, s.slots[k].cs);
      s.(slots := s.slots[k := s.slots[k].(closing := Closed)], conn := conn, verdict := verdict,
         pending := s.pending + Updates(OnConn, send))
    case EndPipe(k, e) => WithStream(s, k, s.slots[k].cs.(pipe := AfterClose(s.slots[k].cs.pipe, e, false)))
    case Abort(k) => WithStream(s, k, EndStreamError(s.slots[k].cs))
    case Forget(k) => s.(slots := s.slots[k := s.slots[k].(live := false)])
    case PeerReceive => s.(toPeer := s.toPeer[1..], peer := PeerGets(s.peer, s.toPeer[0]))
    case PeerHeaders(k, endStream, contentLength) =>
      s.(toClient := s.toClient + [Headers(k, endStream, contentLength)],
         peer := s.peer.(streams := s.peer.streams[k := s.peer.streams[k].(sentHeaders := true, ended := endStream)]))
    case PeerData(k, f) =>
      var ps := s.peer.streams[k];
      s.(toClient := s.toClient + [PeerFrame.Data(k, f)],
         peer := s.peer.(connWin := s.peer.connWin - f.length,
                         streams := s.peer.streams[k := ps.(win := ps.win - f.length, ended := f.endStream)]))
  }

  predicate Allowed(s: State, steps: seq<Step>)
    decreases |steps|
  {
    steps != [] ==> Enabled(s, steps[0]) && Allowed(Apply(s, steps[0]), steps[1..])
  }

  function Run(s: State, steps: seq<Step>): State
    requires Allowed(s, steps)
    decreases |steps|
  {
    if steps == [] then s else Run(Apply(s, steps[0]), steps[1..])
  }

  lemma {:induction false} RunAppend(s: State, a: seq<Step>, b: seq<Step>)
    requires Allowed(s, a) && Allowed(Run(s, a), b)
    ensures Allowed(s, a + b) && Run(s, a + b) == Run(Run(s, a), b)
    decreases |a|
  {
    if a == [] {
      assert a + b == b;
    } else {
      assert (a + b)[0] == a[0] && (a + b)[1..] == a[1..] + b;
      RunAppend(Apply(s, a[0]), a[1..], b);
    }
  }

  // ----- Sums over the channels and the streams -----

  function CreditOf(f: ClientFrame, t: Target): nat {
    if f.Update? && f.t == t then f.incr else 0
  }

  function Credit(fs: seq<ClientFrame>, t: Target): nat {
    if fs == [] then 0 else CreditOf(fs[0], t) + Credit(fs[1..], t)
  }

  function LengthOn(f: PeerFrame, k: nat): nat {
    if f.Data? && f.k == k then f.f.length else 0
  }

  function DataOn(fs: seq<PeerFrame>, k: nat): nat {
    if fs == [] then 0 else LengthOn(fs[0], k) + DataOn(fs[1..], k)
  }

  function DataTotal(fs: seq<PeerFrame>): nat {
    if fs == [] then 0 else (if fs[0].Data? then fs[0].f.length else 0) + DataTotal(fs[1..])
  }

  function Held(slots: seq<Slot>): nat {
    if slots == [] then 0 else slots[0].Held() + Held(slots[1..])
  }

  lemma {:induction false} CreditAppend(a: seq<ClientFrame>, b: seq<ClientFrame>, t: Target)
    ensures Credit(a + b, t) == Credit(a, t) + Credit(b, t)
  {
    if a == [] {
      assert a + b == b;
    } else {
      assert (a + b)[1..] == a[1..] + b;
      CreditAppend(a[1..], b, t);
    }
  }

  lemma CreditRemove(a: seq<ClientFrame>, i: nat, t: Target)
    requires i < |a|
    ensures Credit(a[..i] + a[i + 1..], t) + CreditOf(a[i], t) == Credit(a, t)
  {
    CreditAppend(a[..i], a[i + 1..], t);
    CreditAppend(a[..i], a[i..], t);
    assert a[..i] + a[i..] == a && a[i..][1..] == a[i + 1..];
  }

  lemma CreditOne(f: ClientFrame, t: Target)
    ensures Credit([f], t) == CreditOf(f, t)
  {
    assert [f][1..] == [];
  }

  /** What appending the updates of one refund adds to any target's pending credit. */
  lemma CreditOfUpdates(a: seq<ClientFrame>, k: nat, c: nat, d: nat, t: Target)
    ensures Credit(a + (Updates(OnConn, c) + Updates(OnStream(k), d)), t)
         == Credit(a, t) + (if t == OnConn then c else if t == OnStream(k) then d else 0)
    ensures Credit(a + Updates(OnConn, c), t) == Credit(a, t) + (if t == OnConn then c else 0)
  {
    CreditAppend(a, Updates(OnConn, c) + Updates(OnStream(k), d), t);
    CreditAppend(Updates(OnConn, c), Updates(OnStream(k), d), t);
    CreditAppend(a, Updates(OnConn, c), t);
    if c > 0 {
      CreditOne(Update(OnConn, c), t);
    }
    if d > 0 {
      CreditOne(Update(OnStream(k), d), t);
    }
  }

  lemma {:induction false} DataAppend(a: seq<PeerFrame>, f: PeerFrame, k: nat)
    ensures DataOn(a + [f], k) == DataOn(a, k) + LengthOn(f, k)
    ensures DataTotal(a + [f]) == DataTotal(a) + if f.Data? then f.f.length else 0
  {
    if a == [] {
      assert a + [f] == [f] && [f][1..] == [];
    } else {
      assert (a + [f])[1..] == a[1..] + [f];
      DataAppend(a[1..], f, k);
    }
  }

  lemma {:induction false} HeldUpdate(slots: seq<Slot>, k: nat, x: Slot)
    requires k < |slots|
    ensures Held(slots[k := x]) == Held(slots) - slots[k].Held() + x.Held()
    ensures slots[k].Held() <= Held(slots)
  {
    if k == 0 {
      assert slots[0 := x][1..] == slots[1..];
    } else {
      assert slots[k := x][1..] == slots[1..][k - 1 := x];
      HeldUpdate(slots[1..], k - 1, x);
    }
  }

  lemma {:induction false} HeldAppend(slots: seq<Slot>, x: Slot)
    ensures Held(slots + [x]) == Held(slots) + x.Held()
  {
    if slots == [] {
      assert slots + [x] == [x] && [x][1..] == [];
    } else {
      assert (slots + [x])[1..] == slots[1..] + [x];
      HeldAppend(slots[1..], x);
    }
  }
}
