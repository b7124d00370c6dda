/** What the HTTP/2 client may send (internal/http2/transport.go): its outbound windows under WINDOW_UPDATE,
    SETTINGS, new streams and the DATA it takes credit for. */
module Outbound {
  import opened Base
  import opened Flow

  const INITIAL_WINDOW_SIZE := 65535

  /** The outbound windows: of the connection and of each registered stream, the streams whose read side was
      aborted, and the peer's two settings. */
  datatype Windows = Windows(conn: int, streams: map<nat, int>, aborted: set<nat>, iw: int, maxFrame: int)

  datatype Setting = MaxFrameSize(v: nat) | InitialWindowSize(v: nat) | OtherSetting

  function Fits32(x: int): bool {
    MIN_INT32 <= x <= MAX_INT32
  }

  /** outflow.add, which leaves the window alone when the sum does not fit. */
  function Added(n: int, delta: int): int {
    if Fits32(n + delta) then n + delta else n
  }

  function OnAddStream(w: Windows, id: nat): Windows {
    w.(streams := w.streams[id := Added(0, w.iw)], aborted := w.aborted - {id})
  }

  function OnForget(w: Windows, id: nat): Windows {
    w.(streams := w.streams - {id}, aborted := w.aborted - {id})
  }

  /** One setting; None is the connection error for a window above 2^31-1. An addition that does not fit is
      silently skipped. */
  function OnSetting(w: Windows, s: Setting): Option<Windows> {
    match s
    case MaxFrameSize(v) => Some(w.(maxFrame := v))
    case InitialWindowSize(v) =>
      if v > MAX_INT32 then None
      else Some(w.(iw := v, streams := map id | id in w.streams :: Added(w.streams[id], v - w.iw)))
    case OtherSetting => Some(w)
  }

  datatype UpdateResult = Updated | Ignored | StreamError | ConnError

  /** WINDOW_UPDATE for the connection (None) or for a stream; it is ignored for a stream that is unknown or
      aborted, and aborts one whose window it would overflow. */
  function OnWindowUpdate(w: Windows, id: Option<nat>, incr: int): (Windows, UpdateResult) {
    match id
    case None => if Fits32(w.conn + incr) then (w.(conn := w.conn + incr), Updated) else (w, ConnError)
    case Some(id) =>
      if id !in w.streams || id in w.aborted then (w, Ignored)
      else if Fits32(w.streams[id] + incr) then (w.(streams := w.streams[id := w.streams[id] + incr]), Updated)
      else (w.(aborted := w.aborted + {id}), StreamError)
  }

  function Available(w: Windows, id: nat): int
    requires id in w.streams
  {
    Min(w.streams[id], w.conn)
  }

  /** What awaitFlowControl takes for up to maxBytes bytes once credit is available. */
  function Taken(w: Windows, id: nat, maxBytes: int): int
    requires id in w.streams
  {
    Min(Min(Available(w, id), maxBytes), w.maxFrame)
  }

  function OnTake(w: Windows, id: nat, maxBytes: int): Windows
    requires id in w.streams
  {
    var k := Taken(w, id, maxBytes);
    w.(conn := w.conn - k, streams := w.streams[id := w.streams[id] - k])
  }

  // ----- Whole runs, with what the peer granted and what was sent -----

  /** Per stream: the WINDOW_UPDATE credit the peer granted and the DATA bytes sent since it was opened. An increment counts
      when it keeps the window within 2^31-1 (section 6.9.1 of RFC 7540) and the stream is not aborted. */
  datatype Account = Account(granted: nat, sent: nat)

  datatype State = State(
    w: Windows,
    accounts: map<nat, Account>, // of the registered streams
    connGranted: nat,            // the same for the connection
    totalSent: nat,              // DATA over all streams, forgotten ones included
    largestIw: nat)              // largest initial window ever in force

  function Init(maxFrame: nat): State {
    State(Windows(INITIAL_WINDOW_SIZE, map[], {}, INITIAL_WINDOW_SIZE, maxFrame), map[], 0, 0, INITIAL_WINDOW_SIZE)
  }

  datatype Step =
    | AddStream(id: nat)
    | Forget(id: nat)
    | Abort(id: nat)
    | Receive(s: Setting)
    | Update(target: Option<nat>, incr: int)
    | Send(id: nat, maxBytes: int)

  /** SETTINGS_MAX_FRAME_SIZE within section 6.5.2 of RFC 7540; increments within section 6.9; a send waits
      for credit. */
  predicate Enabled(s: State, step: Step) {
    match step
    case AddStream(id) => id !in s.w.streams
    case Forget(_) => true
    case Abort(_) => true
    case Receive(MaxFrameSize(v)) => 0x4000 <= v < 0x100_0000
    case Receive(_) => true
    case Update(_, incr) => 1 <= incr <= MAX_INT32
    case Send(id, maxBytes) => id in s.w.streams && Available(s.w, id) > 0 && maxBytes > 0
  }

  function Apply(s: State, step: Step): State
    requires Enabled(s, step) && s.accounts.Keys == s.w.streams.Keys
  {
    match step
    case AddStream(id) => s.(w := OnAddStream(s.w, id), accounts := s.accounts[id := Account(0, 0)])
    case Forget(id) => s.(w := OnForget(s.w, id), accounts := s.accounts - {id})
    case Abort(id) => s.(w := s.w.(aborted := s.w.aborted + {id}))
    case Receive(setting) =>
      var w := OnSetting(s.w, setting);
      if w.None? then s else s.(w := w.value, largestIw := Max(s.largestIw, w.value.iw))
    case Update(None, incr) =>
      s.(w := OnWindowUpdate(s.w, None, incr).0, connGranted := s.connGranted + if s.w.conn + incr <= MAX_INT32 then incr else 0)
    case Update(Some(id), incr) =>
      var s1 := s.(w := OnWindowUpdate(s.w, Some(id), incr).0);
      if id in s.accounts && id !in s.w.aborted && s.w.streams[id] + incr <= MAX_INT32
      then s1.(accounts := s.accounts[id := s.accounts[id].(granted := s.accounts[id].granted + incr)]) else s1
    case Send(id, maxBytes) =>
      var k := Taken(s.w, id, maxBytes);
      var a := s.accounts[id];
      s.(w := OnTake(s.w, id, maxBytes), totalSent := s.totalSent + Max(0, k), accounts := s.accounts[id := a.(sent := a.sent + Max(0, k))])
  }

  /** Every window is what was granted less what was sent. */
  predicate Ledger(s: State) {
    && s.accounts.Keys == s.w.streams.Keys
    && s.w.conn == INITIAL_WINDOW_SIZE + s.connGranted - s.totalSent
    && (forall id :: id in s.w.streams ==> s.w.streams[id] == s.w.iw + s.accounts[id].granted - s.accounts[id].sent)
  }

  predicate Sound(s: State) {
    && Ledger(s)
    && 0 <= s.w.conn <= MAX_INT32
    && 0 <= s.w.iw <= s.largestIw <= MAX_INT32 && 0 < s.w.maxFrame
    && (forall id :: id in s.w.streams ==> s.w.streams[id] <= MAX_INT32 && s.accounts[id].sent <= s.largestIw + s.accounts[id].granted)
  }

  /** No SETTINGS pushes a stream's window past 2^31-1 (section 6.9.2 of RFC 7540 makes that an error of the peer). */
  predicate Tame(s: State, step: Step) {
    step.Receive? && step.s.InitialWindowSize? && step.s.v <= MAX_INT32 ==>
      forall id :: id in s.w.streams ==> s.w.streams[id] + step.s.v - s.w.iw <= MAX_INT32
  }

  lemma SettingKeepsLedgerExactlyWhenTame(s: State, v: nat)
    requires Sound(s) && v <= MAX_INT32
    ensures Ledger(Apply(s, Receive(InitialWindowSize(v)))) <==> Tame(s, Receive(InitialWindowSize(v)))
  {
    var s' := Apply(s, Receive(InitialWindowSize(v)));
    forall id | id in s.w.streams
      ensures s'.w.streams[id] == v + s.accounts[id].granted - s.accounts[id].sent
              <==> s.w.streams[id] + v - s.w.iw <= MAX_INT32
    {
      assert MIN_INT32 <= s.w.streams[id] + (v - s.w.iw);
    }
  }

  lemma StepIsSound(s: State, step: Step)
    requires Sound(s) && Enabled(s, step) && Tame(s, step)
    ensures Sound(Apply(s, step))
  {
    if step.Receive? && step.s.InitialWindowSize? && step.s.v <= MAX_INT32 {
      SettingKeepsLedgerExactlyWhenTame(s, step.s.v);
    }
  }

  predicate Allowed(s: State, steps: seq<Step>)
    decreases |steps|
  {
    steps != [] ==> s.accounts.Keys == s.w.streams.Keys && Enabled(s, steps[0]) && Allowed(Apply(s, steps[0]), steps[1..])
  }

  function Run(s: State, steps: seq<Step>): State
    requires Allowed(s, steps)
    decreases |steps|
  {
    if steps == [] then s else Run(Apply(s, steps[0]), steps[1..])
  }

  predicate TameRun(s: State, steps: seq<Step>)
    decreases |steps|
  {
    steps != [] ==> s.accounts.Keys == s.w.streams.Keys && Enabled(s, steps[0]) && Tame(s, steps[0]) && TameRun(Apply(s, steps[0]), steps[1..])
  }

  lemma {:induction false} TameIsAllowed(s: State, steps: seq<Step>)
    requires TameRun(s, steps)
    ensures Allowed(s, steps)
    decreases |steps|
  {
    if steps != [] {
      TameIsAllowed(Apply(s, steps[0]), steps[1..]);
    }
    hide Apply, Enabled, Tame;
  }

  /** Outbound safety over every run that keeps to section 6.9.2: each window is exactly grants less DATA, the connection's
      is never negative, and no stream sent more than its grants on top of the largest initial window. */
  lemma {:induction false} RunIsSound(s: State, steps: seq<Step>)
    requires Sound(s) && TameRun(s, steps)
    ensures Allowed(s, steps) && Sound(Run(s, steps))
    decreases |steps|
  {
    TameIsAllowed(s, steps);
    if steps != [] {
      StepIsSound(s, steps[0]);
      RunIsSound(Apply(s, steps[0]), steps[1..]);
    }
  }

  /** What holds whatever SETTINGS do: the connection's ledger is exact, and a stream's window can only be too small. */
  predicate Bounded(s: State) {
    && s.accounts.Keys == s.w.streams.Keys
    && s.w.conn == INITIAL_WINDOW_SIZE + s.connGranted - s.totalSent
    && 0 <= s.w.conn <= MAX_INT32
    && 0 <= s.w.iw <= s.largestIw <= MAX_INT32 && 0 < s.w.maxFrame
    && forall id :: id in s.w.streams ==> StreamBounded(s, s.w.streams[id], s.accounts[id])
  }

  predicate StreamBounded(s: State, n: int, a: Account) {
    && s.w.iw - MAX_INT32 <= n <= MAX_INT32
    && n <= s.w.iw + a.granted - a.sent
    && a.sent <= s.largestIw + a.granted
  }

  lemma StepIsBounded(s: State, step: Step)
    requires Bounded(s) && Enabled(s, step)
    ensures Bounded(Apply(s, step))
  {
    var s' := Apply(s, step);
    forall id | id in s'.w.streams
      ensures StreamBounded(s', s'.w.streams[id], s'.accounts[id])
    {
      assert id in s.w.streams ==> StreamBounded(s, s.w.streams[id], s.accounts[id]);
    }
  }

  lemma {:induction false} RunIsBounded(s: State, steps: seq<Step>)
    requires Bounded(s) && Allowed(s, steps)
    ensures Bounded(Run(s, steps))
    decreases |steps|
  {
    if steps != [] {
      StepIsBounded(s, steps[0]);
      RunIsBounded(Apply(s, steps[0]), steps[1..]);
    }
    hide Apply, Enabled, Bounded;
  }

  /** So no run at all sends more than the peer granted, over the connection or on a stream: a SETTINGS value that is skipped
      for a stream makes it send too little, never too much. */
  lemma NeverSendsMoreThanGranted(maxFrame: nat, steps: seq<Step>)
    requires 0 < maxFrame && Allowed(Init(maxFrame), steps)
    ensures var s := Run(Init(maxFrame), steps);
            && s.totalSent <= INITIAL_WINDOW_SIZE + s.connGranted
            && s.accounts.Keys == s.w.streams.Keys
            && (forall id :: id in s.accounts ==> s.accounts[id].sent <= s.largestIw + s.accounts[id].granted)
            && (forall id :: id in s.accounts ==> s.w.streams[id] <= s.w.iw + s.accounts[id].granted - s.accounts[id].sent)
  {
    RunIsBounded(Init(maxFrame), steps);
    var s := Run(Init(maxFrame), steps);
    assert forall id :: id in s.w.streams ==> StreamBounded(s, s.w.streams[id], s.accounts[id]);
    hide Run, Allowed, Init;
  }

  /** A send takes all it may: the stream's window, the connection's, the request and the frame limit each allow it, and one
      of them no more. */
  lemma TakesAllItMay(w: Windows, id: nat, maxBytes: int)
    requires id in w.streams
    ensures var k := Taken(w, id, maxBytes);
            && k <= w.streams[id] && k <= w.conn && k <= maxBytes && k <= w.maxFrame
            && (k == w.streams[id] || k == w.conn || k == maxBytes || k == w.maxFrame)
  {
  }

  /** A SETTINGS value takes effect, or is an error exactly when it is a window above 2^31-1. */
  lemma SettingTakesEffectExactlyWhen(w: Windows, v: nat)
    ensures OnSetting(w, InitialWindowSize(v)) == None <==> v > MAX_INT32
    ensures v <= MAX_INT32 ==> var t := OnSetting(w, InitialWindowSize(v)).value;
              t.iw == v && t.conn == w.conn && t.maxFrame == w.maxFrame && t.streams.Keys == w.streams.Keys && t.aborted == w.aborted
    ensures OnSetting(w, MaxFrameSize(v)) == Some(w.(maxFrame := v)) && OnSetting(w, OtherSetting) == Some(w)
  {
  }

  /** A WINDOW_UPDATE counts in full, or is an error: of the connection exactly when the sum passes 2^31-1, of a stream
      exactly when it is known and not aborted besides. */
  lemma UpdateIsCountedExactlyWhen(w: Windows, id: Option<nat>, incr: int)
    requires 1 <= incr <= MAX_INT32 && 0 <= w.conn <= MAX_INT32
    requires forall i :: i in w.streams ==> -MAX_INT32 <= w.streams[i] <= MAX_INT32
    ensures id.None? ==> OnWindowUpdate(w, id, incr)
                         == if w.conn + incr <= MAX_INT32 then (w.(conn := w.conn + incr), Updated) else (w, ConnError)
    ensures id.Some? ==> (OnWindowUpdate(w, id, incr).1 == Ignored <==> id.value !in w.streams || id.value in w.aborted)
    ensures id.Some? && id.value in w.streams && id.value !in w.aborted ==>
              if w.streams[id.value] + incr <= MAX_INT32
              then OnWindowUpdate(w, id, incr) == (w.(streams := w.streams[id.value := w.streams[id.value] + incr]), Updated)
              else OnWindowUpdate(w, id, incr).1 == StreamError && OnWindowUpdate(w, id, incr).0.streams == w.streams
  {
  }

  /** Each send is covered by the windows in force at that moment, and moves at least one byte. */
  lemma EachSendIsCovered(s: State, id: nat, maxBytes: int)
    requires Bounded(s) && Enabled(s, Send(id, maxBytes))
    ensures var s' := Apply(s, Send(id, maxBytes));
            && 1 <= s'.totalSent - s.totalSent <= Min(maxBytes, s.w.maxFrame)
            && s'.accounts[id].sent <= s.w.iw + s.accounts[id].granted
            && s'.totalSent <= INITIAL_WINDOW_SIZE + s.connGranted
  {
    assert StreamBounded(s, s.w.streams[id], s.accounts[id]);
  }

  /** A run within the standard after which one SETTINGS value overflows the window of a stream and breaks its ledger:
      the window keeps its old value while the initial window moves on. */
  lemma OverflowingSettingsBreaksTheLedger() returns (steps: seq<Step>)
    ensures TameRun(Init(0x4000), steps) && Allowed(Init(0x4000), steps)
    ensures var s := Run(Init(0x4000), steps);
            Sound(s) && !Ledger(Apply(s, Receive(InitialWindowSize(INITIAL_WINDOW_SIZE + 1))))
  {
    var s0 := Init(0x4000);
    var open, grow := AddStream(1), Update(Some(1), MAX_INT32 - INITIAL_WINDOW_SIZE);
    StepIsSound(s0, open);
    var s1 := Apply(s0, open);
    StepIsSound(s1, grow);
    var s2 := Apply(s1, grow);
    steps := [open, grow];
    assert steps[1..] == [grow] && steps[1..][1..] == [];
    assert TameRun(s2, []) && TameRun(s1, steps[1..]);
    TameIsAllowed(s0, steps);
    assert Run(s1, steps[1..]) == s2;
    SettingKeepsLedgerExactlyWhenTame(s2, INITIAL_WINDOW_SIZE + 1);
    assert 1 in s2.w.streams;
  }
}
