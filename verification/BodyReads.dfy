/** What the application can rely on when it reads a response body, over whole runs of the client against a compliant peer:
    a stream that nobody disturbs is served to its end, and a body is reported as complete exactly when it has the declared
    length. */
module BodyReads {
  import opened Base
  import opened Flow
  import opened Pipe
  import opened Inbound
  import opened TwoParty
  import opened Agreement
  import opened AgreementTheorems
  import opened Deliveries

  // ----- The declared length -----

  /** What the first HEADERS of a stream say: whether they end it, and the length of its body (-1: not declared). */
  datatype Announcement = Announcement(endStream: bool, contentLength: int)

  function AnnouncedBy(step: Step, k: nat): Option<Announcement> {
    if step.PeerHeaders? && step.k == k then Some(Announcement(step.endStream, step.contentLength)) else None
  }

  function Or(a: Option<Announcement>, b: Option<Announcement>): Option<Announcement> {
    if a.Some? then a else b
  }

  /** The first one that a run sends on stream k. */
  function Announced(steps: seq<Step>, k: nat): Option<Announcement> {
    if steps == [] then None else Or(AnnouncedBy(steps[0], k), Announced(steps[1..], k))
  }

  function CarriedBy(f: PeerFrame, k: nat): Option<Announcement> {
    if f.Headers? && f.k == k then Some(Announcement(f.endStream, f.contentLength)) else None
  }

  /** The first one on its way. */
  function OnItsWay(fs: seq<PeerFrame>, k: nat): Option<Announcement> {
    if fs == [] then None else Or(CarriedBy(fs[0], k), OnItsWay(fs[1..], k))
  }

  lemma {:induction false} OnItsWayAppend(fs: seq<PeerFrame>, f: PeerFrame, k: nat)
    ensures OnItsWay(fs + [f], k) == Or(OnItsWay(fs, k), CarriedBy(f, k))
  {
    if fs == [] {
      assert fs + [f] == [f] && [f][1..] == [];
    } else {
      assert (fs + [f])[1..] == fs[1..] + [f] && (fs + [f])[0] == fs[0];
      OnItsWayAppend(fs[1..], f, k);
    }
  }

  lemma {:induction false} NothingOnItsWay(fs: seq<PeerFrame>, n: nat)
    requires forall i :: 0 <= i < |fs| ==> fs[i].k < n
    ensures OnItsWay(fs, n) == None
  {
    if fs != [] {
      assert forall i :: 0 <= i < |fs[1..]| ==> fs[1..][i] == fs[i + 1];
      assert fs[0].k < n;
      NothingOnItsWay(fs[1..], n);
    }
  }

  /** How many bytes are still due, after those that were given. */
  predicate LengthRight(cs: Stream, a: Announcement, given: bytes) {
    if cs.isHead || a.endStream || a.contentLength == -1 then cs.bytesRemain == -1 && cs.readErr == None
    else if cs.readErr == Some(TooLong) then |given| == a.contentLength
    else 0 <= cs.bytesRemain == a.contentLength - |given|
  }

  predicate SlotTold(sl: Slot, coming: Option<Announcement>, first: Option<Announcement>, given: bytes) {
    if sl.cs.pastHeaders then first.Some? && -1 <= first.value.contentLength && LengthRight(sl.cs, first.value, given)
    else given == [] && sl.cs.readErr == None && sl.cs.bytesRemain == -1 && (sl.Served() ==> coming == first)
  }

  predicate Told(s: State, k: nat, first: Option<Announcement>, given: bytes) {
    && (first.Some? ==> -1 <= first.value.contentLength)
    && if k >= |s.slots| then first == None && given == []
       else SlotTold(s.slots[k], OnItsWay(s.toClient, k), first, given)
  }

  // ----- One stream, one step -----

  lemma DataTells(conn: Window, sl: Slot, f: DataFrame, coming: Option<Announcement>, first: Option<Announcement>, given: bytes)
    requires SlotTold(sl, coming, first, given)
    ensures SlotTold(sl.(cs := OnData(conn, sl.cs, f).cs), coming, first, given)
  {
    hide Refund, Flow.Announced, Spend, Window.Covers, Window.Fits;
  }

  lemma HeadersTell(sl: Slot, a: Announcement, rest: Option<Announcement>, first: Option<Announcement>, given: bytes)
    requires sl.Served() && SlotTold(sl, Some(a), first, given) && -1 <= a.contentLength
    ensures SlotTold(sl.(cs := OnHeaders(sl.cs, a.endStream, a.contentLength).0), rest, first, given)
  {
    hide AfterSetBuffer;
  }

  lemma ReadTells(sl: Slot, room: nat, coming: Option<Announcement>, first: Option<Announcement>, given: bytes)
    requires SlotTold(sl, coming, first, given) && sl.cs.pastHeaders
    ensures var e, d := OnBodyRead(sl.cs, room), Upto(ReadFrom(sl.cs, room), sl.cs.bytesRemain);
            SlotTold(sl.(cs := e.cs, reading := e.n), coming, first, given + d)
  {
  }

  // ----- Steps and runs -----

  lemma DeliverTells(s: State, k: nat, first: Option<Announcement>, given: bytes)
    requires Enabled(s, Deliver) && k < |s.slots| && Told(s, k, first, given)
    ensures Told(Apply(s, Deliver), k, first, given)
  {
    var sl, h := s.slots[k], s.toClient[0];
    var rest := OnItsWay(s.toClient[1..], k);
    assert OnItsWay(s.toClient, k) == Or(CarriedBy(h, k), rest);
    hide OnItsWay, OnData, OnDataUnknown, OnHeaders, LengthRight;
    if h.k == k && sl.Served() {
      match h {
        case Data(_, f) => DataTells(s.conn, sl, f, rest, first, given);
        case Headers(_, endStream, contentLength) =>
          if sl.cs.pastHeaders {
            TrailersTell(sl, endStream, contentLength, rest, first, given);
          } else {
            HeadersTell(sl, Announcement(endStream, contentLength), rest, first, given);
          }
      }
      hide SlotTold;
    }
  }

  lemma TrailersTell(sl: Slot, endStream: bool, contentLength: int, coming: Option<Announcement>, first: Option<Announcement>, given: bytes)
    requires sl.cs.pastHeaders && SlotTold(sl, coming, first, given)
    ensures forall other :: SlotTold(sl, other, first, given)
    ensures SlotTold(sl.(cs := OnHeaders(sl.cs, endStream, contentLength).0), coming, first, given)
  {
  }

  lemma StepTells(s: State, step: Step, k: nat, first: Option<Announcement>, given: bytes)
    requires Inv(s) && Enabled(s, step) && Apply(s, step).verdict == Fine && Told(s, k, first, given)
    ensures Told(Apply(s, step), k, Or(first, AnnouncedBy(step, k)), given + GivenBy(s, step, k))
  {
    assert given + [] == given;
    if k >= |s.slots| {
      FreshIsUntold(s, step, k);
    } else if step.Deliver? {
      DeliverTells(s, k, first, given);
      hide Apply, Told;
    } else if step.PeerData? || step.PeerHeaders? {
      var f := Apply(s, step).toClient[|s.toClient|];
      OnItsWayAppend(s.toClient, f, k);
      hide OnItsWay, LengthRight, Inv;
    } else {
      LocalTells(s, step, k, first, given);
      hide Apply, Told;
    }
  }

  lemma LocalTells(s: State, step: Step, k: nat, first: Option<Announcement>, given: bytes)
    requires Enabled(s, step) && k < |s.slots| && Told(s, k, first, given)
    requires !step.Deliver? && !step.PeerData? && !step.PeerHeaders?
    ensures Told(Apply(s, step), k, first, given + GivenBy(s, step, k))
  {
    assert given + [] == given;
    hide OnItsWay, OnBodyRead, OnCloseRefund, ReadFrom, Upto, AfterBreak, AfterClose, Refund, Flow.Announced, Window.Fits;
    if step.ReadBody? && step.k == k {
      ReadTells(s.slots[k], step.room, OnItsWay(s.toClient, k), first, given);
      hide SlotTold;
    }
  }

  lemma FreshIsUntold(s: State, step: Step, k: nat)
    requires Inv(s) && Enabled(s, step) && k >= |s.slots|
    ensures AnnouncedBy(step, k) == None && GivenBy(s, step, k) == []
    ensures Told(Apply(s, step), k, None, [])
  {
    assert forall i :: 0 <= i < |s.toClient| ==> FrameOk(s, s.toClient[i]);
    NothingOnItsWay(s.toClient, |s.slots|);
    assert |s.slots| == |s.peer.streams|;
    hide OnItsWay, Inv, OnData, OnDataUnknown, OnHeaders, OnBodyRead, OnReadRefund, OnCloseRefund;
  }

  lemma {:induction false} RunTells(s: State, steps: seq<Step>, k: nat, first: Option<Announcement>, given: bytes)
    requires Inv(s) && Allowed(s, steps) && Run(s, steps).verdict == Fine && Told(s, k, first, given)
    ensures Told(Run(s, steps), k, Or(first, Announced(steps, k)), given + Given(s, steps, k))
    decreases |steps|
  {
    if steps == [] {
      assert given + [] == given;
      hide Inv, Told;
    } else {
      var step, s1 := steps[0], Apply(s, steps[0]);
      Unfold(s, steps, k);
      StillFine(s1, steps[1..]);
      StepKeeps(s, step);
      OrAssociates(first, AnnouncedBy(step, k), Announced(steps[1..], k));
      assert Announced(steps, k) == Or(AnnouncedBy(step, k), Announced(steps[1..], k));
      hide *;
      StepTells(s, step, k, first, given);
      RunTells(s1, steps[1..], k, Or(first, AnnouncedBy(step, k)), given + GivenBy(s, step, k));
      Associate(given, GivenBy(s, step, k), Given(s1, steps[1..], k));
    }
  }

  lemma OrAssociates(a: Option<Announcement>, b: Option<Announcement>, c: Option<Announcement>)
    ensures Or(Or(a, b), c) == Or(a, Or(b, c))
  {
  }

  lemma ToldFromStart(cfg: Config, steps: seq<Step>, k: nat)
    requires cfg.Legal() && Allowed(Init(cfg), steps) && Run(Init(cfg), steps).verdict == Fine
    ensures Told(Run(Init(cfg), steps), k, Announced(steps, k), Given(Init(cfg), steps, k))
  {
    InitInv(cfg);
    RunTells(Init(cfg), steps, k, None, []);
    FromNothing(Given(Init(cfg), steps, k));
    hide Allowed, Run, Given, Told, Announced;
  }

  /** When a read of a body of declared length meets the end of the stream, it reports a truncated body exactly when fewer
      bytes than declared were given, and a complete one exactly when all were; there are never more. */
  lemma TruncationIsReportedExactlyWhen(cfg: Config, steps: seq<Step>, k: nat, room: nat, n: nat)
    requires cfg.Legal() && Allowed(Init(cfg), steps) && Enabled(Run(Init(cfg), steps), ReadBody(k, room))
    requires Announced(steps, k) == Some(Announcement(false, n))
    requires var cs := Run(Init(cfg), steps).slots[k].cs;
             !cs.isHead && cs.readErr == None && ReadResult(cs.pipe, room).Ended? && ReadResult(cs.pipe, room).e == EOF
    ensures var given := |Given(Init(cfg), steps, k)|;
            var readErr := Apply(Run(Init(cfg), steps), ReadBody(k, room)).slots[k].cs.readErr;
            && given <= n
            && (readErr == Some(UnexpectedEOF) <==> given < n)
            && (readErr == None <==> given == n)
  {
    ToldFromStart(cfg, steps, k);
    hide Run, Allowed, Init, Given, Announced;
  }

  /** A read that brings more than declared reports that, exactly then, and the application has got exactly the declared
      number of bytes. */
  lemma OverlengthIsReportedExactlyWhen(cfg: Config, steps: seq<Step>, k: nat, room: nat, n: nat)
    requires cfg.Legal() && Allowed(Init(cfg), steps) && Enabled(Run(Init(cfg), steps), ReadBody(k, room))
    requires Announced(steps, k) == Some(Announcement(false, n))
    requires var cs := Run(Init(cfg), steps).slots[k].cs;
             !cs.isHead && cs.readErr == None && ReadResult(cs.pipe, room).Data?
    ensures var s := Run(Init(cfg), steps);
            var d, given := ReadResult(s.slots[k].cs.pipe, room).d, Given(Init(cfg), steps, k);
            var readErr := Apply(s, ReadBody(k, room)).slots[k].cs.readErr;
            && (readErr == Some(TooLong) <==> |given| + |d| > n)
            && (readErr == None <==> |given| + |d| <= n)
            && |given + GivenBy(s, ReadBody(k, room), k)| == Min(|given| + |d|, n)
  {
    ToldFromStart(cfg, steps, k);
    hide Run, Allowed, Init, Given, Announced;
  }

  /** Without a declared length no read reports one. */
  lemma UndeclaredIsNeverWrong(cfg: Config, steps: seq<Step>, k: nat)
    requires cfg.Legal() && Allowed(Init(cfg), steps) && Run(Init(cfg), steps).verdict == Fine && k < |Run(Init(cfg), steps).slots|
    requires Announced(steps, k).Some? ==> Announced(steps, k).value.contentLength == -1
    ensures Run(Init(cfg), steps).slots[k].cs.readErr == None
  {
    ToldFromStart(cfg, steps, k);
    hide Run, Allowed, Init, Given, Announced;
  }

  // ----- Served to the end -----

  /** Neither the application nor the connection ends the stream early. */
  predicate Leaves(step: Step, k: nat) {
    (step.CloseBody? || step.EndPipe? || step.Abort? || step.Forget?) ==> step.k != k
  }

  predicate Undisturbed(steps: seq<Step>, k: nat) {
    forall i :: 0 <= i < |steps| ==> Leaves(steps[i], k)
  }

  /** A stream that goes its way: its pipe is open until END_STREAM, and takes bytes once there is a response. */
  predicate Going(sl: Slot) {
    && sl.Served() && sl.closing.NotClosed? && sl.cs.pipe.breakErr.None?
    && (sl.cs.pipe.err.Some? <==> sl.cs.readClosed)
    && (sl.cs.readClosed ==> sl.cs.pastHeaders && sl.cs.pipe.err == Some(EOF))
    && (sl.cs.pastHeaders && !sl.cs.readClosed && !sl.cs.isHead ==> sl.cs.pipe.buf.Some?)
  }

  predicate GoingAt(s: State, k: nat) {
    k < |s.slots| ==> Going(s.slots[k])
  }

  lemma DataGoes(conn: Window, sl: Slot, f: DataFrame)
    requires Going(sl) && sl.cs.pastHeaders && !sl.cs.readClosed && (sl.cs.isHead ==> f.data == [])
    requires OnData(conn, sl.cs, f).verdict == Fine
    ensures Going(sl.(cs := OnData(conn, sl.cs, f).cs))
  {
    hide Refund, Flow.Announced, Spend, Window.Covers, Window.Fits;
  }

  lemma HeadersGo(sl: Slot, endStream: bool, contentLength: int)
    requires Going(sl) && !sl.cs.readClosed && (sl.cs.pastHeaders ==> endStream)
    ensures Going(sl.(cs := OnHeaders(sl.cs, endStream, contentLength).0))
  {
  }

  lemma ReadGoes(sl: Slot, room: nat)
    requires Going(sl)
    ensures var e := OnBodyRead(sl.cs, room);
            Going(sl.(cs := e.cs, reading := e.n))
  {
  }

  lemma StepGoes(s: State, step: Step, k: nat)
    requires Inv(s) && Enabled(s, step) && Apply(s, step).verdict == Fine && GoingAt(s, k) && Leaves(step, k)
    ensures GoingAt(Apply(s, step), k)
  {
    if k < |s.slots| {
      StreamOf(s, k);
      if step.Deliver? {
        DeliverGoes(s, k);
        hide Apply, GoingAt;
      } else {
        GoingIsOpen(s.slots[k]);
        hide Inv, SlotOk, OnBodyRead, OnReadRefund, OnCloseRefund, Going;
        if step.ReadBody? && step.k == k {
          ReadGoes(s.slots[k], step.room);
        } else if step.RefundRead? && step.k == k {
          RefundGoes(s.conn, s.slots[k]);
        }
      }
    } else {
      hide Inv, OnData, OnDataUnknown, OnHeaders, OnBodyRead, OnReadRefund, OnCloseRefund;
    }
  }

  lemma GoingIsOpen(sl: Slot)
    requires Going(sl)
    ensures sl.closing == NotClosed
  {
  }

  lemma RefundGoes(conn: Window, sl: Slot)
    requires Going(sl)
    ensures Going(sl.(cs := OnReadRefund(conn, sl.cs, sl.reading).cs, reading := 0))
  {
    hide Refund, Flow.Announced, Window.Fits;
  }

  lemma DeliverGoes(s: State, k: nat)
    requires Inv(s) && Enabled(s, Deliver) && Apply(s, Deliver).verdict == Fine && k < |s.slots| && GoingAt(s, k)
    ensures GoingAt(Apply(s, Deliver), k)
  {
    StreamOf(s, k);
    var sl, h, ps := s.slots[k], s.toClient[0], s.peer.streams[k];
    assert Orderly(s.toClient, k, sl.cs.isHead, sl.cs.pastHeaders, sl.cs.readClosed, ps.sentHeaders, ps.ended);
    if h.k == k {
      match h {
        case Data(_, f) => DataGoes(s.conn, sl, f);
        case Headers(_, endStream, contentLength) => HeadersGo(sl, endStream, contentLength);
      }
    }
    hide Inv, SlotOk, OnData, OnDataUnknown, OnHeaders, Going;
  }

  lemma {:induction false} RunGoes(s: State, steps: seq<Step>, k: nat)
    requires Inv(s) && Allowed(s, steps) && Run(s, steps).verdict == Fine && GoingAt(s, k) && Undisturbed(steps, k)
    ensures GoingAt(Run(s, steps), k)
    decreases |steps|
  {
    if steps != [] {
      var s1 := Apply(s, steps[0]);
      StillFine(s1, steps[1..]);
      StepKeeps(s, steps[0]);
      StepGoes(s, steps[0], k);
      assert forall i :: 0 <= i < |steps[1..]| ==> steps[1..][i] == steps[i + 1];
      hide Inv, Apply, Enabled, GoingAt, Leaves;
      RunGoes(s1, steps[1..], k);
    }
  }

  /** A compliant peer's frames never get a stream aborted: as long as neither the application closes the body nor the
      connection ends the stream, it is served, and everything sent on it was given, is buffered or is on its way. */
  lemma StreamIsServed(cfg: Config, steps: seq<Step>, k: nat)
    requires cfg.Legal() && Allowed(Init(cfg), steps) && Undisturbed(steps, k)
    requires Run(Init(cfg), steps).verdict == Fine && k < |Run(Init(cfg), steps).slots|
    ensures var s := Run(Init(cfg), steps);
            var sl := s.slots[k];
            && sl.Served()
            && (sl.cs.readErr != Some(TooLong) ==>
                  Given(Init(cfg), steps, k) + Buffered(sl.cs.pipe) + InFlight(s.toClient, k) == Sent(Init(cfg), steps, k))
  {
    InitInv(cfg);
    RunGoes(Init(cfg), steps, k);
    RunJoins(Init(cfg), steps, k, [], [], []);
    FromNothing(Sent(Init(cfg), steps, k));
    FromNothing(Taken(Init(cfg), steps, k));
    FromNothing(Given(Init(cfg), steps, k));
    hide Allowed, Run, Init, Sent, Taken, Given, InFlight, Undisturbed;
  }

  /** A read of such a stream that meets its end: everything was given, and that is all that was sent. */
  lemma EndMeansAll(cfg: Config, steps: seq<Step>, k: nat, room: nat)
    requires cfg.Legal() && Allowed(Init(cfg), steps) && Undisturbed(steps, k) && Enabled(Run(Init(cfg), steps), ReadBody(k, room))
    requires var cs := Run(Init(cfg), steps).slots[k].cs;
             cs.readErr == None && ReadResult(cs.pipe, room).Ended?
    ensures Given(Init(cfg), steps, k) == Sent(Init(cfg), steps, k)
    ensures ReadResult(Run(Init(cfg), steps).slots[k].cs.pipe, room).e == EOF
  {
    InitInv(cfg);
    RunGoes(Init(cfg), steps, k);
    StreamIsServed(cfg, steps, k);
    RunKeeps(Init(cfg), steps);
    var s := Run(Init(cfg), steps);
    StreamOf(s, k);
    ClosedIsQuiet(s.toClient, k, s.slots[k].cs.isHead, s.slots[k].cs.pastHeaders, s.peer.streams[k].sentHeaders, s.peer.streams[k].ended);
    var given := Given(Init(cfg), steps, k);
    assert given + [] + [] == given;
    hide Allowed, Run, Init, Sent, Given, InFlight, Orderly, Inv, Undisturbed;
  }
}
