/** Which bytes a body read hands out, over whole runs of the client against a compliant peer: the DATA payloads of the
    stream, in order, from the first on. */
module Deliveries {
  import opened Base
  import opened Flow
  import opened Pipe
  import opened Inbound
  import opened TwoParty
  import opened Agreement
  import opened AgreementTheorems

  // ----- What a run sends and hands out on stream k -----

  function SentBy(step: Step, k: nat): bytes {
    if step.PeerData? && step.k == k then step.f.data else []
  }

  /** What a step takes out of the pipe. */
  function TakenBy(s: State, step: Step, k: nat): bytes
    requires Enabled(s, step)
  {
    if step.ReadBody? && step.k == k then ReadFrom(s.slots[k].cs, step.room) else []
  }

  function ReadFrom(cs: Stream, room: nat): bytes {
    if cs.readErr.Some? then []
    else match ReadResult(cs.pipe, room)
      case Data(d) => d
      case _ => []
  }

  /** What the application gets of it: no more than was declared. */
  function GivenBy(s: State, step: Step, k: nat): bytes
    requires Enabled(s, step)
  {
    var d := TakenBy(s, step, k);
    if step.ReadBody? && step.k == k then Upto(d, s.slots[k].cs.bytesRemain) else d
  }

  function Upto(d: bytes, left: int): bytes {
    if left != -1 && |d| > left then d[..Max(0, left)] else d
  }

  function Sent(s: State, steps: seq<Step>, k: nat): bytes
    requires Allowed(s, steps)
    decreases |steps|
  {
    if steps == [] then [] else SentBy(steps[0], k) + Sent(Apply(s, steps[0]), steps[1..], k)
  }

  function Taken(s: State, steps: seq<Step>, k: nat): bytes
    requires Allowed(s, steps)
    decreases |steps|
  {
    if steps == [] then [] else TakenBy(s, steps[0], k) + Taken(Apply(s, steps[0]), steps[1..], k)
  }

  function Given(s: State, steps: seq<Step>, k: nat): bytes
    requires Allowed(s, steps)
    decreases |steps|
  {
    if steps == [] then [] else GivenBy(s, steps[0], k) + Given(Apply(s, steps[0]), steps[1..], k)
  }

  // ----- Where the bytes are -----

  function InFlight(fs: seq<PeerFrame>, k: nat): bytes {
    if fs == [] then [] else (if fs[0].Data? && fs[0].k == k then fs[0].f.data else []) + InFlight(fs[1..], k)
  }

  function Buffered(p: PipeState): bytes {
    if p.buf.Some? then p.buf.value else []
  }

  /** What was taken and what is buffered is the front of what was sent; all of it but for what is in flight, as long as the
      stream is served and its body not closed. What was given is what was taken, until an over-length read. */
  predicate Joined(s: State, k: nat, sent: bytes, taken: bytes, given: bytes) {
    if k >= |s.slots| then sent == taken == given == []
    else SlotJoined(s.slots[k], InFlight(s.toClient, k), sent, taken, given)
  }

  predicate SlotJoined(sl: Slot, flight: bytes, sent: bytes, taken: bytes, given: bytes) {
    && taken + Buffered(sl.cs.pipe) <= sent
    && (sl.Served() && sl.cs.pipe.breakErr.None? ==> sent == taken + Buffered(sl.cs.pipe) + flight)
    && given <= taken
    && (sl.cs.readErr != Some(TooLong) ==> given == taken)
  }

  lemma {:induction false} InFlightAppend(fs: seq<PeerFrame>, f: PeerFrame, k: nat)
    ensures InFlight(fs + [f], k) == InFlight(fs, k) + if f.Data? && f.k == k then f.f.data else []
  {
    if fs == [] {
      assert fs + [f] == [f] && [f][1..] == [];
    } else {
      assert (fs + [f])[1..] == fs[1..] + [f] && (fs + [f])[0] == fs[0];
      InFlightAppend(fs[1..], f, k);
    }
  }

  lemma {:induction false} NothingInFlight(fs: seq<PeerFrame>, n: nat)
    requires forall i :: 0 <= i < |fs| ==> fs[i].k < n
    ensures InFlight(fs, n) == []
  {
    if fs != [] {
      assert forall i :: 0 <= i < |fs[1..]| ==> fs[1..][i] == fs[i + 1];
      assert fs[0].k < n;
      NothingInFlight(fs[1..], n);
    }
  }

  // ----- One stream, one step -----

  /** A DATA frame of the stream arrives. */
  lemma DataJoins(conn: Window, sl: Slot, f: DataFrame, rest: bytes, sent: bytes, taken: bytes, given: bytes)
    requires SlotShape(sl) && sl.Served() && |f.data| <= f.length && OnData(conn, sl.cs, f).verdict == Fine
    requires SlotJoined(sl, f.data + rest, sent, taken, given)
    ensures SlotJoined(sl.(cs := OnData(conn, sl.cs, f).cs), rest, sent, taken, given)
  {
    hide Refund, Announced, Spend, Window.Covers, Window.Fits, Window.InRange, Window.Settled;
    var b := Buffered(sl.cs.pipe);
    assert taken + b + (f.data + rest) == taken + (b + f.data) + rest;
    assert f.data == [] ==> f.data + rest == rest && b + f.data == b;
    assert taken + (b + f.data) + rest == sent ==> taken + (b + f.data) <= sent;
  }

  lemma HeadersJoin(sl: Slot, endStream: bool, contentLength: int, flight: bytes, sent: bytes, taken: bytes, given: bytes)
    requires SlotShape(sl) && sl.Served() && SlotJoined(sl, flight, sent, taken, given)
    ensures SlotJoined(sl.(cs := OnHeaders(sl.cs, endStream, contentLength).0), flight, sent, taken, given)
  {
    hide Window.InRange, Window.Settled;
  }

  lemma ReadJoins(sl: Slot, room: nat, flight: bytes, sent: bytes, taken: bytes, given: bytes)
    requires SlotShape(sl) && SlotJoined(sl, flight, sent, taken, given)
    ensures var e, d := OnBodyRead(sl.cs, room), ReadFrom(sl.cs, room);
            SlotJoined(sl.(cs := e.cs, reading := e.n), flight, sent, taken + d, given + Upto(d, sl.cs.bytesRemain))
  {
    hide Window.InRange, Window.Settled;
    var e, d := OnBodyRead(sl.cs, room), ReadFrom(sl.cs, room);
    var b, b' := Buffered(sl.cs.pipe), Buffered(e.cs.pipe);
    assert b == d + b';
    assert taken + b == taken + d + b';
    assert taken + [] == taken && given + [] == given;
  }

  lemma EndsJoin(sl: Slot, e: Error, flight: bytes, sent: bytes, taken: bytes, given: bytes)
    requires SlotShape(sl) && SlotJoined(sl, flight, sent, taken, given)
    ensures SlotJoined(sl.(cs := OnBodyClose(sl.cs, Failure(0)), closing := Breaking), flight, sent, taken, given)
    ensures SlotJoined(sl.(closing := Closed), flight, sent, taken, given)
    ensures SlotJoined(sl.(cs := sl.cs.(pipe := AfterClose(sl.cs.pipe, e, false))), flight, sent, taken, given)
    ensures SlotJoined(sl.(cs := EndStreamError(sl.cs)), flight, sent, taken, given)
    ensures SlotJoined(sl.(live := false), flight, sent, taken, given)
  {
    hide Window.InRange, Window.Settled;
    assert taken + [] == taken;
  }

  lemma RefundJoins(conn: Window, sl: Slot, flight: bytes, sent: bytes, taken: bytes, given: bytes)
    requires SlotJoined(sl, flight, sent, taken, given)
    ensures SlotJoined(sl.(cs := OnReadRefund(conn, sl.cs, sl.reading).cs, reading := 0), flight, sent, taken, given)
  {
    hide Refund, Announced, Window.Fits;
  }

  /** A frame that this stream need not look at any more. */
  lemma LessInFlight(sl: Slot, data: bytes, rest: bytes, sent: bytes, taken: bytes, given: bytes)
    requires SlotJoined(sl, data + rest, sent, taken, given) && (data == [] || !sl.Served())
    ensures SlotJoined(sl, rest, sent, taken, given)
  {
    assert data == [] ==> data + rest == rest;
  }

  lemma MoreInFlight(sl: Slot, flight: bytes, data: bytes, sent: bytes, taken: bytes, given: bytes)
    requires SlotJoined(sl, flight, sent, taken, given)
    ensures SlotJoined(sl, flight + data, sent + data, taken, given)
  {
    var b := Buffered(sl.cs.pipe);
    assert taken + b + flight + data == taken + b + (flight + data);
  }

  // ----- Steps and runs -----

  lemma DeliverJoins(s: State, k: nat, sent: bytes, taken: bytes, given: bytes)
    requires Inv(s) && Enabled(s, Deliver) && Apply(s, Deliver).verdict == Fine && k < |s.slots| && Joined(s, k, sent, taken, given)
    ensures Joined(Apply(s, Deliver), k, sent, taken, given)
  {
    assert FrameOk(s, s.toClient[0]);
    StreamOf(s, k);
    var sl, h := s.slots[k], s.toClient[0];
    var rest := InFlight(s.toClient[1..], k);
    var data := if h.Data? && h.k == k then h.f.data else [];
    assert InFlight(s.toClient, k) == data + rest;
    hide InFlight, SlotJoined, SlotShape, OnData, OnDataUnknown, OnHeaders, Inv;
    if h.k == k && sl.Served() {
      match h {
        case Data(_, f) => DataJoins(s.conn, sl, f, rest, sent, taken, given);
        case Headers(_, endStream, contentLength) =>
          LessInFlight(sl, data, rest, sent, taken, given);
          HeadersJoin(sl, endStream, contentLength, rest, sent, taken, given);
      }
    } else {
      LessInFlight(sl, data, rest, sent, taken, given);
    }
  }

  lemma StepJoins(s: State, step: Step, k: nat, sent: bytes, taken: bytes, given: bytes)
    requires Inv(s) && Enabled(s, step) && Apply(s, step).verdict == Fine && Joined(s, k, sent, taken, given)
    ensures Joined(Apply(s, step), k, sent + SentBy(step, k), taken + TakenBy(s, step, k), given + GivenBy(s, step, k))
  {
    assert sent + [] == sent && taken + [] == taken && given + [] == given;
    if k >= |s.slots| {
      FreshStream(s, step, k);
    } else if step.Deliver? {
      DeliverJoins(s, k, sent, taken, given);
      hide Apply, Joined;
    } else if step.PeerData? || step.PeerHeaders? {
      var f := Apply(s, step).toClient[|s.toClient|];
      InFlightAppend(s.toClient, f, k);
      hide InFlight, SlotJoined, Inv;
      assert InFlight(s.toClient, k) + [] == InFlight(s.toClient, k);
      MoreInFlight(s.slots[k], InFlight(s.toClient, k), SentBy(step, k), sent, taken, given);
    } else {
      StreamOf(s, k);
      hide InFlight, Inv;
      LocalJoins(s, step, k, sent, taken, given);
    }
  }

  lemma LocalJoins(s: State, step: Step, k: nat, sent: bytes, taken: bytes, given: bytes)
    requires Enabled(s, step) && k < |s.slots| && SlotShape(s.slots[k]) && Joined(s, k, sent, taken, given)
    requires !step.Deliver? && !step.PeerData? && !step.PeerHeaders?
    ensures Joined(Apply(s, step), k, sent, taken + TakenBy(s, step, k), given + GivenBy(s, step, k))
  {
    assert taken + [] == taken && given + [] == given;
    var sl, flight := s.slots[k], InFlight(s.toClient, k);
    hide InFlight, SlotJoined, SlotShape, OnBodyRead, OnReadRefund, OnCloseRefund, OnBodyClose, AfterClose, ReadFrom, Upto;
    if !step.OpenStream? && !step.WriteOut? && !step.PeerReceive? && step.k == k {
      EndsJoin(sl, if step.EndPipe? then step.e else EOF, flight, sent, taken, given);
      match step {
        case ReadBody(_, room) => ReadJoins(sl, room, flight, sent, taken, given);
        case RefundRead(_) => RefundJoins(s.conn, sl, flight, sent, taken, given);
        case _ =>
      }
    }
  }

  lemma FreshStream(s: State, step: Step, k: nat)
    requires Inv(s) && Enabled(s, step) && k >= |s.slots|
    ensures SentBy(step, k) == [] && TakenBy(s, step, k) == [] && GivenBy(s, step, k) == []
    ensures Joined(Apply(s, step), k, [], [], [])
  {
    assert forall i :: 0 <= i < |s.toClient| ==> FrameOk(s, s.toClient[i]);
    NothingInFlight(s.toClient, |s.slots|);
    assert |s.slots| == |s.peer.streams|;
    hide InFlight, Inv, OnData, OnDataUnknown, OnHeaders, OnBodyRead, OnReadRefund, OnCloseRefund;
  }

  lemma {:induction false} RunJoins(s: State, steps: seq<Step>, k: nat, sent: bytes, taken: bytes, given: bytes)
    requires Inv(s) && Allowed(s, steps) && Run(s, steps).verdict == Fine && Joined(s, k, sent, taken, given)
    ensures Joined(Run(s, steps), k, sent + Sent(s, steps, k), taken + Taken(s, steps, k), given + Given(s, steps, k))
    decreases |steps|
  {
    if steps == [] {
      assert sent + [] == sent && taken + [] == taken && given + [] == given;
      hide Inv, Joined;
    } else {
      var step, s1 := steps[0], Apply(s, steps[0]);
      Unfold(s, steps, k);
      StillFine(s1, steps[1..]);
      StepKeeps(s, step);
      hide *;
      StepJoins(s, step, k, sent, taken, given);
      RunJoins(s1, steps[1..], k, sent + SentBy(step, k), taken + TakenBy(s, step, k), given + GivenBy(s, step, k));
      Associate(sent, SentBy(step, k), Sent(s1, steps[1..], k));
      Associate(taken, TakenBy(s, step, k), Taken(s1, steps[1..], k));
      Associate(given, GivenBy(s, step, k), Given(s1, steps[1..], k));
    }
  }

  lemma Unfold(s: State, steps: seq<Step>, k: nat)
    requires steps != [] && Allowed(s, steps)
    ensures Enabled(s, steps[0]) && Allowed(Apply(s, steps[0]), steps[1..])
    ensures var s1 := Apply(s, steps[0]);
            && Run(s, steps) == Run(s1, steps[1..])
            && Sent(s, steps, k) == SentBy(steps[0], k) + Sent(s1, steps[1..], k)
            && Taken(s, steps, k) == TakenBy(s, steps[0], k) + Taken(s1, steps[1..], k)
            && Given(s, steps, k) == GivenBy(s, steps[0], k) + Given(s1, steps[1..], k)
    ensures Keeps(s, Apply(s, steps[0])) && Apply(s, steps[0]).verdict == Fine ==> Inv(Apply(s, steps[0]))
  {
    hide Apply, Enabled, SentBy, TakenBy, GivenBy, Inv;
  }

  lemma Associate(a: bytes, b: bytes, c: bytes)
    ensures a + b + c == a + (b + c)
  {
  }

  /** A run does not go on after a verdict. */
  lemma StillFine(s: State, steps: seq<Step>)
    requires Allowed(s, steps) && Run(s, steps).verdict == Fine
    ensures s.verdict == Fine
  {
  }

  // ----- The main results -----

  /** Over every run, what the application reads from a stream is the front of the DATA payloads that the peer sent on it. */
  lemma ReadsAreAPrefix(cfg: Config, steps: seq<Step>, k: nat)
    requires cfg.Legal() && Allowed(Init(cfg), steps) && Run(Init(cfg), steps).verdict == Fine
    ensures Given(Init(cfg), steps, k) <= Sent(Init(cfg), steps, k)
  {
    InitInv(cfg);
    RunJoins(Init(cfg), steps, k, [], [], []);
    FromNothing(Sent(Init(cfg), steps, k));
    FromNothing(Taken(Init(cfg), steps, k));
    FromNothing(Given(Init(cfg), steps, k));
    hide Allowed, Run, Init, Sent, Taken, Given, InFlight;
  }

  lemma FromNothing(a: bytes)
    ensures [] + a == a
  {
  }

  /** Once END_STREAM has arrived on a stream that is served and not closed, what was read and what is still buffered is all
      that was sent, if no more was sent than declared. */
  lemma NothingIsMissing(cfg: Config, steps: seq<Step>, k: nat)
    requires cfg.Legal() && Allowed(Init(cfg), steps)
    requires var s := Run(Init(cfg), steps);
             && s.verdict == Fine && k < |s.slots| && s.slots[k].Served() && s.slots[k].cs.readClosed
             && s.slots[k].cs.pipe.breakErr.None? && s.slots[k].cs.readErr != Some(TooLong)
    ensures var s := Run(Init(cfg), steps);
            Given(Init(cfg), steps, k) + Buffered(s.slots[k].cs.pipe) == Sent(Init(cfg), steps, k)
  {
    InitInv(cfg);
    RunJoins(Init(cfg), steps, k, [], [], []);
    FromNothing(Sent(Init(cfg), steps, k));
    FromNothing(Taken(Init(cfg), steps, k));
    FromNothing(Given(Init(cfg), steps, k));
    RunKeeps(Init(cfg), steps);
    var s := Run(Init(cfg), steps);
    StreamOf(s, k);
    ClosedIsQuiet(s.toClient, k, s.slots[k].cs.isHead, s.slots[k].cs.pastHeaders, s.peer.streams[k].sentHeaders, s.peer.streams[k].ended);
    hide Allowed, Run, Init, Sent, Taken, Given, InFlight, Orderly, Inv;
  }

  lemma {:induction false} ClosedIsQuiet(fs: seq<PeerFrame>, k: nat, isHead: bool, past: bool, sent: bool, ended: bool)
    requires Orderly(fs, k, isHead, past, true, sent, ended)
    ensures InFlight(fs, k) == []
  {
    if fs != [] {
      ClosedIsQuiet(fs[1..], k, isHead, past, sent, ended);
    }
  }
}
