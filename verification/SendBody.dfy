/** Sending a request body over HTTP/2 (writeRequestBody and awaitFlowControl in internal/http2/transport.go).
    The body, the peer and the network choose freely: what each Read returns, how the windows move while the
    writer waits, when the stream dies, which writes fail. */
module SendBody {
  import opened Base
  import opened Outbound

  datatype ReadErr = NoErr | Eof | Failed

  /** What can stop a request body from being sent. */
  datatype Event = StreamEnded | NoCreditYet | FrameFailed | BodyClosed | RequestAborted | TrailersInvalid

  /** A request body that ends or fails after finitely many reads. */
  class Body {
    var left: nat           // reads that may still succeed without an error
    ghost var read: bytes   // everything handed out so far
    ghost var failed: bool  // whether a read failed

    constructor (limit: nat)
      ensures left == limit && read == [] && !failed
    {
      left, read, failed := limit, [], false;
    }

    method Read(room: nat) returns (data: bytes, err: ReadErr)
      modifies this
      ensures |data| <= room && read == old(read) + data
      ensures left <= old(left) && (err == NoErr ==> left < old(left))
      ensures failed == (old(failed) || err == Failed)
    {
      data := *;
      err := *;
      if |data| > room {
        data := data[..room];
      }
      if err == NoErr {
        if left == 0 {
          err := Eof;
        } else {
          left := left - 1;
        }
      }
      read := read + data;
      failed := failed || err == Failed;
    }
  }

  datatype Credit = Taken(n: nat) | Stop | Waiting

  /** Steps of everybody else while the writer waits for credit on stream id. */
  predicate Foreign(s: State, step: Step, id: nat) {
    Enabled(s, step) && !(step.Send? && step.id == id) && !(step.AddStream? && step.id == id)
  }

  /** The DATA that the ledger holds against the stream, as long as it is registered. */
  predicate Recorded(s: State, id: nat, sent: nat) {
    id in s.accounts ==> s.accounts[id].sent == sent
  }

  lemma ForeignKeeps(s: State, step: Step, id: nat, sent: nat)
    requires Bounded(s) && Foreign(s, step, id) && Recorded(s, id, sent)
    ensures Bounded(Apply(s, step)) && Recorded(Apply(s, step), id, sent)
    ensures id in Apply(s, step).accounts ==> id in s.accounts
  {
    StepIsBounded(s, step);
  }

  /** The connection as the writer of stream id sees it: the outbound windows and their ledger. */
  class Conn {
    var s: State
    const id: nat
    ghost var events: set<Event> // what happened to the request so far

    constructor (s: State, id: nat)
      ensures this.s == s && this.id == id && events == {}
    {
      this.s, this.id, events := s, id, {};
    }

    /** Whether an event happens now, and a record of it. */
    method Happens(e: Event) returns (yes: bool)
      modifies this`events
      ensures events == if yes then old(events) + {e} else old(events)
    {
      yes := *;
      if yes {
        events := events + {e};
      }
    }

    /** Waits for credit; other streams and the peer may do anything in between. Waiting: not yet. */
    method AwaitFlowControl(maxBytes: nat, ghost sent: nat) returns (c: Credit)
      requires maxBytes > 0 && Bounded(s) && Recorded(s, id, sent)
      modifies this`s, this`events
      ensures old(events) <= events && (c.Taken? ==> events == old(events))
      ensures (c.Stop? ==> StreamEnded in events) && (c.Waiting? ==> NoCreditYet in events)
      ensures Bounded(s) && Recorded(s, id, sent + if c.Taken? then c.n else 0)
      ensures c.Taken? ==> 1 <= c.n <= Min(maxBytes, s.w.maxFrame)
      ensures c.Taken? ==> id in s.w.streams && 0 <= s.w.streams[id] && 0 <= s.w.conn && TookAll(s.w, id, maxBytes, c.n)
      ensures c.Waiting? ==> id in s.w.streams && (s.w.streams[id] <= 0 || s.w.conn <= 0)
    {
      hide Bounded, Apply, Recorded, Enabled, TookAll;
      var passes: nat := *;
      while true
        invariant Bounded(s) && Recorded(s, id, sent) && events == old(events)
        decreases passes
      {
        var step: Step := *;
        if Foreign(s, step, id) {
          ForeignKeeps(s, step, id, sent);
          assert s.accounts.Keys == s.w.streams.Keys by { KeysAgree(s); }
          assert Enabled(s, step);
          s := Apply(s, step);
        }
        var dead := Happens(StreamEnded);
        if dead || id !in s.w.streams {
          events := events + {StreamEnded};
          return Stop;
        }
        if Available(s.w, id) > 0 {
          var k := Outbound.Taken(s.w, id, maxBytes);
          TakingKeeps(s, id, maxBytes, sent);
          s := Apply(s, Send(id, maxBytes));
          return Taken(k);
        }
        if passes == 0 {
          events := events + {NoCreditYet};
          return Waiting;
        }
        passes := passes - 1;
      }
    }
  }

  /** The credit taken is all there was: what is left of a window is nothing, or the caller or the frame limit asked for
      no more. */
  predicate TookAll(w: Windows, id: nat, maxBytes: nat, n: nat) {
    n == maxBytes || n == w.maxFrame || w.conn == 0 || (id in w.streams && w.streams[id] == 0)
  }

  /** So what was sent on a registered stream is within what the peer granted to it. */
  lemma RecordedIsGranted(s: State, id: nat, sent: nat)
    requires Bounded(s) && Recorded(s, id, sent) && id in s.accounts
    ensures sent <= s.largestIw + s.accounts[id].granted
  {
    assert StreamBounded(s, s.w.streams[id], s.accounts[id]);
  }

  lemma KeysAgree(s: State)
    requires Bounded(s)
    ensures s.accounts.Keys == s.w.streams.Keys
  {
  }

  lemma TakingKeeps(s: State, id: nat, maxBytes: nat, sent: nat)
    requires Bounded(s) && Recorded(s, id, sent) && id in s.w.streams && Available(s.w, id) > 0 && maxBytes > 0
    ensures Enabled(s, Send(id, maxBytes)) && s.accounts.Keys == s.w.streams.Keys
    ensures var k, t := Outbound.Taken(s.w, id, maxBytes), Apply(s, Send(id, maxBytes));
            && Bounded(t) && k >= 0 && Recorded(t, id, sent + k)
            && 1 <= k <= Min(maxBytes, t.w.maxFrame) && id in t.w.streams && 0 <= t.w.streams[id] && 0 <= t.w.conn
            && TookAll(t.w, id, maxBytes, k)
  {
    StepIsBounded(s, Send(id, maxBytes));
  }

  /** A frame of the request: DATA with the credit it used and the frame limit then in force, or the trailers. */
  datatype Frame =
    | Data(payload: bytes, endStream: bool, credit: nat, maxFrame: nat)
    | Trailers(block: bytes)

  predicate Ends(f: Frame) {
    f.Trailers? || f.endStream
  }

  /** The DATA bytes of the frames, in order. */
  function Payload(frames: seq<Frame>): bytes {
    if frames == [] then [] else
      var f := frames[|frames| - 1];
      Payload(frames[..|frames| - 1]) + if f.Data? then f.payload else []
  }

  lemma PayloadSnoc(frames: seq<Frame>, f: Frame)
    ensures Payload(frames + [f]) == Payload(frames) + if f.Data? then f.payload else []
  {
    assert (frames + [f])[..|frames|] == frames;
  }

  /** Every DATA frame carries exactly the credit taken for it and respects the frame limit; only the last
      frame may end the stream. */
  predicate WellSent(frames: seq<Frame>) {
    && (forall i :: 0 <= i < |frames| && frames[i].Data? ==> |frames[i].payload| == frames[i].credit <= frames[i].maxFrame)
    && (forall i :: 0 <= i < |frames| - 1 ==> !Ends(frames[i]))
  }

  predicate NotEnded(frames: seq<Frame>) {
    forall i :: 0 <= i < |frames| ==> !Ends(frames[i])
  }

  datatype Outcome = Done | BodyTooLong | BodyFailed | Stopped | WriteFailed | Blocked | BadTrailers

  /** What must have happened for an outcome. */
  predicate Explained(out: Outcome, events: set<Event>, bodyFailed: bool) {
    match out
    case Done => true
    case BodyTooLong => true
    case BodyFailed => bodyFailed
    case Stopped => StreamEnded in events || BodyClosed in events || RequestAborted in events
    case WriteFailed => FrameFailed in events
    case Blocked => NoCreditYet in events
    case BadTrailers => TrailersInvalid in events
  }

  const MAX_SCRATCH := 0x8_0000

  /** The length of the read buffer: at least one byte, at most one more than declared. */
  function FrameScratchBufferLen(maxFrameSize: nat, declared: int): (n: nat)
    ensures 1 <= n <= MAX_SCRATCH
    ensures n <= Max(1, maxFrameSize) && (declared >= 0 ==> n <= declared + 1)
    ensures n == 1 || n == MAX_SCRATCH || n == maxFrameSize || n == declared + 1
  {
    var n := Min(maxFrameSize, MAX_SCRATCH);
    var m := if declared != -1 && declared + 1 < n then declared + 1 else n;
    if m < 1 then 1 else m
  }

  /** declared == -1: length unknown; trailers == None: none announced. Without an event or a failing read the body is sent,
      unless it is longer than declared. */
  method WriteRequestBody(conn: Conn, body: Body, declared: int, trailers: Option<bytes>, maxFrameSize: nat)
    returns (out: Outcome, frames: seq<Frame>)
    requires declared >= -1 && body.read == [] && !body.failed && Bounded(conn.s) && Recorded(conn.s, conn.id, 0) && conn.events == {}
    modifies conn`s, conn`events, body
    ensures WellSent(frames) && Payload(frames) <= body.read
    ensures Bounded(conn.s) && Recorded(conn.s, conn.id, |Payload(frames)|)
    ensures declared >= 0 ==> |Payload(frames)| <= declared
    ensures out == BodyTooLong <==> declared >= 0 && |body.read| > declared
    ensures Explained(out, conn.events, body.failed)
    ensures conn.events == {} && !body.failed ==> out == Done || out == BodyTooLong
    ensures out == Done ==> conn.events == {} && !body.failed
    ensures out == Done ==> Payload(frames) == body.read && frames != [] && Ends(frames[|frames| - 1])
    ensures out == Done && trailers.Some? && trailers.value != [] ==> frames[|frames| - 1] == Trailers(trailers.value)
  {
    assert Payload([]) == [];
    hide Payload, Bounded, Recorded;
    frames := [];
    var remainLen, sentEnd, sawEOF := declared, false, false;
    var room: nat := *; // a pooled buffer may be longer than asked for
    room := Max(room, FrameScratchBufferLen(maxFrameSize, declared));
    while !sawEOF
      invariant WellSent(frames) && Payload(frames) == body.read
      invariant Bounded(conn.s) && Recorded(conn.s, conn.id, |Payload(frames)|)
      invariant conn.events == {} && !body.failed
      invariant sentEnd ==> sawEOF && trailers.None? && frames != [] && Ends(frames[|frames| - 1])
      invariant !sentEnd ==> NotEnded(frames)
      invariant declared >= 0 ==> 0 <= remainLen && |body.read| + remainLen == declared
      decreases !sawEOF, body.left
    {
      ghost var before := body.read;
      var data, err := body.Read(room);
      if declared != -1 {
        remainLen := remainLen - |data|;
        if remainLen == 0 && err == NoErr {
          var extra;
          extra, err := body.Read(1);
          remainLen := remainLen - |extra|;
        }
        if remainLen < 0 {
          return BodyTooLong, frames;
        }
      }
      if err != NoErr {
        var bodyClosed := conn.Happens(BodyClosed);
        if bodyClosed {
          return Stopped, frames;
        }
        if err == Failed {
          return BodyFailed, frames;
        }
        sawEOF := true;
      }
      assert body.read == before + data;
      var sent: Outcome;
      sent, frames, sentEnd := WriteChunk(conn, data, sawEOF && trailers.None?, frames);
      if sent != Done {
        return sent, frames;
      }
    }
    if sentEnd {
      return Done, frames;
    }
    out, frames := EndBody(conn, trailers, frames);
  }

  /** The last frame: the trailers, or an empty DATA frame with END_STREAM. */
  method EndBody(conn: Conn, trailers: Option<bytes>, before: seq<Frame>) returns (out: Outcome, frames: seq<Frame>)
    requires WellSent(before) && NotEnded(before) && conn.events == {}
    modifies conn`events
    ensures WellSent(frames) && Payload(frames) == Payload(before)
    ensures Explained(out, conn.events, false) && out != BodyTooLong && (out == Done <==> conn.events == {})
    ensures out == Done ==> frames != [] && Ends(frames[|frames| - 1])
    ensures out == Done && trailers.Some? && trailers.value != [] ==> frames[|frames| - 1] == Trailers(trailers.value)
  {
    frames := before;
    var aborted := conn.Happens(RequestAborted);
    if aborted {
      return Stopped, frames;
    }
    if trailers.Some? && trailers.value != [] {
      var invalid := conn.Happens(TrailersInvalid);
      if invalid {
        return BadTrailers, frames;
      }
    }
    var last := if trailers.Some? && trailers.value != [] then Trailers(trailers.value) else Data([], true, 0, 0);
    PayloadSnoc(before, last);
    assert Payload(before) + [] == Payload(before);
    hide Payload;
    frames := before + [last];
    var failed := conn.Happens(FrameFailed);
    out := if failed then WriteFailed else Done;
  }

  /** Sends one read's worth of bytes, as credit allows; final: these bytes end the body and the stream. */
  method WriteChunk(conn: Conn, data: bytes, final: bool, before: seq<Frame>)
    returns (out: Outcome, frames: seq<Frame>, sentEnd: bool)
    requires WellSent(before) && NotEnded(before) && Bounded(conn.s) && Recorded(conn.s, conn.id, |Payload(before)|) && conn.events == {}
    modifies conn`s, conn`events
    ensures WellSent(frames) && Payload(before) <= Payload(frames) <= Payload(before) + data
    ensures Bounded(conn.s) && Recorded(conn.s, conn.id, |Payload(frames)|)
    ensures Explained(out, conn.events, false) && out != BodyTooLong && (out == Done <==> conn.events == {})
    ensures out == Done ==> Payload(frames) == Payload(before) + data
    ensures sentEnd ==> final && frames != [] && Ends(frames[|frames| - 1])
    ensures !sentEnd ==> NotEnded(frames)
    ensures out == Done && final && data != [] ==> sentEnd
  {
    hide Payload, Bounded, Recorded;
    var sent := 0;
    out, frames, sentEnd := Done, before, false;
    while sent < |data|
      invariant sent <= |data| && WellSent(frames) && Payload(frames) == Payload(before) + data[..sent]
      invariant Bounded(conn.s) && Recorded(conn.s, conn.id, |Payload(frames)|) && conn.events == {}
      invariant sentEnd <==> final && sent == |data| > 0
      invariant sentEnd ==> frames != [] && Ends(frames[|frames| - 1])
      invariant !sentEnd ==> NotEnded(frames)
    {
      var c := conn.AwaitFlowControl(|data| - sent, |Payload(frames)|);
      if !c.Taken? {
        return if c.Stop? then Stopped else Blocked, frames, sentEnd;
      }
      var payload := data[sent..sent + c.n];
      sent := sent + c.n;
      sentEnd := final && sent == |data|;
      var f := Data(payload, sentEnd, c.n, conn.s.w.maxFrame);
      PayloadSnoc(frames, f);
      assert data[..sent] == data[..sent - c.n] + payload;
      frames := frames + [f];
      var failed := conn.Happens(FrameFailed);
      if failed {
        return WriteFailed, frames, sentEnd;
      }
    }
    assert data[..sent] == data;
  }
}
