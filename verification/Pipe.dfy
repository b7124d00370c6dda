/** The closable pipe of internal/http2/pipe.go: the read loop writes response bytes into it, the
    application reads them out, either side may end it. */
module Pipe {
  import opened Base
  import DB = DataBuffer

  datatype Error = EOF | Failure(code: nat)

  /** A pipe's state; each operation below is one critical section under the pipe's mutex. */
  datatype PipeState = PipeState(
    buf: Option<bytes>,      // None: no buffer yet, or done with it
    unread: nat,             // bytes the reader will never see
    err: Option<Error>,      // reported once the buffer is empty
    breakErr: Option<Error>, // reported at once
    readFn: bool)            // code still to be run before err is reported
  {
    predicate Closed() {
      err.Some? || breakErr.Some?
    }

    function Len(): nat {
      if buf.None? then unread else |buf.value|
    }
  }

  const NEW_PIPE := PipeState(None, 0, None, None, false)

  /** What one pass of Read does: hand over bytes, report an error, or park on the condition variable. */
  datatype ReadOutcome = Data(d: bytes) | Ended(e: Error, ranFn: bool) | Parked

  datatype WriteOutcome = Accepted | ClosedPipe | NoBuffer

  function AfterSetBuffer(s: PipeState): PipeState {
    if s.Closed() then s else s.(buf := Some([]))
  }

  function WriteResult(s: PipeState): WriteOutcome {
    if s.Closed() then ClosedPipe else if s.buf.None? then NoBuffer else Accepted
  }

  function AfterWrite(s: PipeState, d: bytes): PipeState {
    if WriteResult(s).Accepted? then s.(buf := Some(s.buf.value + d)) else s
  }

  function ReadResult(s: PipeState, room: nat): ReadOutcome {
    if s.breakErr.Some? then Ended(s.breakErr.value, false)
    else if s.buf.Some? && s.buf.value != [] then Data(s.buf.value[..Min(room, |s.buf.value|)])
    else if s.err.Some? then Ended(s.err.value, s.readFn)
    else Parked
  }

  function AfterRead(s: PipeState, room: nat): PipeState {
    match ReadResult(s, room)
    case Data(d) => s.(buf := Some(s.buf.value[|d|..]))
    case Ended(_, _) => if s.breakErr.Some? then s else s.(buf := None, readFn := false)
    case Parked => s
  }

  function AfterClose(s: PipeState, e: Error, fn: bool): PipeState {
    if s.err.Some? then s else s.(err := Some(e), readFn := fn)
  }

  function AfterBreak(s: PipeState, e: Error): PipeState {
    if s.breakErr.Some? then s else
      s.(breakErr := Some(e), readFn := false, buf := None,
         unread := s.unread + if s.buf.Some? then |s.buf.value| else 0)
  }

  // ----- Whole runs -----

  datatype Op = OpSetBuffer | OpWrite(d: bytes) | OpRead(room: nat) | OpClose(e: Error, fn: bool) | OpBreak(e: Error)

  /** A pipe together with what it accepted and what it handed over so far. */
  datatype History = History(s: PipeState, written: bytes, delivered: bytes)

  function ApplyOp(h: History, op: Op): History {
    match op
    case OpSetBuffer => h.(s := AfterSetBuffer(h.s))
    case OpWrite(d) => h.(s := AfterWrite(h.s, d), written := if WriteResult(h.s).Accepted? then h.written + d else h.written)
    case OpRead(room) =>
      var out := ReadResult(h.s, room);
      h.(s := AfterRead(h.s, room), delivered := if out.Data? then h.delivered + out.d else h.delivered)
    case OpClose(e, fn) => h.(s := AfterClose(h.s, e, fn))
    case OpBreak(e) => h.(s := AfterBreak(h.s, e))
  }

  function RunOps(h: History, ops: seq<Op>): History
    decreases |ops|
  {
    if ops == [] then h else RunOps(ApplyOp(h, ops[0]), ops[1..])
  }

  /** Installing a buffer on an open pipe that still holds bytes is the one operation that loses them. */
  predicate Careful(s: PipeState, op: Op) {
    op.OpSetBuffer? ==> s.Closed() || s.Len() == 0
  }

  predicate CarefulRun(h: History, ops: seq<Op>)
    decreases |ops|
  {
    ops != [] ==> Careful(h.s, ops[0]) && CarefulRun(ApplyOp(h, ops[0]), ops[1..])
  }

  /** Every accepted byte has been delivered, is buffered, or is counted as never to be read. */
  predicate Balanced(h: History) {
    && |h.written| == |h.delivered| + h.s.Len()
    && h.delivered <= h.written
    && (h.s.buf.Some? ==> h.written == h.delivered + h.s.buf.value && h.s.unread == 0)
    && (h.s.breakErr.Some? ==> h.s.buf.None?)
    && (h.s.unread > 0 ==> h.s.breakErr.Some?)
  }

  lemma BalancedStep(h: History, op: Op)
    requires Balanced(h) && Careful(h.s, op)
    ensures Balanced(ApplyOp(h, op))
  {
    if op.OpRead? && ReadResult(h.s, op.room).Data? {
      var q := h.s.buf.value;
      var d := ReadResult(h.s, op.room).d;
      assert h.written == (h.delivered + d) + q[|d|..];
    } else if op.OpWrite? && WriteResult(h.s).Accepted? {
      assert h.written + op.d == h.delivered + (h.s.buf.value + op.d);
    } else if op.OpSetBuffer? && !h.s.Closed() {
      assert h.written == h.delivered + [];
    }
  }

  /** Over every interleaving of writes, reads of any size, close and break, the delivered bytes are a
      prefix of the accepted ones and Len() counts exactly the difference, also after a break. */
  lemma {:induction false} RunIsAQueue(h: History, ops: seq<Op>)
    requires Balanced(h) && CarefulRun(h, ops)
    ensures Balanced(RunOps(h, ops))
    decreases |ops|
  {
    if ops != [] {
      BalancedStep(h, ops[0]);
      RunIsAQueue(ApplyOp(h, ops[0]), ops[1..]);
    }
  }

  /** The guard on SetBuffer is exact: a second buffer on a pipe that holds bytes does lose them. */
  lemma SetBufferKeepsTheBalanceExactlyWhenCareful(h: History)
    requires Balanced(h)
    ensures Balanced(ApplyOp(h, OpSetBuffer)) <==> Careful(h.s, OpSetBuffer)
  {
    if Careful(h.s, OpSetBuffer) {
      BalancedStep(h, OpSetBuffer);
    }
  }

  /** What a read does, by what was accepted and delivered: a broken pipe reports the break; any other hands over the next
      accepted bytes, as many as there are and fit; once all are delivered a closed one reports its end, and only an open
      one parks. */
  lemma ReadsNext(h: History, room: nat)
    requires Balanced(h)
    ensures var out, due := ReadResult(h.s, room), |h.written| - |h.delivered|;
            if h.s.breakErr.Some? then out == Ended(h.s.breakErr.value, false)
            else if due > 0 then out == Data(h.written[|h.delivered|..][..Min(room, due)])
            else if h.s.err.Some? then out.Ended? && out.e == h.s.err.value
            else out == Parked
  {
    if h.s.buf.Some? {
      assert h.written[|h.delivered|..] == h.s.buf.value;
    }
  }

  /** An open pipe with a buffer accepts everything, one that was ended nothing. */
  lemma WritesExactlyWhenOpen(h: History, d: bytes)
    ensures ApplyOp(h, OpWrite(d)).written
         == if h.s.err == None && h.s.breakErr == None && h.s.buf != None then h.written + d else h.written
  {
  }

  /** The closing error reaches a reader of an unbroken pipe only after the last accepted byte. */
  lemma CloseErrorOnlyAfterDraining(ops: seq<Op>, room: nat)
    requires CarefulRun(History(NEW_PIPE, [], []), ops)
    ensures var h := RunOps(History(NEW_PIPE, [], []), ops);
            ReadResult(h.s, room).Ended? && h.s.breakErr.None? ==>
              h.delivered == h.written && Some(ReadResult(h.s, room).e) == h.s.err
  {
    RunIsAQueue(History(NEW_PIPE, [], []), ops);
  }

  /** Once broken or closed, nothing is accepted and the first error of its kind stays. */
  lemma {:induction false} EndIsSticky(h: History, ops: seq<Op>)
    requires h.s.Closed()
    ensures var h' := RunOps(h, ops);
            h'.s.Closed() && h'.written == h.written
            && (h.s.err.Some? ==> h'.s.err == h.s.err) && (h.s.breakErr.Some? ==> h'.s.breakErr == h.s.breakErr)
    decreases |ops|
  {
    if ops != [] {
      EndIsSticky(ApplyOp(h, ops[0]), ops[1..]);
    }
  }

  // ----- The object -----

  class Pipe {
    var b: DB.DataBuffer?
    var unread: nat
    var err: Option<Error>
    var breakErr: Option<Error>
    var readFn: bool

    ghost function Footprint(): set<object>
      reads this, b
    {
      if b == null then {this} else {this, b} + b.repr
    }

    ghost predicate Valid()
      reads this, b, if b == null then {} else b.repr
    {
      b != null ==> b.Valid()
    }

    ghost function View(): PipeState
      requires Valid()
      reads this, b, if b == null then {} else b.repr
    {
      PipeState(if b == null then None else Some(b.Contents()), unread, err, breakErr, readFn)
    }

    constructor ()
      ensures Valid() && View() == NEW_PIPE && Footprint() == {this}
    {
      b, unread, err, breakErr, readFn := null, 0, None, None, false;
    }

    method SetBuffer(buf: DB.DataBuffer)
      requires Valid() && buf.Valid() && buf.Contents() == []
      modifies this`b
      ensures Valid() && View() == AfterSetBuffer(old(View()))
    {
      if err.Some? || breakErr.Some? {
        return;
      }
      b := buf;
    }

    method Len() returns (n: nat)
      requires Valid()
      ensures n == View().Len()
    {
      if b == null {
        return unread;
      }
      n := b.Len();
    }

    /** One pass of the read loop; Parked means the goroutine waits to be signalled and tries again. */
    method Read(p: array<byte>) returns (n: nat, out: ReadOutcome)
      requires Valid() && p !in Footprint()
      modifies this, b, p
      ensures Valid() && Footprint() <= old(Footprint())
      ensures out == ReadResult(old(View()), p.Length)
      ensures View() == AfterRead(old(View()), p.Length)
      ensures n == if out.Data? then |out.d| else 0
      ensures p[..n] == (if out.Data? then out.d else []) && p[n..] == old(p[..])[n..]
    {
      if breakErr.Some? {
        return 0, Ended(breakErr.value, false);
      }
      if b != null {
        var size := b.Len();
        if size > 0 {
          ghost var queue := b.Contents();
          var ok;
          n, ok := b.Read(p);
          return n, Data(p[..n]);
        }
      }
      if err.Some? {
        out := Ended(err.value, readFn);
        readFn, b := false, null;
        return 0, out;
      }
      return 0, Parked;
    }

    method Write(d: bytes) returns (out: WriteOutcome)
      requires Valid()
      modifies this, b, if b == null then {} else b.repr
      ensures Valid() && fresh(Footprint() - old(Footprint()))
      ensures out == WriteResult(old(View())) && View() == AfterWrite(old(View()), d)
    {
      if err.Some? || breakErr.Some? {
        return ClosedPipe;
      }
      if b == null {
        return NoBuffer;
      }
      var n := b.Write(d);
      return Accepted;
    }

    method CloseWithError(e: Error, fn: bool)
      requires Valid()
      modifies this
      ensures Valid() && Footprint() == old(Footprint()) && View() == AfterClose(old(View()), e, fn)
    {
      if err.Some? {
        return;
      }
      readFn := fn;
      err := Some(e);
    }

    method BreakWithError(e: Error)
      requires Valid()
      modifies this
      ensures Valid() && Footprint() <= old(Footprint()) && View() == AfterBreak(old(View()), e)
    {
      if breakErr.Some? {
        return;
      }
      readFn := false;
      if b != null {
        var size := b.Len();
        unread := unread + size;
      }
      b := null;
      breakErr := Some(e);
    }
  }
}
