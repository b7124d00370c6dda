/** Header blocks across frames (internal/http2/transport.go writeHeaders, internal/http2/frame.go checkFrameOrder
    and readMetaFrame; sections 6.2 and 6.10 of RFC 7540). The HPACK decoder is an arbitrary function of the bytes
    it has been fed. */
module HeaderBlock {
  import opened Base
  import opened Frames
  import opened Framing

  // ----- Cutting a block into frames -----

  function Fragments(block: bytes, max: nat): (pieces: seq<bytes>)
    requires max > 0
  {
    if block == [] then []
    else if |block| <= max then [block]
    else [block[..max]] + Fragments(block[max..], max)
  }

  /** The pieces are the block in order, none is empty or over the limit, and only the last may be short. */
  lemma {:induction false} FragmentsPartition(block: bytes, max: nat)
    requires max > 0
    ensures Concat(Fragments(block, max)) == block
    ensures (Fragments(block, max) == []) == (block == [])
    ensures forall i :: 0 <= i < |Fragments(block, max)| ==> 1 <= |Fragments(block, max)[i]| <= max
    ensures forall i :: 0 <= i < |Fragments(block, max)| - 1 ==> |Fragments(block, max)[i]| == max
  {
    if block == [] {
    } else if |block| <= max {
      assert [block][1..] == [];
    } else {
      FragmentsPartition(block[max..], max);
      assert Fragments(block, max)[1..] == Fragments(block[max..], max);
      assert block[..max] + block[max..] == block;
    }
  }

  lemma {:induction false} FragmentAtMostBlock(block: bytes, max: nat)
    requires max > 0
    ensures forall i :: 0 <= i < |Fragments(block, max)| ==> |Fragments(block, max)[i]| <= Min(|block|, max)
  {
    if |block| > max {
      FragmentAtMostBlock(block[max..], max);
    }
  }

  /** The bytes of the CONTINUATION frames that finish a block. */
  function Continuations(id: uint32, pieces: seq<bytes>): bytes {
    if pieces == [] then []
    else Serialize(Emitted(WriteContinuation(id, |pieces| == 1, pieces[0]))) + Continuations(id, pieces[1..])
  }

  /** The bytes of a whole block: one HEADERS frame, then CONTINUATION frames; END_HEADERS only on the last. */
  function BlockWire(id: uint32, endStream: bool, pieces: seq<bytes>, priority: Priority): bytes {
    if pieces == [] then []
    else Serialize(Emitted(WriteHeaders(id, pieces[0], endStream, |pieces| == 1, 0, priority))) + Continuations(id, pieces[1..])
  }

  /** What must hold for the HEADERS frame to be accepted by the writer; the CONTINUATION frames then are, too. */
  predicate Sendable(id: uint32, block: bytes, max: nat, priority: Priority) {
    && ValidStreamID(id)
    && (priority.IsZero() || priority.streamDep < HIGH_BIT)
    && Min(|block|, max) + (if priority.IsZero() then 0 else 5) < MAX_LENGTH
  }

  /** What reaches the writer of a call whose result is ignored. */
  function Accepted(c: Call): bytes {
    if Refusal(c).Some? then [] else Serialize(Emitted(c))
  }

  function ContinuationsWritten(id: uint32, pieces: seq<bytes>): bytes {
    if pieces == [] then []
    else Accepted(WriteContinuation(id, |pieces| == 1, pieces[0])) + ContinuationsWritten(id, pieces[1..])
  }

  /** What is written of a block: the CONTINUATION frames also when the HEADERS frame was refused. */
  function BlockWritten(id: uint32, endStream: bool, pieces: seq<bytes>, priority: Priority): bytes {
    if pieces == [] then []
    else Accepted(WriteHeaders(id, pieces[0], endStream, |pieces| == 1, 0, priority)) + ContinuationsWritten(id, pieces[1..])
  }

  lemma FramesAccepted(id: uint32, block: bytes, max: nat, priority: Priority, piece: bytes, endStream: bool, last: bool)
    requires Sendable(id, block, max, priority) && |piece| <= Min(|block|, max)
    ensures Refusal(WriteHeaders(id, piece, endStream, last, 0, priority)) == None
    ensures Refusal(WriteContinuation(id, last, piece)) == None
  {
    PriorityLength(priority);
    hide PriorityBytes;
  }

  lemma PriorityLength(p: Priority)
    ensures |PriorityBytes(p)| == 5
  {
  }

  lemma HeadersPayloadLength(id: uint32, piece: bytes, endStream: bool, last: bool, priority: Priority)
    ensures |Emitted(WriteHeaders(id, piece, endStream, last, 0, priority)).payload| == |piece| + (if priority.IsZero() then 0 else 5)
  {
    PriorityLength(priority);
    hide PriorityBytes;
  }

  /** The loop of writeHeaders, which ignores what the Write calls return. Unless the connection fails, the writer has got
      exactly the accepted frames of the block. */
  method WriteHeaderBlock(fr: Framer, id: uint32, endStream: bool, maxFrameSize: nat, block: bytes, priority: Priority)
    returns (failed: bool)
    requires maxFrameSize > 0
    modifies fr
    ensures failed == fr.werr
    ensures !failed ==> fr.output == old(fr.output) + BlockWritten(id, endStream, Fragments(block, maxFrameSize), priority)
    ensures failed ==> old(fr.output) <= fr.output <= old(fr.output) + BlockWritten(id, endStream, Fragments(block, maxFrameSize), priority)
  {
    hide Legal, Emitted, Serialize, Refusal;
    ghost var wire := BlockWritten(id, endStream, Fragments(block, maxFrameSize), priority);
    ghost var start := fr.output;
    var hdrs := block;
    var first := true;
    ghost var rest := wire; // what is still to be written
    while |hdrs| > 0 && !fr.werr
      invariant |hdrs| <= |block| && (first ==> hdrs == block)
      invariant rest == if first then wire else ContinuationsWritten(id, Fragments(hdrs, maxFrameSize))
      invariant start <= fr.output <= start + wire
      invariant !fr.werr ==> start + wire == fr.output + rest
    {
      var chunk := hdrs;
      if |chunk| > maxFrameSize {
        chunk := chunk[..maxFrameSize];
      }
      ghost var pieces := Fragments(hdrs, maxFrameSize);
      hdrs := hdrs[|chunk|..];
      var endHeaders := |hdrs| == 0;
      assert pieces[1..] == Fragments(hdrs, maxFrameSize);
      FragmentsPartition(hdrs, maxFrameSize);
      ghost var before := fr.output;
      ghost var frame;
      rest := ContinuationsWritten(id, pieces[1..]);
      if first {
        frame := Accepted(WriteHeaders(id, chunk, endStream, endHeaders, 0, priority));
        var _ := fr.WriteHeaders(id, chunk, endStream, endHeaders, 0, priority);
        first := false;
      } else {
        frame := Accepted(WriteContinuation(id, endHeaders, chunk));
        var _ := fr.WriteContinuation(id, endHeaders, chunk);
      }
      assert start + wire == before + (frame + rest);
      Extend(start + wire, before, frame, rest, fr.output);
    }
    failed := fr.werr;
  }

  lemma Extend(all: bytes, before: bytes, frame: bytes, rest: bytes, after: bytes)
    requires all == before + (frame + rest) && before <= after <= before + frame
    ensures before <= after <= all && (after == before + frame ==> all == after + rest)
  {
    assert before + (frame + rest) == (before + frame) + rest;
  }

  /** A whole block is written exactly when its first frame is accepted. */
  lemma WrittenWholeExactlyWhen(id: uint32, endStream: bool, max: nat, block: bytes, priority: Priority)
    requires max > 0 && block != []
    ensures var pieces := Fragments(block, max);
            BlockWritten(id, endStream, pieces, priority) == BlockWire(id, endStream, pieces, priority)
            <==> Sendable(id, block, max, priority)
  {
    var pieces := Fragments(block, max);
    var rest := pieces[1..];
    var c := WriteHeaders(id, pieces[0], endStream, |pieces| == 1, 0, priority);
    FragmentsPartition(block, max);
    FragmentAtMostBlock(block, max);
    HeadersAcceptedExactlyWhen(id, endStream, max, block, priority);
    if Sendable(id, block, max, priority) {
      AllContinuations(id, rest);
    } else {
      AtMostContinuations(id, rest);
      assert |Serialize(Emitted(c))| > 0;
    }
    hide Fragments, Serialize, Emitted, Refusal, Sendable;
  }

  lemma HeadersAcceptedExactlyWhen(id: uint32, endStream: bool, max: nat, block: bytes, priority: Priority)
    requires max > 0 && block != []
    ensures var pieces := Fragments(block, max);
            Refusal(WriteHeaders(id, pieces[0], endStream, |pieces| == 1, 0, priority)) == None <==> Sendable(id, block, max, priority)
  {
    var pieces := Fragments(block, max);
    HeadersPayloadLength(id, pieces[0], endStream, |pieces| == 1, priority);
    assert |pieces[0]| == Min(|block|, max);
    hide Fragments, Emitted;
  }

  lemma {:induction false} AllContinuations(id: uint32, pieces: seq<bytes>)
    requires ValidStreamID(id) && forall i :: 0 <= i < |pieces| ==> |pieces[i]| < MAX_LENGTH
    ensures ContinuationsWritten(id, pieces) == Continuations(id, pieces)
  {
    if pieces != [] {
      AllContinuations(id, pieces[1..]);
      hide Serialize;
    }
  }

  lemma {:induction false} AtMostContinuations(id: uint32, pieces: seq<bytes>)
    ensures |ContinuationsWritten(id, pieces)| <= |Continuations(id, pieces)|
  {
    if pieces != [] {
      AtMostContinuations(id, pieces[1..]);
      hide Serialize, Emitted, Refusal;
    }
  }

  /** When only the priority is to blame, the rest of the block is sent all the same, and any reader refuses it. */
  lemma HeadlessBlockIsRefused(id: uint32, endStream: bool, max: nat, block: bytes, priority: Priority, tail: bytes, maxRead: nat)
    requires 0 < max < |block| && max < MAX_LENGTH && max <= maxRead && ValidStreamID(id) && !Sendable(id, block, max, priority)
    ensures var wire := BlockWritten(id, endStream, Fragments(block, max), priority);
            wire != [] && ReadOrdered(wire + tail, maxRead, 0) == Err(ProtocolError)
  {
    hide Serialize, Emitted, Refusal, Sendable, ReadOrdered;
    var pieces := Fragments(block, max);
    var rest := pieces[1..];
    FragmentsPartition(block, max);
    HeadersAcceptedExactlyWhen(id, endStream, max, block, priority);
    assert rest == Fragments(block[max..], max);
    FragmentsPartition(block[max..], max);
    assert block[max..] != [];
    hide Fragments;
    AllContinuations(id, rest);
    var more := Continuations(id, rest[1..]) + tail;
    var frame := Serialize(Emitted(WriteContinuation(id, |rest| == 1, rest[0])));
    assert BlockWritten(id, endStream, pieces, priority) + tail == frame + more;
    ContinuationOutOfOrder(id, |rest| == 1, rest[0], more, maxRead);
  }

  lemma ContinuationOutOfOrder(id: uint32, last: bool, piece: bytes, tail: bytes, maxRead: nat)
    requires ValidStreamID(id) && |piece| < MAX_LENGTH && |piece| <= maxRead
    ensures var frame := Serialize(Emitted(WriteContinuation(id, last, piece)));
            frame != [] && ReadOrdered(frame + tail, maxRead, 0) == Err(ProtocolError)
  {
    var c := WriteContinuation(id, last, piece);
    RawRoundTrip(Emitted(c), tail, maxRead);
    assert |Serialize(Emitted(c))| > 0;
    hide Serialize, ReadRaw;
  }

  /** A dependency that is no stream identifier: the two-byte block goes out without its first byte. */
  lemma HeadlessBlock(id: uint32)
    requires ValidStreamID(id)
    ensures BlockWritten(id, true, Fragments([130, 132], 1), Priority(HIGH_BIT, false, 0))
         == Serialize(Emitted(WriteContinuation(id, true, [132])))
  {
    assert [130, 132][..1] == [130] && [130, 132][1..] == [132];
    assert Fragments([132], 1) == [[132]];
    assert Fragments([130, 132], 1) == [[130], [132]];
    var pieces: seq<bytes> := [[130], [132]];
    assert pieces[1..] == [[132]] && pieces[1..][1..] == [];
    assert Accepted(WriteHeaders(id, [130], true, false, 0, Priority(HIGH_BIT, false, 0))) == [];
    assert Refusal(WriteContinuation(id, true, [132])) == None;
    assert ContinuationsWritten(id, []) == [];
    assert ContinuationsWritten(id, pieces[1..]) == Serialize(Emitted(WriteContinuation(id, true, [132]))) + [];
    hide Serialize, Refusal, Emitted, Fragments;
  }

  /** Fragments stay within the peer's limit; a whole HEADERS payload does exactly when the priority, if any,
      leaves room for it. */
  lemma HeadersPayloadFitsExactlyWhen(id: uint32, block: bytes, max: nat, priority: Priority, endStream: bool)
    requires block != [] && max > 0
    ensures var c := WriteHeaders(id, Fragments(block, max)[0], endStream, |block| <= max, 0, priority);
            |Emitted(c).payload| <= max <==> priority.IsZero() || |block| + 5 <= max
  {
    PriorityLength(priority);
    hide PriorityBytes;
  }

  /** A full frame with a priority is five bytes over the limit. */
  lemma PayloadOverLimit(id: uint32, endStream: bool)
    ensures var c := WriteHeaders(id, Fragments(Zeros(0x4000), 0x4000)[0], endStream, true, 0, Priority(1, false, 15));
            |Emitted(c).payload| == 0x4005
  {
    var block := Zeros(0x4000);
    assert |block| == 0x4000;
    assert Fragments(block, 0x4000) == [block];
    HeadersPayloadLength(id, block, endStream, true, Priority(1, false, 15));
    hide Emitted, Zeros, Fragments;
  }

  // ----- The order of frames -----

  /** The part of a frame that the order check looks at. */
  datatype Mark = Mark(typ: byte, streamID: nat, endHeaders: bool)

  function MarkOf(r: Raw): Mark {
    Mark(r.typ, r.streamID, Has(r.flags, END_HEADERS))
  }

  /** checkFrameOrder: the new lastHeaderStream, or nothing when the frame is out of order. */
  function CheckOrder(m: Mark, last: nat): Option<nat> {
    if last != 0 && (m.typ != CONTINUATION || m.streamID != last) then None
    else if last == 0 && m.typ == CONTINUATION then None
    else if m.typ == HEADERS || m.typ == CONTINUATION then Some(if m.endHeaders then 0 else m.streamID)
    else Some(last)
  }

  function CheckAll(ms: seq<Mark>, last: nat): Option<nat> {
    if ms == [] then Some(last)
    else match CheckAll(ms[..|ms| - 1], last)
      case None => None
      case Some(l) => CheckOrder(ms[|ms| - 1], l)
  }

  /** The stream whose header block is open after frame i - 1 (0 when none is). */
  function OpenBefore(ms: seq<Mark>, i: nat): nat
    requires i <= |ms|
  {
    if i > 0 && (ms[i - 1].typ == HEADERS || ms[i - 1].typ == CONTINUATION) && !ms[i - 1].endHeaders then ms[i - 1].streamID else 0
  }

  /** Section 6.10 of RFC 7540 without any state: a CONTINUATION comes exactly after an unfinished HEADERS or
      CONTINUATION, and on the same stream. */
  predicate Contiguous(ms: seq<Mark>) {
    forall i :: 0 <= i < |ms| ==>
      (ms[i].typ == CONTINUATION <==> OpenBefore(ms, i) != 0) && (ms[i].typ == CONTINUATION ==> ms[i].streamID == OpenBefore(ms, i))
  }

  /** The reader's single variable accepts exactly the contiguous runs of frames. */
  lemma {:induction false} OrderIsContiguity(ms: seq<Mark>)
    requires forall i :: 0 <= i < |ms| && (ms[i].typ == HEADERS || ms[i].typ == CONTINUATION) ==> ms[i].streamID != 0
    ensures CheckAll(ms, 0).Some? <==> Contiguous(ms)
    ensures CheckAll(ms, 0).Some? ==> CheckAll(ms, 0).value == OpenBefore(ms, |ms|)
  {
    if ms != [] {
      var n := |ms| - 1;
      var front := ms[..n];
      OrderIsContiguity(front);
      assert forall i :: 0 <= i <= n ==> OpenBefore(front, i) == OpenBefore(ms, i);
      assert forall i :: 0 <= i < n ==> front[i] == ms[i];
      assert Contiguous(ms) ==> Contiguous(front) by {
        if Contiguous(ms) {
          forall i | 0 <= i < n
            ensures (front[i].typ == CONTINUATION <==> OpenBefore(front, i) != 0)
            ensures front[i].typ == CONTINUATION ==> front[i].streamID == OpenBefore(front, i)
          {
            assert ms[i] == front[i];
          }
        }
      }
    }
  }

  // ----- Reading a block back -----

  /** What the decoder reports after the bytes fed so far: the header bytes it will still take, whether it met
      a malformed field, whether decoding failed, whether it stopped inside a field, and whether the pseudo-header
      fields make no response. */
  datatype Verdict = Verdict(remain: uint32, invalid: bool, corrupt: bool, unfinished: bool, badPseudos: bool)

  type Decoder = bytes -> Verdict

  /** Why a fragment ends the connection: it is much larger than what remains (more than twice, in uint32 arithmetic),
      a malformed field came before, or it does not decode. */
  function Objection(dec: Decoder, fed: bytes, frag: bytes): Option<ReadError> {
    if |frag| > 2 * dec(fed).remain % 0x1_0000_0000 || dec(fed).invalid then Some(ProtocolError)
    else if dec(fed + frag).corrupt then Some(CompressionError)
    else None
  }

  /** What is wrong with a whole block. */
  function FinalObjection(dec: Decoder, fed: bytes): Option<ReadError> {
    if dec(fed).unfinished then Some(CompressionError)
    else if dec(fed).invalid || dec(fed).badPseudos then Some(StreamProtocolError)
    else None
  }

  /** ReadFrame: the frame, what follows it, and the new lastHeaderStream. */
  function ReadOrdered(input: bytes, maxRead: nat, last: nat): (r: Result<(Frame, bytes, nat)>)
    ensures r.Ok? ==> |r.value.1| < |input|
    ensures r.Ok? && last != 0 ==> r.value.0.ContinuationFrame?
    ensures r.Ok? && r.value.0.ContinuationFrame? ==> r.value.2 == (if r.value.0.endHeaders then 0 else r.value.0.streamID) && r.value.0.streamID != 0
    ensures r.Ok? && r.value.0.HeadersFrame? ==> r.value.2 == (if r.value.0.endHeaders then 0 else r.value.0.streamID) && r.value.0.streamID != 0
  {
    match ReadRaw(input, maxRead)
    case Err(e) => Err(e)
    case Ok((raw, rest)) =>
      match Parse(raw)
      case Err(e) => Err(e)
      case Ok(f) =>
        match CheckOrder(MarkOf(raw), last)
        case None => Err(ProtocolError)
        case Some(l) => Ok((f, rest, l))
  }

  /** The fragment loop of readMetaFrame: what the decoder has been fed, what is left of the input, and the final
      lastHeaderStream. An unfinished block is always followed by a CONTINUATION, so the source's type assertion
      cannot fail. */
  function ReadFragments(dec: Decoder, fed: bytes, frag: bytes, ended: bool, input: bytes, maxRead: nat, last: nat): Result<(bytes, bytes, nat)>
    requires ended <==> last == 0
    decreases |input|
  {
    if Objection(dec, fed, frag).Some? then Err(Objection(dec, fed, frag).value)
    else if ended then
      if FinalObjection(dec, fed + frag).Some? then Err(FinalObjection(dec, fed + frag).value) else Ok((fed + frag, input, last))
    else match ReadOrdered(input, maxRead, last)
      case Err(e) => Err(e)
      case Ok((f, rest, l)) => ReadFragments(dec, fed + frag, f.fragment, f.endHeaders, rest, maxRead, l)
  }

  datatype Block = Block(streamID: nat, endStream: bool, priority: Option<Priority>, fed: bytes, rest: bytes, last: nat)

  /** Reading a HEADERS frame and everything that belongs to its block. */
  function ReadBlock(dec: Decoder, input: bytes, maxRead: nat, last: nat): Result<Block> {
    match ReadOrdered(input, maxRead, last)
    case Err(e) => Err(e)
    case Ok((f, rest, l)) =>
      if !f.HeadersFrame? then Err(ProtocolError)
      else match ReadFragments(dec, [], f.fragment, f.endHeaders, rest, maxRead, l)
        case Err(e) => Err(e)
        case Ok((fed, after, l')) => Ok(Block(f.streamID, f.endStream, f.priority, fed, after, l'))
  }

  /** The reading half of the Framer. */
  class FrameReader {
    var input: bytes
    var lastHeaderStream: nat
    var fed: bytes // what the HPACK decoder has been given for the current block
    const maxReadSize: nat
    const dec: Decoder

    constructor (input: bytes, maxReadSize: nat, dec: Decoder)
      ensures this.input == input && lastHeaderStream == 0 && this.maxReadSize == maxReadSize && this.dec == dec
    {
      this.input, lastHeaderStream, fed, this.maxReadSize, this.dec := input, 0, [], maxReadSize, dec;
    }

    method CheckFrameOrder(m: Mark) returns (ok: bool)
      modifies this`lastHeaderStream
      ensures ok == CheckOrder(m, old(lastHeaderStream)).Some?
      ensures lastHeaderStream == if ok then CheckOrder(m, old(lastHeaderStream)).value else old(lastHeaderStream)
    {
      if lastHeaderStream != 0 {
        if m.typ != CONTINUATION {
          return false;
        }
        if m.streamID != lastHeaderStream {
          return false;
        }
      } else if m.typ == CONTINUATION {
        return false;
      }
      if m.typ == HEADERS || m.typ == CONTINUATION {
        if m.endHeaders {
          lastHeaderStream := 0;
        } else {
          lastHeaderStream := m.streamID;
        }
      }
      return true;
    }

    method ReadFrame() returns (r: Result<Frame>)
      modifies this`input, this`lastHeaderStream
      ensures var spec := ReadOrdered(old(input), maxReadSize, old(lastHeaderStream));
              if spec.Ok? then r == Ok(spec.value.0) && input == spec.value.1 && lastHeaderStream == spec.value.2
              else r == Err(spec.error) && lastHeaderStream == old(lastHeaderStream)
    {
      hide Parse, ReadU24, ReadU32, Has;
      if |input| < FRAME_HEADER_LEN {
        return Err(ShortRead);
      }
      var header := input[..FRAME_HEADER_LEN];
      var length := ReadU24(input);
      if length > maxReadSize {
        return Err(FrameTooLarge);
      }
      if |input| < FRAME_HEADER_LEN + length {
        return Err(ShortRead);
      }
      var raw := Raw(header[3], header[4], ReadU32(input[5..]) % HIGH_BIT, input[9..9 + length]);
      input := input[9 + length..];
      r := Parse(raw);
      if r.Err? {
        return;
      }
      var ok := CheckFrameOrder(MarkOf(raw));
      if !ok {
        return Err(ProtocolError);
      }
    }

    /** The fragment loop: feeds the decoder until the frame that carries END_HEADERS. */
    method ReadMetaFrame(hf: Frame) returns (r: Result<bytes>)
      requires hf.HeadersFrame? && (hf.endHeaders <==> lastHeaderStream == 0)
      modifies this
      ensures var spec := ReadFragments(dec, [], hf.fragment, hf.endHeaders, old(input), maxReadSize, old(lastHeaderStream));
              if spec.Ok? then r == Ok(spec.value.0) && fed == spec.value.0 && input == spec.value.1 && lastHeaderStream == spec.value.2
              else r == Err(spec.error)
    {
      hide ReadOrdered, Objection, FinalObjection;
      fed := [];
      var hc := hf;
      ghost var spec := ReadFragments(dec, [], hf.fragment, hf.endHeaders, input, maxReadSize, lastHeaderStream);
      while true
        invariant hc.HeadersFrame? || hc.ContinuationFrame?
        invariant hc.endHeaders <==> lastHeaderStream == 0
        invariant spec == ReadFragments(dec, fed, hc.fragment, hc.endHeaders, input, maxReadSize, lastHeaderStream)
        decreases |input|
      {
        var objection := Objection(dec, fed, hc.fragment);
        if objection.Some? {
          return Err(objection.value);
        }
        fed := fed + hc.fragment;
        if hc.endHeaders {
          objection := FinalObjection(dec, fed);
          return if objection.Some? then Err(objection.value) else Ok(fed);
        }
        var f := ReadFrame();
        if f.Err? {
          return Err(f.error);
        }
        hc := f.value;
      }
    }
  }

  /** The first objection to the pieces, one after the other, or to the whole. */
  function FirstObjection(dec: Decoder, fed: bytes, pieces: seq<bytes>): Option<ReadError>
    decreases |pieces|
  {
    if pieces == [] then FinalObjection(dec, fed)
    else if Objection(dec, fed, pieces[0]).Some? then Objection(dec, fed, pieces[0])
    else FirstObjection(dec, fed + pieces[0], pieces[1..])
  }

  /** The decoder goes on after a piece: at most twice as long as what remains, no malformed field before it, and it
      decodes. */
  predicate Welcome(dec: Decoder, fed: bytes, piece: bytes) {
    !TooMuch(dec, fed, piece) && !dec(fed).invalid && !dec(fed + piece).corrupt
  }

  predicate TooMuch(dec: Decoder, fed: bytes, piece: bytes) {
    |piece| > (if dec(fed).remain < 0x8000_0000 then 2 * dec(fed).remain else 2 * dec(fed).remain - 0x1_0000_0000)
  }

  /** All n first pieces are welcome where they come. */
  predicate WelcomeUpTo(dec: Decoder, fed: bytes, pieces: seq<bytes>, n: nat)
    requires n <= |pieces|
  {
    forall k :: 0 <= k < n ==> Welcome(dec, fed + Concat(pieces[..k]), pieces[k])
  }

  /** No objection exactly when every piece is welcome and the whole is a complete block of well-formed fields with the
      pseudo-header fields of a response. */
  lemma {:induction false} TakenExactlyWhen(dec: Decoder, fed: bytes, pieces: seq<bytes>)
    ensures FirstObjection(dec, fed, pieces) == None
       <==> WelcomeUpTo(dec, fed, pieces, |pieces|)
            && var v := dec(fed + Concat(pieces)); !v.unfinished && !v.invalid && !v.badPseudos
    decreases |pieces|
  {
    if pieces == [] {
      assert fed + Concat(pieces) == fed;
    } else {
      TakenExactlyWhen(dec, fed + pieces[0], pieces[1..]);
      assert fed + pieces[0] + Concat(pieces[1..]) == fed + Concat(pieces);
      WelcomeFirst(dec, fed, pieces, |pieces|);
      hide Concat, WelcomeUpTo;
    }
  }

  lemma WelcomeFirst(dec: Decoder, fed: bytes, pieces: seq<bytes>, n: nat)
    requires 0 < n <= |pieces|
    ensures WelcomeUpTo(dec, fed, pieces, n)
       <==> Welcome(dec, fed, pieces[0]) && WelcomeUpTo(dec, fed + pieces[0], pieces[1..], n - 1)
  {
    hide Welcome;
    assert fed + Concat(pieces[..0]) == fed;
    forall k | 0 < k <= |pieces|
      ensures fed + Concat(pieces[..k]) == fed + pieces[0] + Concat(pieces[1..][..k - 1])
    {
      assert pieces[..k][1..] == pieces[1..][..k - 1];
      assert pieces[..k][0] == pieces[0];
    }
    if WelcomeUpTo(dec, fed, pieces, n) {
      assert Welcome(dec, fed + Concat(pieces[..0]), pieces[0]);
      forall k | 0 <= k < n - 1
        ensures Welcome(dec, fed + pieces[0] + Concat(pieces[1..][..k]), pieces[1..][k])
      {
        assert Welcome(dec, fed + Concat(pieces[..k + 1]), pieces[k + 1]);
      }
    }
    if Welcome(dec, fed, pieces[0]) && WelcomeUpTo(dec, fed + pieces[0], pieces[1..], n - 1) {
      forall k | 0 <= k < n
        ensures Welcome(dec, fed + Concat(pieces[..k]), pieces[k])
      {
        if k > 0 {
          assert Welcome(dec, fed + pieces[0] + Concat(pieces[1..][..k - 1]), pieces[1..][k - 1]);
        }
      }
    }
  }

  /** The first unwelcome piece ends the connection: it does not decode, or breaks the protocol. */
  lemma {:induction false} RefusedAt(dec: Decoder, fed: bytes, pieces: seq<bytes>, n: nat)
    requires n < |pieces| && WelcomeUpTo(dec, fed, pieces, n)
    requires !Welcome(dec, fed + Concat(pieces[..n]), pieces[n])
    ensures var before := fed + Concat(pieces[..n]);
            FirstObjection(dec, fed, pieces)
            == Some(if TooMuch(dec, before, pieces[n]) || dec(before).invalid then ProtocolError else CompressionError)
    decreases n
  {
    if n == 0 {
      assert fed + Concat(pieces[..0]) == fed;
    } else {
      WelcomeFirst(dec, fed, pieces, n);
      assert pieces[..n][0] == pieces[0] && pieces[..n][1..] == pieces[1..][..n - 1];
      assert fed + pieces[0] + Concat(pieces[1..][..n - 1]) == fed + Concat(pieces[..n]);
      RefusedAt(dec, fed + pieces[0], pieces[1..], n - 1);
      assert pieces[1..][n - 1] == pieces[n];
      hide Concat, WelcomeUpTo, TooMuch;
    }
  }

  /** A block of welcome pieces that is refused in the end: unfinished ends the connection, anything else the stream. */
  lemma {:induction false} RefusedAtEnd(dec: Decoder, fed: bytes, pieces: seq<bytes>)
    requires WelcomeUpTo(dec, fed, pieces, |pieces|)
    ensures var v := dec(fed + Concat(pieces));
            && (v.unfinished ==> FirstObjection(dec, fed, pieces) == Some(CompressionError))
            && (!v.unfinished && (v.invalid || v.badPseudos) ==> FirstObjection(dec, fed, pieces) == Some(StreamProtocolError))
    decreases |pieces|
  {
    if pieces == [] {
      assert fed + Concat(pieces) == fed;
    } else {
      WelcomeFirst(dec, fed, pieces, |pieces|);
      RefusedAtEnd(dec, fed + pieces[0], pieces[1..]);
      assert fed + pieces[0] + Concat(pieces[1..]) == fed + Concat(pieces);
      hide Concat, WelcomeUpTo;
    }
  }

  lemma ContinuationReads(id: uint32, last: bool, piece: bytes, tail: bytes, maxRead: nat)
    requires ValidStreamID(id) && |piece| < MAX_LENGTH && |piece| <= maxRead
    ensures ReadOrdered(Serialize(Emitted(WriteContinuation(id, last, piece))) + tail, maxRead, id)
         == Ok((ContinuationFrame(id, last, piece), tail, if last then 0 else id))
  {
    var c := WriteContinuation(id, last, piece);
    RawRoundTrip(Emitted(c), tail, maxRead);
    hide Serialize, ReadRaw;
  }

  lemma HeadersReads(id: uint32, endStream: bool, last: bool, piece: bytes, priority: Priority, tail: bytes, maxRead: nat)
    requires Refusal(WriteHeaders(id, piece, endStream, last, 0, priority)) == None
    requires |Emitted(WriteHeaders(id, piece, endStream, last, 0, priority)).payload| <= maxRead
    ensures ReadOrdered(Serialize(Emitted(WriteHeaders(id, piece, endStream, last, 0, priority))) + tail, maxRead, 0)
         == Ok((HeadersFrame(id, endStream, last, if priority.IsZero() then None else Some(priority), piece), tail, if last then 0 else id))
  {
    var c := WriteHeaders(id, piece, endStream, last, 0, priority);
    RawRoundTrip(Emitted(c), tail, maxRead);
    HeadersReadBack(c);
    FlagBits(false, endStream, last, !priority.IsZero());
    hide Serialize, ReadRaw, ParseHeaders, HeadersPayload, Has;
  }

  lemma {:induction false} FragmentsReadBack(dec: Decoder, fed: bytes, id: uint32, pieces: seq<bytes>, tail: bytes, maxRead: nat)
    requires ValidStreamID(id) && pieces != []
    requires forall i :: 0 <= i < |pieces| ==> |pieces[i]| < MAX_LENGTH && |pieces[i]| <= maxRead
    ensures var input := Continuations(id, pieces[1..]) + tail;
            var last := if |pieces| == 1 then 0 else id;
            ReadFragments(dec, fed, pieces[0], |pieces| == 1, input, maxRead, last)
            == (match FirstObjection(dec, fed, pieces) case None => Ok((fed + Concat(pieces), tail, 0)) case Some(e) => Err(e))
    decreases |pieces|
  {
    hide Serialize, Emitted, Objection, FinalObjection;
    var rest := pieces[1..];
    if |pieces| == 1 {
      assert rest == [];
      assert Continuations(id, rest) + tail == tail;
      assert Concat(pieces) == pieces[0];
    } else {
      ContinuationReads(id, |rest| == 1, rest[0], Continuations(id, rest[1..]) + tail, maxRead);
      var frame := Serialize(Emitted(WriteContinuation(id, |rest| == 1, rest[0])));
      assert Continuations(id, rest) + tail == frame + (Continuations(id, rest[1..]) + tail);
      FragmentsReadBack(dec, fed + pieces[0], id, rest, tail, maxRead);
      assert fed + pieces[0] + Concat(rest) == fed + Concat(pieces);
    }
  }

  lemma BlockFromFrame(dec: Decoder, input: bytes, maxRead: nat, f: Frame, rest: bytes, l: nat)
    requires ReadOrdered(input, maxRead, 0) == Ok((f, rest, l)) && f.HeadersFrame?
    ensures ReadBlock(dec, input, maxRead, 0)
         == var r := ReadFragments(dec, [], f.fragment, f.endHeaders, rest, maxRead, l);
            if r.Ok? then Ok(Block(f.streamID, f.endStream, f.priority, r.value.0, r.value.1, r.value.2)) else Err(r.error)
  {
    hide ReadOrdered, ReadFragments;
  }

  /** The first frame of a block, read back in front of whatever follows. */
  lemma FirstFrameReads(id: uint32, endStream: bool, max: nat, block: bytes, priority: Priority, rest: bytes, maxRead: nat)
    requires max > 0 && block != [] && Sendable(id, block, max, priority)
    requires Min(|block|, max) + (if priority.IsZero() then 0 else 5) <= maxRead
    ensures var pieces := Fragments(block, max);
            && pieces != []
            && ReadOrdered(Serialize(Emitted(WriteHeaders(id, pieces[0], endStream, |pieces| == 1, 0, priority))) + rest, maxRead, 0)
               == Ok((HeadersFrame(id, endStream, |pieces| == 1, if priority.IsZero() then None else Some(priority), pieces[0]),
                      rest, if |pieces| == 1 then 0 else id))
  {
    FragmentsPartition(block, max);
    FragmentAtMostBlock(block, max);
    var pieces := Fragments(block, max);
    hide Serialize, Emitted, ReadOrdered, Refusal, Fragments;
    FramesAccepted(id, block, max, priority, pieces[0], endStream, |pieces| == 1);
    HeadersPayloadLength(id, pieces[0], endStream, |pieces| == 1, priority);
    HeadersReads(id, endStream, |pieces| == 1, pieces[0], priority, rest, maxRead);
  }

  /** A block written and read back: the decoder is fed exactly the block, the tail is untouched and no block is
      left open, for every decoder that takes the pieces; any other decoder makes the read fail with its first objection. */
  lemma BlockRoundTrip(dec: Decoder, id: uint32, endStream: bool, max: nat, block: bytes, priority: Priority, tail: bytes, maxRead: nat)
    requires max > 0 && block != [] && Sendable(id, block, max, priority)
    requires Min(|block|, max) + (if priority.IsZero() then 0 else 5) <= maxRead
    ensures var pieces := Fragments(block, max);
            ReadBlock(dec, BlockWire(id, endStream, pieces, priority) + tail, maxRead, 0)
            == (match FirstObjection(dec, [], pieces)
                case None => Ok(Block(id, endStream, if priority.IsZero() then None else Some(priority), block, tail, 0))
                case Some(e) => Err(e))
  {
    var pieces := Fragments(block, max);
    FragmentsPartition(block, max);
    FragmentAtMostBlock(block, max);
    var rest := Continuations(id, pieces[1..]) + tail;
    var first := Serialize(Emitted(WriteHeaders(id, pieces[0], endStream, |pieces| == 1, 0, priority)));
    assert BlockWire(id, endStream, pieces, priority) + tail == first + rest by {
      hide Serialize, Emitted, Fragments;
    }
    FirstFrameReads(id, endStream, max, block, priority, rest, maxRead);
    var f := HeadersFrame(id, endStream, |pieces| == 1, if priority.IsZero() then None else Some(priority), pieces[0]);
    BlockFromFrame(dec, first + rest, maxRead, f, rest, if |pieces| == 1 then 0 else id);
    FragmentsReadBack(dec, [], id, pieces, tail, maxRead);
    assert [] + Concat(pieces) == block;
    hide *;
  }
}
