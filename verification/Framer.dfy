/** The Framer object (internal/http2/frame.go): every Write method builds the frame in wbuf and hands it to the
    writer in one piece, or refuses and writes nothing. */
module Framing {
  import opened Base
  import opened Frames

  datatype WriteError = BadStreamID | BadDepStreamID | BadPadLength | BadPadBytes | BadIncrement | TooLarge | WriterFailed

  /** The first rule the call breaks, in the order in which the writer looks. */
  function Refusal(c: Call): Option<WriteError> {
    if Legal(c) then if |Emitted(c).payload| < MAX_LENGTH then None else Some(TooLarge)
    else match c
      case WriteData(id, _, _, pad) =>
        if !ValidStreamID(id) then Some(BadStreamID) else if pad.Some? && |pad.value| > 255 then Some(BadPadLength) else Some(BadPadBytes)
      case WriteHeaders(id, _, _, _, _, _) => if !ValidStreamID(id) then Some(BadStreamID) else Some(BadDepStreamID)
      case WritePriority(id, _) => if !ValidStreamID(id) then Some(BadStreamID) else Some(BadDepStreamID)
      case WriteWindowUpdate(_, _) => Some(BadIncrement)
      case _ => Some(BadStreamID)
  }

  /** What a call may do to a writer that has taken `before` so far: a refused call leaves it alone, an accepted
      one adds the whole frame, and only a failing writer may keep a part. */
  predicate Outcome(c: Call, err: Option<WriteError>, before: bytes, after: bytes) {
    if Refusal(c).Some? then err == Refusal(c) && after == before
    else if err == None then after == before + Serialize(Emitted(c))
    else err == Some(WriterFailed) && before <= after <= before + Serialize(Emitted(c))
  }

  /** The frame as it stands in wbuf before its length is known. */
  function Buffered(r: Raw): bytes {
    [0, 0, 0, r.typ, r.flags] + U32(r.streamID) + r.payload
  }

  class Framer {
    var wbuf: bytes
    var output: bytes // what the writer has taken
    var werr: bool    // the writer failed once and stays failed

    constructor ()
      ensures output == [] && !werr
    {
      wbuf, output, werr := [], [], false;
    }

    method StartWrite(typ: byte, flags: byte, streamID: uint32)
      modifies this`wbuf
      ensures wbuf == [0, 0, 0, typ, flags] + U32(streamID)
    {
      wbuf := [0, 0, 0, typ, flags] + U32(streamID);
    }

    method WriteByte(v: byte)
      modifies this`wbuf
      ensures wbuf == old(wbuf) + [v]
    {
      wbuf := wbuf + [v];
    }

    method WriteBytes(v: bytes)
      modifies this`wbuf
      ensures wbuf == old(wbuf) + v
    {
      wbuf := wbuf + v;
    }

    method WriteUint16(v: nat)
      modifies this`wbuf
      ensures wbuf == old(wbuf) + U16(v)
    {
      wbuf := wbuf + U16(v);
    }

    method WriteUint32(v: uint32)
      modifies this`wbuf
      ensures wbuf == old(wbuf) + U32(v)
    {
      wbuf := wbuf + U32(v);
    }

    /** The underlying writer: it takes all of p, or fails after some of it and refuses everything afterwards. */
    method Write(p: bytes) returns (ok: bool)
      modifies this`output, this`werr
      ensures ok == !werr && (old(werr) ==> werr && output == old(output))
      ensures if ok then output == old(output) + p else old(output) <= output <= old(output) + p
    {
      var n := *;
      if werr {
        assert output <= output + p;
        return false;
      }
      if 0 <= n < |p| {
        output, werr := output + p[..n], true;
        return false;
      }
      output := output + p;
      return true;
    }

    /** Fills in the length and hands the frame over. */
    method EndWrite(ghost r: Raw) returns (err: Option<WriteError>)
      requires wbuf == Buffered(r)
      modifies this
      ensures if |r.payload| >= MAX_LENGTH then err == Some(TooLarge) && output == old(output)
              else if err == None then output == old(output) + Serialize(r)
              else err == Some(WriterFailed) && old(output) <= output <= old(output) + Serialize(r)
      ensures werr == (old(werr) || err == Some(WriterFailed)) && (old(werr) ==> output == old(output))
    {
      var length := |wbuf| - FRAME_HEADER_LEN;
      assert length == |r.payload|;
      if length >= MAX_LENGTH {
        return Some(TooLarge);
      }
      wbuf := U24(length) + wbuf[3..];
      assert wbuf == Serialize(r);
      var ok := Write(wbuf);
      return if ok then None else Some(WriterFailed);
    }

    method WriteDataPadded(streamID: uint32, endStream: bool, data: bytes, pad: Option<bytes>) returns (err: Option<WriteError>)
      modifies this
      ensures Outcome(WriteData(streamID, endStream, data, pad), err, old(output), output)
    {
      if !ValidStreamID(streamID) {
        return Some(BadStreamID);
      }
      if pad.Some? && |pad.value| > 0 {
        if |pad.value| > 255 {
          return Some(BadPadLength);
        }
        for i := 0 to |pad.value|
          invariant forall j :: 0 <= j < i ==> pad.value[j] == 0
          invariant wbuf == old(wbuf) && output == old(output)
        {
          if pad.value[i] != 0 {
            assert pad.value != Zeros(|pad.value|);
            return Some(BadPadBytes);
          }
        }
        assert pad.value == Zeros(|pad.value|);
      }
      assert Legal(WriteData(streamID, endStream, data, pad));
      var flags: byte := Flag(endStream, END_STREAM) + Flag(pad.Some?, PADDED);
      StartWrite(DATA, flags, streamID);
      if pad.Some? {
        WriteByte(|pad.value| % 0x100);
      }
      WriteBytes(data);
      if pad.Some? {
        WriteBytes(pad.value);
      }
      ghost var r := Emitted(WriteData(streamID, endStream, data, pad));
      assert wbuf == Buffered(r);
      err := EndWrite(r);
    }

    method WriteSettings(settings: seq<Setting>) returns (err: Option<WriteError>)
      requires Legal(Call.WriteSettings(settings)) // identifiers are uint16 values
      modifies this
      ensures Outcome(Call.WriteSettings(settings), err, old(output), output)
    {
      StartWrite(SETTINGS, 0, 0);
      ghost var header := wbuf;
      for i := 0 to |settings|
        invariant header == [0, 0, 0, SETTINGS, 0] + U32(0) && output == old(output)
        invariant header + SettingsBytes(settings) == wbuf + SettingsBytes(settings[i..])
      {
        WriteUint16(settings[i].id);
        WriteUint32(settings[i].val);
        assert settings[i..][1..] == settings[i + 1..];
      }
      err := EndWrite(Emitted(Call.WriteSettings(settings)));
    }

    method WriteSettingsAck() returns (err: Option<WriteError>)
      modifies this
      ensures Outcome(Call.WriteSettingsAck, err, old(output), output)
    {
      StartWrite(SETTINGS, ACK, 0);
      err := EndWrite(Emitted(Call.WriteSettingsAck));
    }

    method WritePing(ack: bool, data: bytes) returns (err: Option<WriteError>)
      requires |data| == 8 // an [8]byte value
      modifies this
      ensures Outcome(Call.WritePing(ack, data), err, old(output), output)
    {
      StartWrite(PING, if ack then ACK else 0, 0);
      WriteBytes(data);
      err := EndWrite(Emitted(Call.WritePing(ack, data)));
    }

    method WriteGoAway(maxStreamID: uint32, code: uint32, debug: bytes) returns (err: Option<WriteError>)
      modifies this
      ensures Outcome(Call.WriteGoAway(maxStreamID, code, debug), err, old(output), output)
    {
      StartWrite(GOAWAY, 0, 0);
      WriteUint32(maxStreamID % HIGH_BIT);
      WriteUint32(code);
      WriteBytes(debug);
      ghost var r := Emitted(Call.WriteGoAway(maxStreamID, code, debug));
      assert wbuf == Buffered(r);
      err := EndWrite(r);
    }

    method WriteWindowUpdate(streamID: uint32, incr: uint32) returns (err: Option<WriteError>)
      modifies this
      ensures Outcome(Call.WriteWindowUpdate(streamID, incr), err, old(output), output)
    {
      if incr < 1 || incr > 2147483647 {
        return Some(BadIncrement);
      }
      StartWrite(WINDOW_UPDATE, 0, streamID);
      WriteUint32(incr);
      err := EndWrite(Emitted(Call.WriteWindowUpdate(streamID, incr)));
    }

    /** The frame of a HEADERS call up to the point where it is handed over. */
    method StartWriteHeaders(streamID: uint32, fragment: bytes, endStream: bool, endHeaders: bool, padLength: byte, priority: Priority)
      returns (err: Option<WriteError>)
      modifies this`wbuf
      ensures var c := Call.WriteHeaders(streamID, fragment, endStream, endHeaders, padLength, priority);
              if Legal(c) then err == None && wbuf == Buffered(Emitted(c)) else err.Some? && err == Refusal(c)
    {
      hide U32, Zeros;
      if !ValidStreamID(streamID) {
        return Some(BadStreamID);
      }
      var flags: byte := Flag(padLength != 0, PADDED) + Flag(endStream, END_STREAM) + Flag(endHeaders, END_HEADERS)
                         + Flag(!priority.IsZero(), PRIORITY_FLAG);
      StartWrite(HEADERS, flags, streamID);
      if padLength != 0 {
        WriteByte(padLength);
      }
      ghost var header := [0, 0, 0, HEADERS, flags] + U32(streamID);
      assert wbuf == header + PadPrefix(padLength);
      hide PadPrefix;
      if !priority.IsZero() {
        var v := priority.streamDep;
        if !ValidStreamIDOrZero(v) {
          return Some(BadDepStreamID);
        }
        if priority.exclusive {
          v := v + HIGH_BIT; // the bit is clear
        }
        WriteUint32(v);
        WriteByte(priority.weight);
      }
      ghost var prio := if priority.IsZero() then [] else PriorityBytes(priority);
      assert wbuf == header + PadPrefix(padLength) + prio;
      hide PriorityBytes;
      WriteBytes(fragment);
      WriteBytes(Zeros(padLength));
      assert wbuf == header + HeadersPayload(fragment, padLength, priority);
      return None;
    }

    method WriteHeaders(streamID: uint32, fragment: bytes, endStream: bool, endHeaders: bool, padLength: byte, priority: Priority)
      returns (err: Option<WriteError>)
      modifies this
      ensures Outcome(Call.WriteHeaders(streamID, fragment, endStream, endHeaders, padLength, priority), err, old(output), output)
      ensures werr == (old(werr) || err == Some(WriterFailed)) && (old(werr) ==> output == old(output))
    {
      hide Legal, Emitted, Serialize;
      err := StartWriteHeaders(streamID, fragment, endStream, endHeaders, padLength, priority);
      if err == None {
        err := EndWrite(Emitted(Call.WriteHeaders(streamID, fragment, endStream, endHeaders, padLength, priority)));
      } else {
        assert err != Some(WriterFailed);
      }
    }

    method WritePriority(streamID: uint32, priority: Priority) returns (err: Option<WriteError>)
      modifies this
      ensures Outcome(Call.WritePriority(streamID, priority), err, old(output), output)
    {
      if !ValidStreamID(streamID) {
        return Some(BadStreamID);
      }
      if !ValidStreamIDOrZero(priority.streamDep) {
        return Some(BadDepStreamID);
      }
      StartWrite(PRIORITY, 0, streamID);
      var v := priority.streamDep;
      if priority.exclusive {
        v := v + HIGH_BIT;
      }
      WriteUint32(v);
      WriteByte(priority.weight);
      err := EndWrite(Emitted(Call.WritePriority(streamID, priority)));
    }

    method WriteRSTStream(streamID: uint32, code: uint32) returns (err: Option<WriteError>)
      modifies this
      ensures Outcome(Call.WriteRSTStream(streamID, code), err, old(output), output)
    {
      if !ValidStreamID(streamID) {
        return Some(BadStreamID);
      }
      StartWrite(RST_STREAM, 0, streamID);
      WriteUint32(code);
      err := EndWrite(Emitted(Call.WriteRSTStream(streamID, code)));
    }

    method WriteContinuation(streamID: uint32, endHeaders: bool, fragment: bytes) returns (err: Option<WriteError>)
      modifies this
      ensures Outcome(Call.WriteContinuation(streamID, endHeaders, fragment), err, old(output), output)
      ensures werr == (old(werr) || err == Some(WriterFailed)) && (old(werr) ==> output == old(output))
    {
      if !ValidStreamID(streamID) {
        return Some(BadStreamID);
      }
      StartWrite(CONTINUATION, Flag(endHeaders, END_HEADERS), streamID);
      WriteBytes(fragment);
      err := EndWrite(Emitted(Call.WriteContinuation(streamID, endHeaders, fragment)));
    }

    method WritePushPromise(streamID: uint32, promiseID: uint32, fragment: bytes, endHeaders: bool, padLength: byte)
      returns (err: Option<WriteError>)
      modifies this
      ensures Outcome(Call.WritePushPromise(streamID, promiseID, fragment, endHeaders, padLength), err, old(output), output)
    {
      if !ValidStreamID(streamID) {
        return Some(BadStreamID);
      }
      hide U32, Serialize, Zeros;
      var flags: byte := Flag(padLength != 0, PADDED) + Flag(endHeaders, END_HEADERS);
      StartWrite(PUSH_PROMISE, flags, streamID);
      if padLength != 0 {
        WriteByte(padLength);
      }
      if !ValidStreamID(promiseID) {
        return Some(BadStreamID);
      }
      WriteUint32(promiseID);
      WriteBytes(fragment);
      WriteBytes(Zeros(padLength));
      assert wbuf == [0, 0, 0, PUSH_PROMISE, flags] + U32(streamID) + PushPromisePayload(promiseID, fragment, padLength);
      err := EndWrite(Emitted(Call.WritePushPromise(streamID, promiseID, fragment, endHeaders, padLength)));
    }

    method WriteRawFrame(typ: byte, flags: byte, streamID: uint32, payload: bytes) returns (err: Option<WriteError>)
      modifies this
      ensures Outcome(Call.WriteRaw(typ, flags, streamID, payload), err, old(output), output)
    {
      StartWrite(typ, flags, streamID);
      WriteBytes(payload);
      err := EndWrite(Raw(typ, flags, streamID, payload));
    }
  }
}
