/** HTTP/2 frames on the wire (internal/http2/frame.go; sections 4.1 and 6 of RFC 7540): what each Write
    method emits and what reading those bytes back yields. */
module Frames {
  import opened Base

  const FRAME_HEADER_LEN := 9
  const MAX_LENGTH := 0x100_0000 // lengths are 24 bits
  const HIGH_BIT := 0x8000_0000

  const DATA: byte := 0
  const HEADERS: byte := 1
  const PRIORITY: byte := 2
  const RST_STREAM: byte := 3
  const SETTINGS: byte := 4
  const PUSH_PROMISE: byte := 5
  const PING: byte := 6
  const GOAWAY: byte := 7
  const WINDOW_UPDATE: byte := 8
  const CONTINUATION: byte := 9

  const END_STREAM := 0x1
  const ACK := 0x1
  const END_HEADERS := 0x4
  const PADDED := 0x8
  const PRIORITY_FLAG := 0x20

  /** Whether a single flag bit is set. */
  predicate Has(flags: byte, bit: int)
    requires bit > 0
  {
    flags / bit % 2 == 1
  }

  function Flag(on: bool, bit: int): int {
    if on then bit else 0
  }

  // ----- Integers, most significant byte first -----

  function U16(v: nat): bytes {
    [v / 0x100 % 0x100, v % 0x100]
  }

  function U24(v: nat): bytes {
    [v / 0x1_0000 % 0x100, v / 0x100 % 0x100, v % 0x100]
  }

  function U32(v: nat): bytes {
    [v / 0x100_0000 % 0x100, v / 0x1_0000 % 0x100, v / 0x100 % 0x100, v % 0x100]
  }

  function ReadU16(p: bytes): nat
    requires |p| >= 2
  {
    p[0] as int * 0x100 + p[1] as int
  }

  function ReadU24(p: bytes): nat
    requires |p| >= 3
  {
    p[0] as int * 0x1_0000 + p[1] as int * 0x100 + p[2] as int
  }

  function ReadU32(p: bytes): uint32
    requires |p| >= 4
  {
    p[0] as int * 0x100_0000 + p[1] as int * 0x1_0000 + p[2] as int * 0x100 + p[3] as int
  }

  lemma U16RoundTrip(v: nat, tail: bytes)
    requires v < 0x1_0000
    ensures ReadU16(U16(v) + tail) == v && |U16(v)| == 2
  {
  }

  lemma U24RoundTrip(v: nat, tail: bytes)
    requires v < MAX_LENGTH
    ensures ReadU24(U24(v) + tail) == v && |U24(v)| == 3
  {
  }

  lemma U32RoundTrip(v: nat, tail: bytes)
    requires v < 0x1_0000_0000
    ensures ReadU32(U32(v) + tail) == v && |U32(v)| == 4
  {
    FourBytes(v);
  }

  lemma FourBytes(v: nat)
    requires v < 0x1_0000_0000
    ensures v / 0x100_0000 % 0x100 * 0x100_0000 + v / 0x1_0000 % 0x100 * 0x1_0000 + v / 0x100 % 0x100 * 0x100 + v % 0x100 == v
  {
    var a, b := v / 0x100, v / 0x1_0000;
    assert a / 0x100 == b && b / 0x100 == v / 0x100_0000;
  }

  // ----- Frames -----

  datatype Priority = Priority(streamDep: uint32, exclusive: bool, weight: byte) {
    predicate IsZero() {
      streamDep == 0 && !exclusive && weight == 0
    }
  }

  datatype Setting = Setting(id: nat, val: uint32)

  const INITIAL_WINDOW_SIZE_ID := 4

  /** A frame as the reader reports it; length is that of the whole payload, padding included. */
  datatype Frame =
    | DataFrame(streamID: nat, length: nat, endStream: bool, data: bytes)
    | HeadersFrame(streamID: nat, endStream: bool, endHeaders: bool, priority: Option<Priority>, fragment: bytes)
    | PriorityFrame(streamID: nat, prio: Priority)
    | RSTStreamFrame(streamID: nat, code: uint32)
    | SettingsFrame(ack: bool, settings: seq<Setting>)
    | PushPromiseFrame(streamID: nat, promiseID: nat, endHeaders: bool, fragment: bytes)
    | PingFrame(ack: bool, data: bytes)
    | GoAwayFrame(lastStreamID: nat, code: uint32, debug: bytes)
    | WindowUpdateFrame(streamID: nat, incr: nat)
    | ContinuationFrame(streamID: nat, endHeaders: bool, fragment: bytes)
    | UnknownFrame(typ: byte, flags: byte, streamID: nat, payload: bytes)

  /** A frame before it is interpreted. */
  datatype Raw = Raw(typ: byte, flags: byte, streamID: uint32, payload: bytes)

  /** The calls of the ten kinds of Write method, and the raw one. */
  datatype Call =
    | WriteData(streamID: uint32, endStream: bool, data: bytes, pad: Option<bytes>)
    | WriteHeaders(streamID: uint32, fragment: bytes, endStream: bool, endHeaders: bool, padLength: byte, priority: Priority)
    | WritePriority(streamID: uint32, priority: Priority)
    | WriteRSTStream(streamID: uint32, code: uint32)
    | WriteSettings(settings: seq<Setting>)
    | WriteSettingsAck
    | WritePushPromise(streamID: uint32, promiseID: uint32, fragment: bytes, endHeaders: bool, padLength: byte)
    | WritePing(ack: bool, ping: bytes)
    | WriteGoAway(maxStreamID: uint32, code: uint32, debug: bytes)
    | WriteWindowUpdate(streamID: uint32, incr: uint32)
    | WriteContinuation(streamID: uint32, endHeaders: bool, fragment: bytes)
    | WriteRaw(typ: byte, flags: byte, streamID: uint32, payload: bytes)

  predicate ValidStreamID(id: uint32) {
    id != 0 && id < HIGH_BIT
  }

  predicate ValidStreamIDOrZero(id: uint32) {
    id < HIGH_BIT
  }

  function Zeros(n: nat): bytes {
    seq(n, i => 0)
  }

  /** The arguments the writer accepts. */
  predicate Legal(c: Call) {
    match c
    case WriteData(id, _, _, pad) =>
      ValidStreamID(id) && (pad.Some? ==> |pad.value| <= 255 && pad.value == Zeros(|pad.value|))
    case WriteHeaders(id, _, _, _, _, priority) => ValidStreamID(id) && (!priority.IsZero() ==> ValidStreamIDOrZero(priority.streamDep))
    case WritePriority(id, priority) => ValidStreamID(id) && ValidStreamIDOrZero(priority.streamDep)
    case WriteRSTStream(id, _) => ValidStreamID(id)
    case WritePushPromise(id, promiseID, _, _, _) => ValidStreamID(id) && ValidStreamID(promiseID)
    case WriteWindowUpdate(_, incr) => 1 <= incr < HIGH_BIT
    case WriteContinuation(id, _, _) => ValidStreamID(id)
    case WritePing(_, ping) => |ping| == 8
    case WriteSettings(settings) => forall i :: 0 <= i < |settings| ==> settings[i].id < 0x1_0000
    case _ => true
  }

  function PriorityBytes(p: Priority): bytes {
    U32(if p.exclusive && p.streamDep < HIGH_BIT then p.streamDep + HIGH_BIT else p.streamDep) + [p.weight]
  }

  function SettingsBytes(settings: seq<Setting>): bytes {
    if settings == [] then [] else U16(settings[0].id) + U32(settings[0].val) + SettingsBytes(settings[1..])
  }

  function PadPrefix(padLength: byte): bytes {
    if padLength != 0 then [padLength] else []
  }

  function DataPayload(data: bytes, pad: Option<bytes>): bytes {
    if pad.Some? then [|pad.value| % 0x100] + data + pad.value else data
  }

  function HeadersPayload(fragment: bytes, padLength: byte, priority: Priority): bytes {
    PadPrefix(padLength) + (if priority.IsZero() then [] else PriorityBytes(priority)) + fragment + Zeros(padLength)
  }

  function PushPromisePayload(promiseID: nat, fragment: bytes, padLength: byte): bytes {
    PadPrefix(padLength) + U32(promiseID) + fragment + Zeros(padLength)
  }

  /** What an accepted call puts into the frame. */
  function Emitted(c: Call): Raw {
    match c
    case WriteData(id, endStream, data, pad) =>
      Raw(DATA, Flag(endStream, END_STREAM) + Flag(pad.Some?, PADDED), id,
          DataPayload(data, pad))
    case WriteHeaders(id, fragment, endStream, endHeaders, padLength, priority) =>
      Raw(HEADERS, Flag(padLength != 0, PADDED) + Flag(endStream, END_STREAM) + Flag(endHeaders, END_HEADERS)
                   + Flag(!priority.IsZero(), PRIORITY_FLAG), id,
          HeadersPayload(fragment, padLength, priority))
    case WritePriority(id, priority) => Raw(PRIORITY, 0, id, PriorityBytes(priority))
    case WriteRSTStream(id, code) => Raw(RST_STREAM, 0, id, U32(code))
    case WriteSettings(settings) => Raw(SETTINGS, 0, 0, SettingsBytes(settings))
    case WriteSettingsAck => Raw(SETTINGS, ACK, 0, [])
    case WritePushPromise(id, promiseID, fragment, endHeaders, padLength) =>
      Raw(PUSH_PROMISE, Flag(padLength != 0, PADDED) + Flag(endHeaders, END_HEADERS), id,
          PushPromisePayload(promiseID, fragment, padLength))
    case WritePing(ack, ping) => Raw(PING, Flag(ack, ACK), 0, ping)
    case WriteGoAway(maxStreamID, code, debug) => Raw(GOAWAY, 0, 0, U32(maxStreamID % HIGH_BIT) + U32(code) + debug)
    case WriteWindowUpdate(id, incr) => Raw(WINDOW_UPDATE, 0, id, U32(incr))
    case WriteContinuation(id, endHeaders, fragment) => Raw(CONTINUATION, Flag(endHeaders, END_HEADERS), id, fragment)
    case WriteRaw(typ, flags, id, payload) => Raw(typ, flags, id, payload)
  }

  function Serialize(r: Raw): bytes {
    U24(|r.payload|) + [r.typ, r.flags] + U32(r.streamID) + r.payload
  }

  // ----- Reading -----

  datatype ReadError = ShortRead | FrameTooLarge | ProtocolError | FrameSizeError | FlowControlError | CompressionError | StreamProtocolError | UnexpectedEOF

  datatype Result<+T> = Ok(value: T) | Err(error: ReadError)

  function ParseSettings(p: bytes): seq<Setting>
    requires |p| % 6 == 0
  {
    if p == [] then [] else [Setting(ReadU16(p), ReadU32(p[2..]))] + ParseSettings(p[6..])
  }

  /** The first value of a setting, as SettingsFrame.Value reports it. */
  function SettingValue(settings: seq<Setting>, id: nat): Option<uint32> {
    if settings == [] then None
    else if settings[0].id == id then Some(settings[0].val)
    else SettingValue(settings[1..], id)
  }

  /** The pad length and what follows it, when the frame is padded. */
  function ReadPad(flags: byte, p: bytes): Result<(nat, bytes)> {
    if !Has(flags, PADDED) then Ok((0, p))
    else if p == [] then Err(UnexpectedEOF)
    else Ok((p[0], p[1..]))
  }

  function ReadPriority(p: bytes): Result<(Priority, bytes)> {
    if |p| < 4 then Err(UnexpectedEOF)
    else if |p| < 5 then Err(UnexpectedEOF)
    else Ok((Priority(ReadU32(p) % HIGH_BIT, ReadU32(p) >= HIGH_BIT, p[4]), p[5..]))
  }

  function ParseData(flags: byte, id: nat, p: bytes): Result<Frame> {
    if id == 0 then Err(ProtocolError)
    else match ReadPad(flags, p)
      case Err(e) => Err(e)
      case Ok((pad, rest)) =>
        if pad > |rest| then Err(ProtocolError)
        else Ok(DataFrame(id, |p|, Has(flags, END_STREAM), rest[..|rest| - pad]))
  }

  function ParseHeaders(flags: byte, id: nat, p: bytes): Result<Frame> {
    if id == 0 then Err(ProtocolError)
    else match ReadPad(flags, p)
      case Err(e) => Err(e)
      case Ok((pad, p1)) =>
        if Has(flags, PRIORITY_FLAG) && ReadPriority(p1).Err? then Err(ReadPriority(p1).error)
        else
          var (priority, p2) := if Has(flags, PRIORITY_FLAG) then (Some(ReadPriority(p1).value.0), ReadPriority(p1).value.1) else (None, p1);
          if pad > |p2| then Err(StreamProtocolError)
          else Ok(HeadersFrame(id, Has(flags, END_STREAM), Has(flags, END_HEADERS), priority, p2[..|p2| - pad]))
  }

  function ParsePushPromise(flags: byte, id: nat, p: bytes): Result<Frame> {
    if id == 0 then Err(ProtocolError)
    else match ReadPad(flags, p)
      case Err(e) => Err(e)
      case Ok((pad, p1)) =>
        if |p1| < 4 then Err(UnexpectedEOF)
        else if pad > |p1| - 4 then Err(ProtocolError)
        else Ok(PushPromiseFrame(id, ReadU32(p1) % HIGH_BIT, Has(flags, END_HEADERS), p1[4..|p1| - pad]))
  }

  function ParseSettingsFrame(flags: byte, id: nat, p: bytes): Result<Frame> {
    if Has(flags, ACK) && |p| > 0 then Err(FrameSizeError)
    else if id != 0 then Err(ProtocolError)
    else if |p| % 6 != 0 then Err(FrameSizeError)
    else
      var v := SettingValue(ParseSettings(p), INITIAL_WINDOW_SIZE_ID);
      if v.Some? && v.value >= HIGH_BIT then Err(FlowControlError)
      else Ok(SettingsFrame(Has(flags, ACK), ParseSettings(p)))
  }

  /** The parser for one payload, chosen by the frame's type. */
  function Parse(r: Raw): Result<Frame> {
    var (id, p) := (r.streamID, r.payload);
    if r.typ == DATA then ParseData(r.flags, id, p)
    else if r.typ == HEADERS then ParseHeaders(r.flags, id, p)
    else if r.typ == PRIORITY then
      if id == 0 then Err(ProtocolError)
      else if |p| != 5 then Err(FrameSizeError)
      else Ok(PriorityFrame(id, Priority(ReadU32(p) % HIGH_BIT, ReadU32(p) >= HIGH_BIT, p[4])))
    else if r.typ == RST_STREAM then
      if |p| != 4 then Err(FrameSizeError)
      else if id == 0 then Err(ProtocolError)
      else Ok(RSTStreamFrame(id, ReadU32(p)))
    else if r.typ == SETTINGS then ParseSettingsFrame(r.flags, id, p)
    else if r.typ == PUSH_PROMISE then ParsePushPromise(r.flags, id, p)
    else if r.typ == PING then
      if |p| != 8 then Err(FrameSizeError)
      else if id != 0 then Err(ProtocolError)
      else Ok(PingFrame(Has(r.flags, ACK), p))
    else if r.typ == GOAWAY then
      if id != 0 then Err(ProtocolError)
      else if |p| < 8 then Err(FrameSizeError)
      else Ok(GoAwayFrame(ReadU32(p) % HIGH_BIT, ReadU32(p[4..]), p[8..]))
    else if r.typ == WINDOW_UPDATE then
      if |p| != 4 then Err(FrameSizeError)
      else if ReadU32(p) % HIGH_BIT == 0 then Err(if id == 0 then ProtocolError else StreamProtocolError)
      else Ok(WindowUpdateFrame(id, ReadU32(p) % HIGH_BIT))
    else if r.typ == CONTINUATION then
      if id == 0 then Err(ProtocolError) else Ok(ContinuationFrame(id, Has(r.flags, END_HEADERS), p))
    else Ok(UnknownFrame(r.typ, r.flags, id, p))
  }

  /** The next raw frame of the input and what follows it. */
  function ReadRaw(input: bytes, maxReadSize: nat): Result<(Raw, bytes)> {
    if |input| < FRAME_HEADER_LEN then Err(ShortRead)
    else
      var length := ReadU24(input);
      if length > maxReadSize then Err(FrameTooLarge)
      else if |input| < FRAME_HEADER_LEN + length then Err(ShortRead)
      else Ok((Raw(input[3], input[4], ReadU32(input[5..]) % HIGH_BIT, input[9..9 + length]), input[9 + length..]))
  }

  function ReadFrame(input: bytes, maxReadSize: nat): Result<(Frame, bytes)> {
    match ReadRaw(input, maxReadSize)
    case Err(e) => Err(e)
    case Ok((raw, rest)) =>
      match Parse(raw)
      case Err(e) => Err(e)
      case Ok(f) => Ok((f, rest))
  }

  // ----- The round trip -----

  /** The frame a reader must report for an accepted call: the same fields, with the reserved bit of each
      31-bit identifier masked. */
  function Meaning(c: Call): Frame
    requires !c.WriteRaw?
  {
    match c
    case WriteData(id, endStream, data, pad) =>
      DataFrame(id, |data| + (if pad.Some? then 1 + |pad.value| else 0), endStream, data)
    case WriteHeaders(id, fragment, endStream, endHeaders, _, priority) =>
      HeadersFrame(id, endStream, endHeaders, if priority.IsZero() then None else Some(priority), fragment)
    case WritePriority(id, priority) => PriorityFrame(id, priority)
    case WriteRSTStream(id, code) => RSTStreamFrame(id, code)
    case WriteSettings(settings) => SettingsFrame(false, settings)
    case WriteSettingsAck => SettingsFrame(true, [])
    case WritePushPromise(id, promiseID, fragment, endHeaders, _) => PushPromiseFrame(id, promiseID, endHeaders, fragment)
    case WritePing(ack, ping) => PingFrame(ack, ping)
    case WriteGoAway(maxStreamID, code, debug) => GoAwayFrame(maxStreamID % HIGH_BIT, code, debug)
    case WriteWindowUpdate(id, incr) => WindowUpdateFrame(id % HIGH_BIT, incr)
    case WriteContinuation(id, endHeaders, fragment) => ContinuationFrame(id, endHeaders, fragment)
  }

  /** Header and payload separate cleanly: any raw frame of less than 2^24 bytes reads back, with the reserved
      bit of its stream masked, and leaves the tail. */
  lemma RawRoundTrip(r: Raw, tail: bytes, maxReadSize: nat)
    requires |r.payload| < MAX_LENGTH && |r.payload| <= maxReadSize
    ensures ReadRaw(Serialize(r) + tail, maxReadSize) == Ok((r.(streamID := r.streamID % HIGH_BIT), tail))
  {
    var input := Serialize(r) + tail;
    U24RoundTrip(|r.payload|, [r.typ, r.flags] + U32(r.streamID) + r.payload + tail);
    assert input == U24(|r.payload|) + ([r.typ, r.flags] + U32(r.streamID) + r.payload + tail);
    U32RoundTrip(r.streamID, r.payload + tail);
    assert input[5..] == U32(r.streamID) + (r.payload + tail);
    assert input[9..9 + |r.payload|] == r.payload;
    assert input[9 + |r.payload|..] == tail;
  }

  lemma {:induction false} SettingsRoundTrip(settings: seq<Setting>)
    requires forall i :: 0 <= i < |settings| ==> settings[i].id < 0x1_0000
    ensures |SettingsBytes(settings)| == 6 * |settings| && ParseSettings(SettingsBytes(settings)) == settings
  {
    hide U16, U32, ReadU16, ReadU32;
    if settings != [] {
      var s, rest := settings[0], SettingsBytes(settings[1..]);
      SettingsRoundTrip(settings[1..]);
      var p := SettingsBytes(settings);
      U16RoundTrip(s.id, U32(s.val) + rest);
      U32RoundTrip(s.val, rest);
      assert p == U16(s.id) + (U32(s.val) + rest);
      assert p[2..] == U32(s.val) + rest;
      assert p[6..] == rest;
      assert settings == [s] + settings[1..];
    }
  }

  /** The one legal call a reader may refuse: SETTINGS whose first initial window is above 2^31-1. */
  predicate Readable(c: Call) {
    c.WriteSettings? ==>
      var v := SettingValue(c.settings, INITIAL_WINDOW_SIZE_ID);
      v.Some? ==> v.value < HIGH_BIT
  }

  /** A legal call that is written and then refused by the reader. */
  lemma UnreadableSettings(tail: bytes, maxReadSize: nat)
    requires maxReadSize >= 6
    ensures var c := WriteSettings([Setting(INITIAL_WINDOW_SIZE_ID, HIGH_BIT)]);
            Legal(c) && ReadFrame(Serialize(Emitted(c)) + tail, maxReadSize) == Err(FlowControlError)
  {
    var settings := [Setting(INITIAL_WINDOW_SIZE_ID, HIGH_BIT)];
    SettingsRoundTrip(settings);
    FrameRoundTrip(WriteSettings(settings), tail, maxReadSize);
    hide ReadFrame, Serialize, SettingsBytes;
  }

  lemma PriorityRoundTrip(p: Priority, tail: bytes)
    requires p.streamDep < HIGH_BIT
    ensures |PriorityBytes(p)| == 5 && ReadPriority(PriorityBytes(p) + tail) == Ok((p, tail))
    ensures ReadU32(PriorityBytes(p) + tail) == p.streamDep + (if p.exclusive then HIGH_BIT else 0)
    ensures (PriorityBytes(p) + tail)[4] == p.weight
  {
    hide U32, ReadU32;
    var v := p.streamDep + (if p.exclusive then HIGH_BIT else 0);
    U32RoundTrip(v, [p.weight] + tail);
    assert PriorityBytes(p) + tail == U32(v) + ([p.weight] + tail);
    assert (PriorityBytes(p) + tail)[5..] == tail;
  }

  lemma FlagBits(padded: bool, endStream: bool, endHeaders: bool, priority: bool)
    ensures var f := Flag(padded, PADDED) + Flag(endStream, END_STREAM) + Flag(endHeaders, END_HEADERS) + Flag(priority, PRIORITY_FLAG);
            && Has(f, PADDED) == padded && Has(f, END_STREAM) == endStream
            && Has(f, END_HEADERS) == endHeaders && Has(f, PRIORITY_FLAG) == priority
  {
  }

  /** A frame as it arrives: the reserved bit of its stream masked. */
  function Received(c: Call): Raw {
    Emitted(c).(streamID := Emitted(c).streamID % HIGH_BIT)
  }

  predicate ReadsBack(c: Call)
    requires !c.WriteRaw?
  {
    Parse(Received(c)) == if Readable(c) then Ok(Meaning(c)) else Err(FlowControlError)
  }

  lemma DataParses(flags: byte, id: nat, data: bytes, pad: Option<bytes>)
    requires id != 0 && (pad.Some? ==> |pad.value| <= 255) && Has(flags, PADDED) == pad.Some?
    ensures ParseData(flags, id, DataPayload(data, pad))
         == Ok(DataFrame(id, |data| + (if pad.Some? then 1 + |pad.value| else 0), Has(flags, END_STREAM), data))
  {
    hide Has;
    var p := DataPayload(data, pad);
    if pad.Some? {
      assert p[1..] == data + pad.value;
      assert p[1..][..|data|] == data;
    } else {
      assert data == data[..|data|];
    }
  }

  lemma DataReadsBack(c: Call)
    requires c.WriteData? && Legal(c)
    ensures ReadsBack(c)
  {
    hide ParseData, Has;
    FlagBits(c.pad.Some?, c.endStream, false, false);
    DataParses(Emitted(c).flags, c.streamID, c.data, c.pad);
  }

  lemma PadRoundTrip(flags: byte, padLength: byte, rest: bytes)
    requires Has(flags, PADDED) == (padLength != 0)
    ensures ReadPad(flags, PadPrefix(padLength) + rest) == Ok((padLength, rest))
  {
    hide Has;
    if padLength != 0 {
      assert ([padLength] + rest)[1..] == rest;
    } else {
      assert PadPrefix(padLength) + rest == rest;
    }
  }

  lemma HeadersParse(flags: byte, id: nat, fragment: bytes, padLength: byte, priority: Priority)
    requires id != 0 && (!priority.IsZero() ==> priority.streamDep < HIGH_BIT)
    requires Has(flags, PADDED) == (padLength != 0) && Has(flags, PRIORITY_FLAG) == !priority.IsZero()
    ensures ParseHeaders(flags, id, HeadersPayload(fragment, padLength, priority))
         == Ok(HeadersFrame(id, Has(flags, END_STREAM), Has(flags, END_HEADERS),
                            if priority.IsZero() then None else Some(priority), fragment))
  {
    hide Has, PriorityBytes, ReadPriority;
    var body := fragment + Zeros(padLength);
    var p1 := (if priority.IsZero() then [] else PriorityBytes(priority)) + body;
    var p := HeadersPayload(fragment, padLength, priority);
    assert p == PadPrefix(padLength) + p1;
    PadRoundTrip(flags, padLength, p1);
    if priority.IsZero() {
      assert p1 == body;
    } else {
      PriorityRoundTrip(priority, body);
    }
    assert body[..|body| - padLength] == fragment;
  }

  lemma HeadersReadBack(c: Call)
    requires c.WriteHeaders? && Legal(c)
    ensures ReadsBack(c)
  {
    hide ParseHeaders, Has, HeadersPayload;
    FlagBits(c.padLength != 0, c.endStream, c.endHeaders, !c.priority.IsZero());
    HeadersParse(Emitted(c).flags, c.streamID, c.fragment, c.padLength, c.priority);
  }

  lemma PushPromiseParses(flags: byte, id: nat, promiseID: nat, fragment: bytes, padLength: byte)
    requires id != 0 && promiseID < HIGH_BIT && Has(flags, PADDED) == (padLength != 0)
    ensures ParsePushPromise(flags, id, PushPromisePayload(promiseID, fragment, padLength))
         == Ok(PushPromiseFrame(id, promiseID, Has(flags, END_HEADERS), fragment))
  {
    U32RoundTrip(promiseID, fragment + Zeros(padLength));
    hide Has, U32, ReadU32;
    var p1 := U32(promiseID) + (fragment + Zeros(padLength));
    var p := PushPromisePayload(promiseID, fragment, padLength);
    assert p == PadPrefix(padLength) + p1;
    PadRoundTrip(flags, padLength, p1);
    assert p1[4..|p1| - padLength] == fragment;
  }

  lemma PushPromiseReadsBack(c: Call)
    requires c.WritePushPromise? && Legal(c)
    ensures ReadsBack(c)
  {
    hide ParsePushPromise, Has, PushPromisePayload;
    FlagBits(c.padLength != 0, false, c.endHeaders, false);
    PushPromiseParses(Emitted(c).flags, c.streamID, c.promiseID, c.fragment, c.padLength);
  }

  lemma SettingsReadBack(c: Call)
    requires c.WriteSettings? && Legal(c)
    ensures ReadsBack(c)
  {
    SettingsRoundTrip(c.settings);
  }

  lemma FixedSizeReadsBack(c: Call)
    requires Legal(c)
    requires c.WritePriority? || c.WriteRSTStream? || c.WriteWindowUpdate? || c.WriteGoAway?
             || c.WriteSettingsAck? || c.WritePing? || c.WriteContinuation?
    ensures ReadsBack(c)
  {
    hide U32, ReadU32, PriorityBytes;
    match c
    case WritePriority(_, priority) =>
      PriorityRoundTrip(priority, []);
      assert PriorityBytes(priority) + [] == PriorityBytes(priority);
    case WriteRSTStream(_, code) =>
      U32RoundTrip(code, []);
      assert U32(code) + [] == U32(code);
    case WriteWindowUpdate(_, incr) =>
      U32RoundTrip(incr, []);
      assert U32(incr) + [] == U32(incr);
    case WriteGoAway(maxStreamID, code, debug) =>
      var p := Emitted(c).payload;
      U32RoundTrip(maxStreamID % HIGH_BIT, U32(code) + debug);
      U32RoundTrip(code, debug);
      assert p == U32(maxStreamID % HIGH_BIT) + (U32(code) + debug);
      assert p[4..] == U32(code) + debug;
      assert p[8..] == debug;
    case _ =>
  }

  /** Every accepted call of every Write method reads back as the same fields and leaves the tail, whatever
      follows; a SETTINGS frame exactly when its first initial window is legal. */
  lemma FrameRoundTrip(c: Call, tail: bytes, maxReadSize: nat)
    requires Legal(c) && !c.WriteRaw? && |Emitted(c).payload| < MAX_LENGTH && |Emitted(c).payload| <= maxReadSize
    ensures ReadFrame(Serialize(Emitted(c)) + tail, maxReadSize)
         == if Readable(c) then Ok((Meaning(c), tail)) else Err(FlowControlError)
  {
    RawRoundTrip(Emitted(c), tail, maxReadSize);
    assert ReadsBack(c) by {
      match c
      case WriteData(_, _, _, _) => DataReadsBack(c);
      case WriteHeaders(_, _, _, _, _, _) => HeadersReadBack(c);
      case WritePushPromise(_, _, _, _, _) => PushPromiseReadsBack(c);
      case WriteSettings(_) => SettingsReadBack(c);
      case _ => FixedSizeReadsBack(c);
    }
  }
}
