/** Frames as the standard numbers them (sections 4.1, 6 and 11.2 of RFC 7540): the bytes on the wire, and exactly which
    frames a reader of internal/http2/frame.go accepts. */
module FrameBytes {
  import opened Base
  import opened Frames

  // ----- What is written -----

  /** Each kind of frame has its number, behind the three bytes of its length. */
  lemma TypeOnTheWire(c: Call)
    ensures var w := Serialize(Emitted(c));
            |w| == 9 + |Emitted(c).payload|
            && w[3] == match c
                       case WriteData(_, _, _, _) => 0
                       case WriteHeaders(_, _, _, _, _, _) => 1
                       case WritePriority(_, _) => 2
                       case WriteRSTStream(_, _) => 3
                       case WriteSettings(_) => 4
                       case WriteSettingsAck => 4
                       case WritePushPromise(_, _, _, _, _) => 5
                       case WritePing(_, _) => 6
                       case WriteGoAway(_, _, _) => 7
                       case WriteWindowUpdate(_, _) => 8
                       case WriteContinuation(_, _, _) => 9
                       case WriteRaw(typ, _, _, _) => typ
  {
    hide DataPayload, HeadersPayload, PushPromisePayload, SettingsBytes, PriorityBytes;
  }

  /** Integers are written most significant byte first. */
  lemma BigEndian(a: byte, b: byte, c: byte, d: byte)
    ensures U16(a * 0x100 + b) == [a, b]
    ensures U24(a * 0x1_0000 + b * 0x100 + c) == [a, b, c]
    ensures U32(a * 0x100_0000 + b * 0x1_0000 + c * 0x100 + d) == [a, b, c, d]
  {
    DigitsOf(a, b, c, d);
  }

  lemma DigitsOf(a: byte, b: byte, c: byte, d: byte)
    ensures var x := a * 0x100_0000 + b * 0x1_0000 + c * 0x100 + d;
            x / 0x100_0000 % 0x100 == a && x / 0x1_0000 % 0x100 == b && x / 0x100 % 0x100 == c && x % 0x100 == d
  {
    var x := a * 0x100_0000 + b * 0x1_0000 + c * 0x100 + d;
    assert x / 0x100 == a * 0x1_0000 + b * 0x100 + c;
    assert x / 0x1_0000 == a * 0x100 + b;
    assert x / 0x100_0000 == a;
  }

  /** The nine bytes in front of a short payload on a stream with a small number. */
  lemma ShortFrame(r: Raw)
    requires |r.payload| < 0x100 && r.streamID < 0x100
    ensures Serialize(r) == [0, 0, |r.payload|, r.typ, r.flags, 0, 0, 0, r.streamID] + r.payload
  {
    BigEndian(0, 0, |r.payload|, 0);
    BigEndian(0, 0, 0, r.streamID);
    hide U24, U32;
  }

  /** Whole frames, byte by byte. */
  lemma PingBytes(ping: bytes)
    requires |ping| == 8
    ensures Serialize(Emitted(WritePing(true, ping))) == [0, 0, 8, 6, 1, 0, 0, 0, 0] + ping
    ensures Serialize(Emitted(WritePing(false, ping))) == [0, 0, 8, 6, 0, 0, 0, 0, 0] + ping
  {
    ShortFrame(Emitted(WritePing(true, ping)));
    ShortFrame(Emitted(WritePing(false, ping)));
    hide Serialize;
  }

  lemma SettingsFrameBytes(id: byte, a: byte, b: byte, c: byte, d: byte)
    ensures Serialize(Emitted(WriteSettingsAck)) == [0, 0, 0, 4, 1, 0, 0, 0, 0]
    ensures Serialize(Emitted(WriteSettings([Setting(id, a * 0x100_0000 + b * 0x1_0000 + c * 0x100 + d)])))
         == [0, 0, 6, 4, 0, 0, 0, 0, 0, 0, id, a, b, c, d]
  {
    var settings := [Setting(id, a * 0x100_0000 + b * 0x1_0000 + c * 0x100 + d)];
    BigEndian(0, id, 0, 0);
    BigEndian(a, b, c, d);
    assert settings[1..] == [];
    assert SettingsBytes(settings[1..]) == [];
    assert SettingsBytes(settings) == [0, id, a, b, c, d] by {
      hide U16, U32;
    }
    ShortFrame(Emitted(WriteSettings(settings)));
    ShortFrame(Emitted(WriteSettingsAck));
    hide Serialize, U16, U32, SettingsBytes;
  }

  lemma WindowUpdateBytes(id: byte, a: byte, b: byte, c: byte, d: byte)
    ensures Serialize(Emitted(WriteWindowUpdate(id, a * 0x100_0000 + b * 0x1_0000 + c * 0x100 + d)))
         == [0, 0, 4, 8, 0, 0, 0, 0, id, a, b, c, d]
    ensures Serialize(Emitted(WriteRSTStream(id, a * 0x100_0000 + b * 0x1_0000 + c * 0x100 + d)))
         == [0, 0, 4, 3, 0, 0, 0, 0, id, a, b, c, d]
  {
    BigEndian(a, b, c, d);
    ShortFrame(Emitted(WriteWindowUpdate(id, a * 0x100_0000 + b * 0x1_0000 + c * 0x100 + d)));
    ShortFrame(Emitted(WriteRSTStream(id, a * 0x100_0000 + b * 0x1_0000 + c * 0x100 + d)));
    hide Serialize, U32;
  }

  lemma GoAwayBytes(last: byte, code: byte, b: byte)
    ensures Serialize(Emitted(WriteGoAway(last, code, [b]))) == [0, 0, 9, 7, 0, 0, 0, 0, 0, 0, 0, 0, last, 0, 0, 0, code, b]
  {
    BigEndian(0, 0, 0, last);
    BigEndian(0, 0, 0, code);
    ShortFrame(Emitted(WriteGoAway(last, code, [b])));
    hide Serialize, U32;
  }

  /** The exclusive bit is the highest of the dependency's four bytes. */
  lemma PriorityFrameBytes(id: byte, dep: byte, weight: byte)
    ensures PriorityBytes(Priority(dep, true, weight)) == [128, 0, 0, dep, weight]
    ensures PriorityBytes(Priority(dep, false, weight)) == [0, 0, 0, dep, weight]
    ensures Serialize(Emitted(WritePriority(id, Priority(dep, true, weight)))) == [0, 0, 5, 2, 0, 0, 0, 0, id, 128, 0, 0, dep, weight]
    ensures Serialize(Emitted(WritePriority(id, Priority(dep, false, weight)))) == [0, 0, 5, 2, 0, 0, 0, 0, id, 0, 0, 0, dep, weight]
  {
    BigEndian(128, 0, 0, dep);
    BigEndian(0, 0, 0, dep);
    ShortFrame(Emitted(WritePriority(id, Priority(dep, true, weight))));
    ShortFrame(Emitted(WritePriority(id, Priority(dep, false, weight))));
    hide Serialize, U32;
  }

  lemma DataBytes(id: byte, b: byte)
    ensures Serialize(Emitted(WriteData(id, true, [b], None))) == [0, 0, 1, 0, 1, 0, 0, 0, id, b]
    ensures Serialize(Emitted(WriteData(id, false, [b], Some([0, 0])))) == [0, 0, 4, 0, 8, 0, 0, 0, id, 2, b, 0, 0]
  {
    ShortFrame(Emitted(WriteData(id, true, [b], None)));
    ShortFrame(Emitted(WriteData(id, false, [b], Some([0, 0]))));
    hide Serialize;
  }

  /** All four flags of HEADERS: 1, 4, 8 and 32. */
  lemma HeadersBytes(id: byte, dep: byte, weight: byte, b: byte)
    ensures Serialize(Emitted(WriteHeaders(id, [b], true, true, 1, Priority(dep, true, weight))))
         == [0, 0, 8, 1, 45, 0, 0, 0, id, 1, 128, 0, 0, dep, weight, b, 0]
    ensures Serialize(Emitted(WriteHeaders(id, [b], true, false, 0, Priority(0, false, 0)))) == [0, 0, 1, 1, 1, 0, 0, 0, id, b]
    ensures Serialize(Emitted(WriteHeaders(id, [b], false, true, 0, Priority(0, false, 0)))) == [0, 0, 1, 1, 4, 0, 0, 0, id, b]
  {
    PriorityFrameBytes(id, dep, weight);
    assert Zeros(1) == [0] && Zeros(0) == [];
    var p, q := Priority(dep, true, weight), Priority(0, false, 0);
    assert HeadersPayload([b], 1, p) == [1, 128, 0, 0, dep, weight, b, 0] && HeadersPayload([b], 0, q) == [b] by {
      hide PriorityBytes;
    }
    ShortFrame(Emitted(WriteHeaders(id, [b], true, true, 1, p)));
    ShortFrame(Emitted(WriteHeaders(id, [b], true, false, 0, q)));
    ShortFrame(Emitted(WriteHeaders(id, [b], false, true, 0, q)));
    hide Serialize, PriorityBytes, HeadersPayload, Zeros;
  }

  lemma PushPromiseBytes(id: byte, promised: byte, b: byte)
    ensures Serialize(Emitted(WritePushPromise(id, promised, [b], true, 1))) == [0, 0, 7, 5, 12, 0, 0, 0, id, 1, 0, 0, 0, promised, b, 0]
    ensures Serialize(Emitted(WriteContinuation(id, true, [b]))) == [0, 0, 1, 9, 4, 0, 0, 0, id, b]
  {
    assert Zeros(1) == [0];
    BigEndian(0, 0, 0, promised);
    ShortFrame(Emitted(WritePushPromise(id, promised, [b], true, 1)));
    ShortFrame(Emitted(WriteContinuation(id, true, [b])));
    hide Serialize, U32, Zeros;
  }

  // ----- What is read -----

  predicate IsPadded(r: Raw) {
    r.flags / 8 % 2 == 1
  }

  /** Room for the pad length, `fixed` more bytes, and the padding. */
  predicate PaddingFits(r: Raw, fixed: nat) {
    if IsPadded(r) then |r.payload| >= 1 + fixed && r.payload[0] + 1 + fixed <= |r.payload| else |r.payload| >= fixed
  }

  /** The value of four bytes without the reserved bit. */
  function Low31(p: bytes): nat
    requires |p| >= 4
  {
    p[0] as int % 0x80 * 0x100_0000 + p[1] as int * 0x1_0000 + p[2] as int * 0x100 + p[3] as int
  }

  /** The rules of section 6 of RFC 7540 for each number. */
  predicate WellFormed(r: Raw) {
    var (id, p) := (r.streamID, r.payload);
    match r.typ
    case 0 => id != 0 && PaddingFits(r, 0)
    case 1 => id != 0 && PaddingFits(r, if r.flags / 32 % 2 == 1 then 5 else 0)
    case 2 => id != 0 && |p| == 5
    case 3 => id != 0 && |p| == 4
    case 4 => id == 0 && |p| % 6 == 0 && (r.flags % 2 == 1 ==> p == []) && InitialWindowLegal(p)
    case 5 => id != 0 && PaddingFits(r, 4)
    case 6 => id == 0 && |p| == 8
    case 7 => id == 0 && |p| >= 8
    case 8 => |p| == 4 && Low31(p) != 0
    case 9 => id != 0
    case _ => true
  }

  /** The first SETTINGS_INITIAL_WINDOW_SIZE, if there is one, is at most 2^31-1: its upper byte is below 128. */
  predicate InitialWindowLegal(p: bytes)
    requires |p| % 6 == 0
  {
    p == [] || (if p[0] == 0 && p[1] == 4 then p[2] < 128 else InitialWindowLegal(p[6..]))
  }

  lemma {:induction false} InitialWindowLegalIs(p: bytes)
    requires |p| % 6 == 0
    ensures var v := SettingValue(ParseSettings(p), 4);
            (v.Some? && v.value >= 0x8000_0000) <==> !InitialWindowLegal(p)
  {
    if p != [] {
      InitialWindowLegalIs(p[6..]);
      assert ReadU16(p) == 4 <==> p[0] == 0 && p[1] == 4;
      assert p[2..][0] == p[2];
      assert ReadU32(p[2..]) >= 0x8000_0000 <==> p[2] >= 128;
      var settings := ParseSettings(p);
      assert settings[1..] == ParseSettings(p[6..]);
    }
  }

  /** A reader accepts a frame exactly when it is well formed. */
  lemma ParsesExactlyWhen(r: Raw)
    ensures Parse(r).Ok? <==> WellFormed(r)
  {
    if r.typ == 4 {
      SettingsParseExactlyWhen(r);
    } else if r.typ == 8 && |r.payload| == 4 {
      Low31Is(r.payload);
    }
    hide ReadU32, ParseSettings, SettingValue, InitialWindowLegal, ParseSettingsFrame, Low31;
  }

  lemma SettingsParseExactlyWhen(r: Raw)
    requires r.typ == 4
    ensures Parse(r).Ok? <==> WellFormed(r)
  {
    if |r.payload| % 6 == 0 {
      InitialWindowLegalIs(r.payload);
    }
    hide ParseSettings, SettingValue, InitialWindowLegal;
  }

  lemma Low31Is(p: bytes)
    requires |p| >= 4
    ensures ReadU32(p) % HIGH_BIT == Low31(p) && Low31(p) < HIGH_BIT
  {
    var x := p[0] % 0x80;
    assert ReadU32(p) == p[0] / 0x80 * HIGH_BIT + Low31(p);
  }

  /** Why a frame is refused: on the wrong kind of stream, or of a wrong size. */
  lemma RefusalsByRule(r: Raw)
    ensures r.typ in {0, 1, 2, 5, 9} && r.streamID == 0 ==> Parse(r) == Err(ProtocolError)
    ensures r.typ in {6, 7} && r.streamID != 0 && |r.payload| == 8 ==> Parse(r) == Err(ProtocolError)
    ensures r.typ == 2 && r.streamID != 0 && |r.payload| != 5 ==> Parse(r) == Err(FrameSizeError)
    ensures r.typ in {3, 8} && |r.payload| != 4 ==> Parse(r) == Err(FrameSizeError)
    ensures r.typ == 6 && |r.payload| != 8 ==> Parse(r) == Err(FrameSizeError)
    ensures r.typ == 7 && r.streamID == 0 && |r.payload| < 8 ==> Parse(r) == Err(FrameSizeError)
    ensures r.typ == 4 && r.flags % 2 == 1 && r.payload != [] ==> Parse(r) == Err(FrameSizeError)
    ensures r.typ == 8 && |r.payload| == 4 && Low31(r.payload) == 0 ==>
              Parse(r) == Err(if r.streamID == 0 then ProtocolError else StreamProtocolError)
  {
    if |r.payload| >= 4 {
      Low31Is(r.payload);
    }
    hide ReadU32, ParseSettings, SettingValue, Low31;
  }

  /** The length in the first three bytes of a frame. */
  function Length24(p: bytes): nat
    requires |p| >= 3
  {
    p[0] as int * 0x1_0000 + p[1] as int * 0x100 + p[2] as int
  }

  /** The bytes of a frame are there, or the reader says which are missing; the limit is checked before the payload. */
  lemma ReadsRawExactlyWhen(input: bytes, maxReadSize: nat)
    ensures ReadRaw(input, maxReadSize) == Err(FrameTooLarge) <==> |input| >= 9 && Length24(input) > maxReadSize
    ensures ReadRaw(input, maxReadSize) == Err(ShortRead)
       <==> |input| < 9 || (Length24(input) <= maxReadSize && |input| < 9 + Length24(input))
    ensures ReadRaw(input, maxReadSize).Ok? <==> |input| >= 9 && Length24(input) <= Min(maxReadSize, |input| - 9)
  {
    hide ReadU32;
  }
}
