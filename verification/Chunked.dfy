/** Chunked transfer coding (internal/chunked.go; section 4.1 of RFC 7230): the line and number parsers, a decoder of
    whole wires, and the round trip. */
module Chunked {
  import opened Base

  const MAX_LINE_LENGTH := 4096

  const LF: byte := 10
  const CR: byte := 13
  const SPACE: byte := 32
  const TAB: byte := 9
  const SEMICOLON: byte := 59
  const CRLF: bytes := [13, 10]
  const ZERO: byte := 48

  datatype ReadError = EOF | UnexpectedEOF | LineTooLong | InvalidByte | LengthTooLarge | Malformed

  datatype Result<+T> = Ok(value: T) | Err(error: ReadError)

  // ----- Hexadecimal numbers -----

  predicate IsHexDigit(b: byte) {
    48 <= b <= 57 || 97 <= b <= 102 || 65 <= b <= 70
  }

  function Digit(b: byte): nat
    requires IsHexDigit(b)
    ensures Digit(b) < 16
  {
    if b <= 57 then b - 48 else if b >= 97 then b - 87 else b - 55
  }

  /** The number that hexadecimal digits denote, most significant first. */
  function Value(v: bytes): nat
    requires forall i :: 0 <= i < |v| ==> IsHexDigit(v[i])
  {
    if v == [] then 0 else 16 * Value(v[..|v| - 1]) + Digit(v[|v| - 1])
  }

  lemma {:induction false} ValueBound(v: bytes)
    requires forall i :: 0 <= i < |v| ==> IsHexDigit(v[i])
    ensures Value(v) < Pow16(|v|)
  {
    if v != [] {
      ValueBound(v[..|v| - 1]);
    }
  }

  predicate AllHex(v: bytes) {
    forall i :: 0 <= i < |v| ==> IsHexDigit(v[i])
  }

  /** Up to 16 digits are a number; of the rest, what matters is what comes first: a byte that is no digit, or the
      seventeenth digit. No digit at all is the number 0. */
  function HexUint(v: bytes): Result<nat> {
    if !AllHex(v[..Min(|v|, 17)]) then Err(InvalidByte)
    else if |v| > 16 then Err(LengthTooLarge)
    else Ok(Value(v))
  }

  method ParseHexUint(v: bytes) returns (r: Result<nat>)
    ensures r == HexUint(v)
    ensures r.Ok? ==> r.value < 0x1_0000_0000_0000_0000 // nothing is shifted out of a uint64
  {
    var n := 0;
    var i := 0;
    while i < |v|
      invariant i <= |v| && i <= 16 && AllHex(v[..i]) && n == Value(v[..i])
    {
      var b := v[i];
      if !IsHexDigit(b) {
        assert v[..Min(|v|, 17)][i] == b;
        return Err(InvalidByte);
      }
      assert v[..i + 1][..i] == v[..i];
      if i == 16 {
        assert v[..Min(|v|, 17)] == v[..i + 1];
        return Err(LengthTooLarge);
      }
      n := 16 * n + Digit(b);
      i := i + 1;
    }
    assert v[..i] == v && v[..Min(|v|, 17)] == v;
    ValueBound(v);
    Pow16AtMost(|v|, 16);
    assert Pow16(16) == 0x1_0000_0000_0000_0000 by {
      assert Pow16(8) == 0x1_0000_0000;
    }
    r := Ok(n);
  }

  lemma {:induction false} Pow16AtMost(j: nat, k: nat)
    requires j <= k
    ensures 1 <= Pow16(j) <= Pow16(k)
    decreases k
  {
    if j < k {
      Pow16AtMost(j, k - 1);
    } else if k > 0 {
      Pow16AtMost(j - 1, k - 1);
    }
  }

  /** The digits that the %x verb prints. */
  function HexOf(n: nat): bytes {
    var d: byte := if n % 16 < 10 then 48 + n % 16 else 87 + n % 16;
    (if n < 16 then [] else HexOf(n / 16)) + [d]
  }

  lemma {:induction false} HexOfValue(n: nat)
    ensures HexOf(n) != [] && AllHex(HexOf(n)) && Value(HexOf(n)) == n
  {
    var front := if n < 16 then [] else HexOf(n / 16);
    var d: byte := if n % 16 < 10 then 48 + n % 16 else 87 + n % 16;
    if n >= 16 {
      HexOfValue(n / 16);
    }
    assert HexOf(n) == front + [d];
    hide HexOf;
    assert AllHex(front) && Value(front) == n / 16;
    ValueSnoc(front, d);
    hide Value;
    assert Digit(d) == n % 16;
  }

  lemma ValueSnoc(v: bytes, d: byte)
    requires AllHex(v) && IsHexDigit(d)
    ensures AllHex(v + [d]) && Value(v + [d]) == 16 * Value(v) + Digit(d)
  {
    assert (v + [d])[..|v|] == v;
  }

  lemma {:induction false} HexOfLength(n: nat, k: nat)
    requires n < Pow16(k) && k >= 1
    ensures |HexOf(n)| <= k
  {
    if n >= 16 {
      HexOfLength(n / 16, k - 1);
    }
  }

  // ----- Chunk lines -----

  predicate IsSpace(b: byte) {
    b == SPACE || b == TAB || b == LF || b == CR
  }

  /** The longest front that does not end in white space. */
  function Trim(b: bytes): (r: bytes)
    ensures r <= b && (r == [] || !IsSpace(r[|r| - 1])) && forall k :: |r| <= k < |b| ==> IsSpace(b[k])
  {
    if b != [] && IsSpace(b[|b| - 1]) then Trim(b[..|b| - 1]) else b
  }

  method TrimTrailingWhitespace(b: bytes) returns (r: bytes)
    ensures r == Trim(b) && r <= b && (r == [] || !IsSpace(r[|r| - 1])) && forall k :: |r| <= k < |b| ==> IsSpace(b[k])
  {
    r := b;
    while |r| > 0 && IsSpace(r[|r| - 1])
      invariant Trim(r) == Trim(b)
    {
      r := r[..|r| - 1];
    }
  }

  /** The first position of x, or the length. */
  function IndexOf(b: bytes, x: byte): (i: nat)
    ensures i <= |b| && x !in b[..i] && (i < |b| ==> b[i] == x)
  {
    if b == [] || b[0] == x then 0
    else
      var i := 1 + IndexOf(b[1..], x);
      assert b[..i] == [b[0]] + b[1..][..i - 1];
      i
  }

  lemma {:induction false} IndexOfIs(b: bytes, x: byte, i: nat)
    requires i < |b| && b[i] == x && x !in b[..i]
    ensures IndexOf(b, x) == i
  {
    if i > 0 {
      assert b[0] in b[..i];
      assert b[1..][..i - 1] == b[1..i];
      assert forall y :: y in b[1..i] ==> y in b[..i];
      IndexOfIs(b[1..], x, i - 1);
    }
  }

  /** What counts of a line: trailing white space and chunk extensions are dropped. */
  function Essence(line: bytes): bytes {
    var p := Trim(line);
    p[..IndexOf(p, SEMICOLON)]
  }

  /** The next chunk line of a wire and what follows it, for a buffer of bufSize bytes. */
  function ChunkLine(wire: bytes, bufSize: nat): Result<(bytes, bytes)> {
    var i := IndexOf(wire, LF);
    if i < |wire| && i < bufSize then
      if i + 1 >= MAX_LINE_LENGTH then Err(LineTooLong) else Ok((Essence(wire[..i + 1]), wire[i + 1..]))
    else Err(if |wire| >= bufSize then LineTooLong else UnexpectedEOF)
  }

  /** The next chunk size. */
  function ChunkSize(wire: bytes, bufSize: nat): Result<(nat, bytes)> {
    match ChunkLine(wire, bufSize)
    case Err(e) => Err(e)
    case Ok((line, rest)) =>
      match HexUint(line)
      case Err(e) => Err(e)
      case Ok(n) => Ok((n, rest))
  }

  // ----- The decoder -----

  /** The decoded bytes, how the stream ends, and what is left of the wire when it ends well. */
  datatype Decoded = Decoded(data: bytes, end: ReadError, rest: bytes) {
    function After(prefix: bytes): Decoded {
      Decoded(prefix + data, end, rest)
    }
  }

  function Decode(wire: bytes, bufSize: nat): Decoded
    decreases |wire|, 0
  {
    match ChunkSize(wire, bufSize)
    case Err(e) => Decoded([], e, [])
    case Ok((n, rest)) => if n == 0 then Decoded([], EOF, rest) else DecodeBody(rest, n, bufSize)
  }

  /** The last n bytes of a chunk and everything after it. */
  function DecodeBody(wire: bytes, n: nat, bufSize: nat): Decoded
    decreases |wire|, 1
  {
    if |wire| < n then Decoded(wire, UnexpectedEOF, [])
    else DecodeEnd(wire[n..], bufSize).After(wire[..n])
  }

  /** The two bytes that end a chunk and everything after them. */
  function DecodeEnd(wire: bytes, bufSize: nat): Decoded
    decreases |wire|, 0
  {
    if |wire| < 2 then Decoded([], UnexpectedEOF, [])
    else if wire[..2] != CRLF then Decoded([], Malformed, [])
    else Decode(wire[2..], bufSize)
  }

  // ----- The encoder -----

  function Chunk(data: bytes): bytes {
    if data == [] then [] else HexOf(|data|) + CRLF + data + CRLF
  }

  const FINAL: bytes := [ZERO] + CRLF

  function Encode(writes: seq<bytes>): bytes {
    if writes == [] then FINAL else Chunk(writes[0]) + Encode(writes[1..])
  }

  lemma HexIsNoSpace(h: bytes)
    requires AllHex(h) && h != []
    ensures Trim(h + CRLF) == h
    ensures Essence(h + CRLF) == h
  {
    assert (h + CRLF)[..|h| + 1] == h + [CR];
    assert (h + [CR])[..|h|] == h;
    assert !IsSpace(h[|h| - 1]);
    assert Trim(h) == h;
    assert Trim(h + [CR]) == h;
    assert IndexOf(h, SEMICOLON) == |h|;
  }

  /** A line of digits reads back exactly when it fits into the buffer. */
  lemma ChunkLineReads(h: bytes, rest: bytes, bufSize: nat)
    requires AllHex(h) && 0 < |h| <= 16
    ensures ChunkLine(h + CRLF + rest, bufSize) == if |h| + 2 <= bufSize then Ok((h, rest)) else Err(LineTooLong)
  {
    var wire := h + CRLF + rest;
    assert wire[..|h| + 1] == h + [CR];
    IndexOfIs(wire, LF, |h| + 1);
    assert wire[..|h| + 2] == h + CRLF;
    assert wire[|h| + 2..] == rest;
    HexIsNoSpace(h);
  }

  lemma SizeReads(n: nat, rest: bytes, bufSize: nat)
    requires n < 0x1_0000_0000_0000_0000
    ensures ChunkSize(HexOf(n) + CRLF + rest, bufSize) == if |HexOf(n)| + 2 <= bufSize then Ok((n, rest)) else Err(LineTooLong)
  {
    hide *;
    var h := HexOf(n);
    HexOfValue(n);
    ShortHex(n);
    ChunkLineReads(h, rest, bufSize);
    HexUintOf(h);
    SizeOfLine(h + CRLF + rest, bufSize);
  }

  lemma ShortHex(n: nat)
    requires n < 0x1_0000_0000_0000_0000
    ensures |HexOf(n)| <= 16
  {
    assert Pow16(16) == 0x1_0000_0000_0000_0000 by {
      assert Pow16(8) == 0x1_0000_0000;
    }
    HexOfLength(n, 16);
    hide HexOf, Pow16;
  }

  lemma HexUintOf(h: bytes)
    requires AllHex(h) && |h| <= 16
    ensures HexUint(h) == Ok(Value(h))
  {
    assert h[..Min(|h|, 17)] == h;
    hide Value;
  }

  lemma SizeOfLine(wire: bytes, bufSize: nat)
    ensures ChunkSize(wire, bufSize)
         == match ChunkLine(wire, bufSize)
            case Err(e) => Err(e)
            case Ok((line, rest)) => (match HexUint(line) case Err(e) => Err(e) case Ok(n) => Ok((n, rest)))
  {
    hide ChunkLine, HexUint;
  }

  /** The line of every chunk, the final one included, fits into the reader's buffer. */
  predicate LinesFit(writes: seq<bytes>, bufSize: nat) {
    3 <= bufSize && forall i :: 0 <= i < |writes| ==> LineFits(writes[i], bufSize)
  }

  predicate LineFits(data: bytes, bufSize: nat) {
    data != [] ==> |HexOf(|data|)| + 2 <= bufSize
  }

  /** A buffer of 16 bytes, the least there is, has room for the line of any chunk below 2^56 bytes. */
  lemma SmallestBufferFits(writes: seq<bytes>, bufSize: nat)
    requires 16 <= bufSize && forall i :: 0 <= i < |writes| ==> |writes[i]| < 0x100_0000_0000_0000
    ensures LinesFit(writes, bufSize)
  {
    assert Pow16(14) == 0x100_0000_0000_0000 by {
      assert Pow16(7) == 0x1000_0000;
    }
    hide Pow16, HexOf;
    forall i | 0 <= i < |writes|
      ensures LineFits(writes[i], bufSize)
    {
      HexOfLength(|writes[i]|, 14);
    }
  }

  lemma FitsTail(writes: seq<bytes>, bufSize: nat)
    requires writes != []
    ensures LinesFit(writes, bufSize) <==> LineFits(writes[0], bufSize) && LinesFit(writes[1..], bufSize)
  {
    hide LineFits;
    if LineFits(writes[0], bufSize) && LinesFit(writes[1..], bufSize) {
      forall i | 0 <= i < |writes|
        ensures LineFits(writes[i], bufSize)
      {
        assert i > 0 ==> writes[i] == writes[1..][i - 1];
      }
    }
  }

  /** Whatever is written comes back, then the end of the stream, and the wire is consumed exactly through the final
      empty chunk, what follows being left alone: exactly when every chunk's line fits into the buffer. */
  lemma {:induction false} RoundTrip(writes: seq<bytes>, tail: bytes, bufSize: nat)
    requires forall i :: 0 <= i < |writes| ==> |writes[i]| < 0x8000_0000_0000_0000
    ensures var d := Decode(Encode(writes) + tail, bufSize);
            if LinesFit(writes, bufSize) then d == Decoded(Concat(writes), EOF, tail) else d.end == LineTooLong
  {
    if writes == [] {
      SizeReads(0, tail, bufSize);
      assert HexOf(0) == [ZERO];
      hide ChunkSize, HexOf;
    } else {
      var data, more := writes[0], Encode(writes[1..]) + tail;
      RoundTrip(writes[1..], tail, bufSize);
      FitsTail(writes, bufSize);
      hide Decode, HexOf, LinesFit;
      assert Encode(writes) + tail == Chunk(data) + more;
      assert Concat(writes) == data + Concat(writes[1..]);
      hide Encode, Concat;
      if data == [] {
        assert Chunk(data) + more == more && LineFits(data, bufSize);
        assert [] + Concat(writes[1..]) == Concat(writes[1..]);
      } else {
        ChunkReads(data, more, bufSize);
        hide Chunk, LineFits;
      }
    }
  }

  /** One chunk in front of a wire is decoded to its data in front of the rest, if its line fits. */
  lemma ChunkReads(data: bytes, more: bytes, bufSize: nat)
    requires data != [] && |data| < 0x8000_0000_0000_0000
    ensures Decode(Chunk(data) + more, bufSize)
         == if LineFits(data, bufSize) then Decode(more, bufSize).After(data) else Decoded([], LineTooLong, [])
  {
    var after := data + CRLF + more;
    SizeReads(|data|, after, bufSize);
    BodyReads(data, more, bufSize);
    assert Chunk(data) + more == HexOf(|data|) + CRLF + after;
    if LineFits(data, bufSize) {
      SizeDecodes(Chunk(data) + more, |data|, after, bufSize);
    } else {
      SizeFails(Chunk(data) + more, bufSize, LineTooLong);
    }
    hide ChunkSize, HexOf, Decode, DecodeBody;
  }

  lemma SizeFails(wire: bytes, bufSize: nat, e: ReadError)
    requires ChunkSize(wire, bufSize) == Err(e)
    ensures Decode(wire, bufSize) == Decoded([], e, [])
  {
    hide ChunkSize;
  }

  lemma SizeDecodes(wire: bytes, n: nat, rest: bytes, bufSize: nat)
    requires n > 0 && ChunkSize(wire, bufSize) == Ok((n, rest))
    ensures Decode(wire, bufSize) == DecodeBody(rest, n, bufSize)
  {
    hide ChunkSize, DecodeBody;
  }

  lemma BodyReads(data: bytes, more: bytes, bufSize: nat)
    ensures DecodeBody(data + CRLF + more, |data|, bufSize) == Decode(more, bufSize).After(data)
  {
    var wire := data + CRLF + more;
    assert wire[..|data|] == data;
    assert wire[|data|..] == CRLF + more;
    assert (CRLF + more)[..2] == CRLF && (CRLF + more)[2..] == more;
    hide Decode;
  }
}
