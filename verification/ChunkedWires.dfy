/** Chunked wires that somebody else wrote (internal/chunked.go; section 4.1 of RFC 7230): sizes in either case and with
    leading zeros, white space and chunk extensions behind them; and what becomes of wires that are cut short or wrong. */
module ChunkedWires {
  import opened Base
  import opened Chunked

  // ----- Sizes as they may be written -----

  function LowerCase(b: byte): byte {
    if 65 <= b <= 90 then b + 32 else b
  }

  function Lowered(v: bytes): bytes {
    seq(|v|, i requires 0 <= i < |v| => LowerCase(v[i]))
  }

  function ZeroBytes(n: nat): bytes {
    seq(n, i => ZERO)
  }

  /** Upper-case digits mean the same as lower-case ones. */
  lemma {:induction false} CaseDoesNotMatter(v: bytes)
    ensures HexUint(Lowered(v)) == HexUint(v)
  {
    var w := Lowered(v);
    forall i | 0 <= i < |v|
      ensures IsHexDigit(w[i]) == IsHexDigit(v[i])
    {
    }
    if AllHex(v) {
      SameValue(v);
    }
    assert forall i :: 0 <= i < Min(|v|, 17) ==> v[..Min(|v|, 17)][i] == v[i];
    assert forall i :: 0 <= i < Min(|v|, 17) ==> w[..Min(|v|, 17)][i] == w[i];
    if |v| <= 16 {
      assert v[..Min(|v|, 17)] == v && w[..Min(|v|, 17)] == w;
    }
    hide Value;
  }

  lemma {:induction false} SameValue(v: bytes)
    requires AllHex(v)
    ensures AllHex(Lowered(v)) && Value(Lowered(v)) == Value(v)
  {
    var w := Lowered(v);
    forall i | 0 <= i < |v|
      ensures IsHexDigit(w[i]) && Digit(w[i]) == Digit(v[i])
    {
      assert IsHexDigit(v[i]);
    }
    if v != [] {
      SameValue(v[..|v| - 1]);
      assert w[..|v| - 1] == Lowered(v[..|v| - 1]);
    }
  }

  lemma {:induction false} LeadingZeros(z: nat, v: bytes)
    requires AllHex(v)
    ensures AllHex(ZeroBytes(z) + v) && Value(ZeroBytes(z) + v) == Value(v)
    decreases |v|, z
  {
    var w := ZeroBytes(z) + v;
    if v != [] {
      LeadingZeros(z, v[..|v| - 1]);
      assert w[..|w| - 1] == ZeroBytes(z) + v[..|v| - 1];
    } else if z > 0 {
      LeadingZeros(z - 1, v);
      assert w[..|w| - 1] == ZeroBytes(z - 1) + v;
    }
  }

  /** The size n, of at most 16 digits. */
  predicate Denotes(size: bytes, n: nat) {
    |HexOf(n)| <= |size| <= 16 && Lowered(size) == ZeroBytes(|size| - |HexOf(n)|) + HexOf(n)
  }

  lemma DenotesIs(size: bytes, n: nat)
    requires Denotes(size, n)
    ensures HexUint(size) == Ok(n) && AllHex(size) && size != []
  {
    var h := HexOf(n);
    HexOfValue(n);
    LeadingZeros(|size| - |h|, h);
    CaseDoesNotMatter(size);
    LoweredIsHex(size);
    assert Lowered(size)[..Min(|size|, 17)] == Lowered(size);
    hide HexOf, Value, Lowered, ZeroBytes;
  }

  lemma LoweredIsHex(v: bytes)
    ensures AllHex(Lowered(v)) ==> AllHex(v)
  {
    var w := Lowered(v);
    if AllHex(w) {
      forall i | 0 <= i < |v|
        ensures IsHexDigit(v[i])
      {
        assert IsHexDigit(w[i]);
      }
    }
  }

  /** What may stand between the size and the line feed: white space, or a chunk extension. */
  predicate Extension(ext: bytes) {
    LF !in ext && ((forall i :: 0 <= i < |ext| ==> IsSpace(ext[i])) || ext[0] == SEMICOLON)
  }

  function SizeLine(size: bytes, ext: bytes): bytes {
    size + ext + [LF]
  }

  /** Nothing of the extension counts. */
  lemma EssenceIsSize(size: bytes, ext: bytes)
    requires AllHex(size) && Extension(ext)
    ensures Essence(SizeLine(size, ext)) == size
  {
    var line := SizeLine(size, ext);
    var p := Trim(line);
    assert forall i :: 0 <= i < |size| ==> line[i] == size[i];
    assert forall i :: 0 <= i < |ext| ==> line[|size| + i] == ext[i];
    assert size != [] ==> !IsSpace(size[|size| - 1]) && line[|size| - 1] == size[|size| - 1];
    assert |size| <= |p|;
    if forall i :: 0 <= i < |ext| ==> IsSpace(ext[i]) {
      assert forall i :: |size| <= i < |line| ==> IsSpace(line[i]) by {
        assert forall i :: |size| <= i < |line| - 1 ==> line[i] == ext[i - |size|];
      }
      assert p != [] ==> p[|p| - 1] == line[|p| - 1];
      assert |p| == |size|;
      assert p == size;
      assert SEMICOLON !in size;
    } else {
      assert line[|size|] == SEMICOLON;
      assert |size| < |p|;
      assert p[..|size|] == size && SEMICOLON !in size;
      IndexOfIs(p, SEMICOLON, |size|);
    }
    hide Trim;
  }

  /** A size line reads back exactly when it fits the buffer and the limit on lines. */
  lemma SizeLineReads(size: bytes, ext: bytes, n: nat, rest: bytes, bufSize: nat)
    requires Denotes(size, n) && Extension(ext)
    ensures var len := |size| + |ext| + 1;
            ChunkSize(SizeLine(size, ext) + rest, bufSize)
            == if len <= bufSize && len < MAX_LINE_LENGTH then Ok((n, rest)) else Err(LineTooLong)
  {
    DenotesIs(size, n);
    LineReads(size, ext, rest, bufSize);
    SizeOfLine(SizeLine(size, ext) + rest, bufSize);
    hide *;
  }

  lemma LineReads(size: bytes, ext: bytes, rest: bytes, bufSize: nat)
    requires AllHex(size) && Extension(ext)
    ensures var len := |size| + |ext| + 1;
            ChunkLine(SizeLine(size, ext) + rest, bufSize)
            == if len <= bufSize && len < MAX_LINE_LENGTH then Ok((size, rest)) else Err(LineTooLong)
  {
    var line := SizeLine(size, ext);
    var wire := line + rest;
    var i := |size| + |ext|;
    EssenceIsSize(size, ext);
    assert wire[..i] == size + ext && wire[i] == LF && LF !in size;
    IndexOfIs(wire, LF, i);
    assert wire[..i + 1] == line && wire[i + 1..] == rest;
    hide Essence, Extension, AllHex;
  }

  // ----- Whole wires -----

  datatype Piece = Piece(size: bytes, ext: bytes, data: bytes)

  /** A chunk as it may be written: it is not empty, and its line fits. */
  predicate Legal(p: Piece, bufSize: nat) {
    p.data != [] && Denotes(p.size, |p.data|) && Extension(p.ext) && LineOk(p.size, p.ext, bufSize)
  }

  predicate LineOk(size: bytes, ext: bytes, bufSize: nat) {
    |size| + |ext| + 1 <= bufSize && |size| + |ext| + 1 < MAX_LINE_LENGTH
  }

  /** The line that ends a wire. */
  predicate LegalEnd(e: Piece, bufSize: nat) {
    e.data == [] && Denotes(e.size, 0) && Extension(e.ext) && LineOk(e.size, e.ext, bufSize)
  }

  predicate AllLegal(ps: seq<Piece>, bufSize: nat) {
    forall i :: 0 <= i < |ps| ==> Legal(ps[i], bufSize)
  }

  function PieceWire(p: Piece): bytes {
    SizeLine(p.size, p.ext) + p.data + CRLF
  }

  function Wire(ps: seq<Piece>, end: Piece): bytes {
    if ps == [] then SizeLine(end.size, end.ext) else PieceWire(ps[0]) + Wire(ps[1..], end)
  }

  function DataOf(ps: seq<Piece>): bytes {
    if ps == [] then [] else ps[0].data + DataOf(ps[1..])
  }

  /** Any way of writing chunks decodes to their data, consumed exactly through the line that ends them. */
  lemma {:induction false} AnyWireDecodes(ps: seq<Piece>, end: Piece, tail: bytes, bufSize: nat)
    requires AllLegal(ps, bufSize) && LegalEnd(end, bufSize)
    ensures Decode(Wire(ps, end) + tail, bufSize) == Decoded(DataOf(ps), EOF, tail)
  {
    if ps == [] {
      SizeLineReads(end.size, end.ext, 0, tail, bufSize);
      hide ChunkSize, Denotes, Extension, SizeLine;
    } else {
      var p, more := ps[0], Wire(ps[1..], end) + tail;
      assert Legal(p, bufSize);
      AnyWireDecodes(ps[1..], end, tail, bufSize);
      PieceDecodes(p, more, bufSize);
      assert Wire(ps, end) + tail == PieceWire(p) + more;
      hide Decode, Legal, LegalEnd, PieceWire;
    }
  }

  lemma PieceDecodes(p: Piece, more: bytes, bufSize: nat)
    requires Legal(p, bufSize)
    ensures Decode(PieceWire(p) + more, bufSize) == Decode(more, bufSize).After(p.data)
  {
    var after := p.data + CRLF + more;
    SizeLineReads(p.size, p.ext, |p.data|, after, bufSize);
    BodyReads(p.data, more, bufSize);
    assert PieceWire(p) + more == SizeLine(p.size, p.ext) + after;
    SizeDecodes(PieceWire(p) + more, |p.data|, after, bufSize);
    hide ChunkSize, Decode, DecodeBody, Denotes, Extension, SizeLine;
  }

  // ----- Wires that are cut short -----

  /** Cut short inside its line, inside its data, or behind it. */
  lemma CutPiece(p: Piece, cut: nat, bufSize: nat)
    requires Legal(p, bufSize) && cut < |PieceWire(p)|
    ensures var d := Decode(PieceWire(p)[..cut], bufSize);
            d.end == UnexpectedEOF && d.data <= p.data
  {
    var line := SizeLine(p.size, p.ext);
    var wire := PieceWire(p)[..cut];
    if cut < |line| {
      assert wire == line[..cut];
      DenotesIs(p.size, |p.data|);
      NoLineFeed(p.size);
      CutLine(p.size, p.ext, cut, bufSize);
    } else {
      var rest := (p.data + CRLF)[..cut - |line|];
      assert wire == line + rest;
      SizeLineReads(p.size, p.ext, |p.data|, rest, bufSize);
      SizeDecodes(wire, |p.data|, rest, bufSize);
      hide ChunkSize, Denotes, Extension, SizeLine, Decode;
      CutBody(p.data, rest, bufSize);
    }
  }

  lemma CutLine(size: bytes, ext: bytes, cut: nat, bufSize: nat)
    requires LF !in size && LF !in ext && LineOk(size, ext, bufSize) && cut < |SizeLine(size, ext)|
    ensures Decode(SizeLine(size, ext)[..cut], bufSize) == Decoded([], UnexpectedEOF, [])
  {
    var wire := SizeLine(size, ext)[..cut];
    assert LF !in wire by {
      assert forall i :: 0 <= i < cut ==> wire[i] == (size + ext)[i];
    }
    assert IndexOf(wire, LF) == |wire|;
  }

  lemma CutBody(data: bytes, rest: bytes, bufSize: nat)
    requires |rest| < |data| + 2 && rest == (data + CRLF)[..|rest|]
    ensures var d := DecodeBody(rest, |data|, bufSize);
            d.end == UnexpectedEOF && d.data <= data
  {
    if |rest| < |data| {
      assert rest == data[..|rest|];
    } else {
      assert rest[..|data|] == data;
      assert |rest[|data|..]| < 2;
      assert data + [] == data;
    }
  }

  /** A wire that is cut short anywhere is reported as such, and what it yields is the front of the data. */
  lemma {:induction false} CutIsReported(ps: seq<Piece>, end: Piece, cut: nat, bufSize: nat)
    requires AllLegal(ps, bufSize) && LegalEnd(end, bufSize) && cut < |Wire(ps, end)|
    ensures var d := Decode(Wire(ps, end)[..cut], bufSize);
            d.end == UnexpectedEOF && d.data <= DataOf(ps)
  {
    if ps == [] {
      DenotesIs(end.size, 0);
      NoLineFeed(end.size);
      CutLine(end.size, end.ext, cut, bufSize);
    } else {
      var p, more := ps[0], Wire(ps[1..], end);
      assert Legal(p, bufSize);
      hide Decode, Legal, LegalEnd, PieceWire;
      if cut < |PieceWire(p)| {
        assert Wire(ps, end)[..cut] == PieceWire(p)[..cut];
        CutPiece(p, cut, bufSize);
      } else {
        var rest := cut - |PieceWire(p)|;
        CutIsReported(ps[1..], end, rest, bufSize);
        assert Wire(ps, end)[..cut] == PieceWire(p) + more[..rest];
        PieceDecodes(p, more[..rest], bufSize);
      }
    }
  }

  lemma NoLineFeed(size: bytes)
    requires AllHex(size)
    ensures LF !in size
  {
  }

  // ----- Wires that are wrong -----

  /** Anything but CR LF behind the data of a chunk is an error, after the data. */
  lemma WrongEndIsReported(p: Piece, bad: bytes, rest: bytes, bufSize: nat)
    requires Legal(p, bufSize) && |bad| == 2 && bad != [13, 10]
    ensures Decode(SizeLine(p.size, p.ext) + p.data + bad + rest, bufSize) == Decoded(p.data, Malformed, [])
  {
    var after := p.data + bad + rest;
    var wire := SizeLine(p.size, p.ext) + p.data + bad + rest;
    assert wire == SizeLine(p.size, p.ext) + after;
    SizeLineReads(p.size, p.ext, |p.data|, after, bufSize);
    SizeDecodes(wire, |p.data|, after, bufSize);
    hide ChunkSize, Denotes, Extension, SizeLine, Decode;
    assert after[..|p.data|] == p.data && after[|p.data|..] == bad + rest && (bad + rest)[..2] == bad;
    assert p.data + [] == p.data;
  }

  /** A line that is no number of at most 16 digits is an error, by what comes first in it. */
  lemma WrongSizeIsReported(line: bytes, rest: bytes, bufSize: nat)
    requires LF !in line && |line| + 1 <= bufSize && |line| + 1 < MAX_LINE_LENGTH
    ensures var size := Essence(line + [10]);
            var d := Decode(line + [10] + rest, bufSize);
            && (d == Decoded([], InvalidByte, []) <==> exists i :: 0 <= i < |size| && i < 17 && !IsHexDigit(size[i]))
            && (d == Decoded([], LengthTooLarge, []) <==> |size| > 16 && forall i :: 0 <= i < 17 ==> IsHexDigit(size[i]))
  {
    var wire := line + [10] + rest;
    assert wire[..|line|] == line;
    IndexOfIs(wire, LF, |line|);
    assert wire[..|line| + 1] == line + [10] && wire[|line| + 1..] == rest;
    var size := Essence(line + [10]);
    assert ChunkLine(wire, bufSize) == Ok((size, rest));
    SizeOfLine(wire, bufSize);
    SizeOutcome(size);
    hide ChunkLine, Essence, DecodeBody, Value;
    if HexUint(size).Err? {
      SizeFails(wire, bufSize, HexUint(size).error);
    } else {
      NotASizeError(wire, HexUint(size).value, rest, bufSize);
    }
  }

  /** Section 4.1 of RFC 7230 asks for at least one digit in a size; a line without any, with or without an extension,
      ends the wire like a zero. */
  lemma NoDigitsEndTheWire(ext: bytes, rest: bytes, bufSize: nat)
    requires Extension(ext) && LineOk([], ext, bufSize)
    ensures Decode(ext + [10] + rest, bufSize) == Decoded([], EOF, rest)
  {
    LineReads([], ext, rest, bufSize);
    assert SizeLine([], ext) + rest == ext + [10] + rest;
    SizeOfLine(ext + [10] + rest, bufSize);
    assert HexUint([]) == Ok(0);
    hide ChunkLine, HexUint, Extension, LineOk;
  }

  lemma SizeOutcome(size: bytes)
    ensures HexUint(size) == Err(InvalidByte) <==> exists i :: 0 <= i < |size| && i < 17 && !IsHexDigit(size[i])
    ensures HexUint(size) == Err(LengthTooLarge) <==> |size| > 16 && forall i :: 0 <= i < 17 ==> IsHexDigit(size[i])
    ensures HexUint(size).Err? ==> HexUint(size).error == InvalidByte || HexUint(size).error == LengthTooLarge
  {
    var front := size[..Min(|size|, 17)];
    assert forall i :: 0 <= i < |front| ==> front[i] == size[i];
    hide Value;
  }

  /** Once a size is read, the data or the end of the wire decide. */
  lemma NotASizeError(wire: bytes, n: nat, rest: bytes, bufSize: nat)
    requires ChunkSize(wire, bufSize) == Ok((n, rest))
    ensures var d := Decode(wire, bufSize); d.data != [] || d.end == EOF || d.end == UnexpectedEOF
  {
    hide ChunkSize;
    if n > 0 && |rest| >= n {
      assert rest[..n] != [];
    }
  }
}
