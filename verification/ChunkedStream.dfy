/** The chunked reader and writer objects (internal/chunked.go). The reader sits on a buffered reader that may have any
    amount of the wire in its buffer and may deliver any part of it at a time. */
module ChunkedStream {
  import opened Base
  import opened Chunked

  const MIN_READ_BUFFER_SIZE := 16 // of Go's bufio

  /** A buffered reader: the unread wire, and how much of it is in the buffer after the last call. */
  class Bufio {
    var wire: bytes
    var buffered: nat
    const size: nat

    ghost predicate Valid()
      reads this
    {
      buffered <= |wire| && size >= MIN_READ_BUFFER_SIZE
    }

    /** bufio.NewReaderSize. */
    constructor (wire: bytes, size: int)
      ensures Valid() && this.wire == wire && this.size == Max(size, MIN_READ_BUFFER_SIZE)
    {
      this.wire, buffered, this.size := wire, 0, Max(size, MIN_READ_BUFFER_SIZE);
    }

    /** Consumes k bytes; the buffer may hold any amount afterwards. */
    method Advance(k: nat)
      requires Valid() && k <= |wire|
      modifies this
      ensures Valid() && wire == old(wire)[k..]
    {
      wire := wire[k..];
      var b := *;
      buffered := if 0 <= b <= |wire| then b else 0;
    }

    /** Read: some of what is there, at least one byte, at most max; EOF when nothing is. */
    method Read(max: nat) returns (p: bytes, eof: bool)
      requires Valid() && max > 0
      modifies this
      ensures Valid() && old(wire) == p + wire && |p| <= max
      ensures eof == (old(wire) == []) && (eof <==> p == [])
    {
      if wire == [] {
        return [], true;
      }
      var k := *;
      if k <= 0 || k > |wire| || k > max {
        k := 1;
      }
      p, eof := wire[..k], false;
      Advance(k);
    }

    /** io.ReadFull for two bytes. */
    method ReadFull2() returns (p: bytes, full: bool)
      requires Valid()
      modifies this
      ensures Valid() && full == (|old(wire)| >= 2)
      ensures full ==> p == old(wire)[..2] && wire == old(wire)[2..]
      ensures !full ==> wire == []
    {
      if |wire| < 2 {
        p, full := wire, false;
        Advance(|wire|);
      } else {
        p, full := wire[..2], true;
        Advance(2);
      }
    }

    /** ReadSlice('\n'), readChunkLine's only use of it: the line with its end, or why there is none. */
    method ReadSlice() returns (r: Result<bytes>)
      requires Valid()
      modifies this
      ensures Valid() && |wire| <= |old(wire)|
      ensures var i := IndexOf(old(wire), LF);
              if i < |old(wire)| && i < size then r == Ok(old(wire)[..i + 1]) && wire == old(wire)[i + 1..]
              else r == Err(if |old(wire)| >= size then LineTooLong else UnexpectedEOF)
    {
      var i := 0;
      while i < |wire| && i < size && wire[i] != LF
        invariant i <= |wire| && i <= size && LF !in wire[..i]
      {
        i := i + 1;
      }
      if i < |wire| && i < size {
        IndexOfIs(wire, LF, i);
        r := Ok(wire[..i + 1]);
        Advance(i + 1);
      } else {
        assert i == |wire| ==> wire[..i] == wire;
        r := Err(if |wire| >= size then LineTooLong else UnexpectedEOF);
      }
    }
  }

  /** readChunkLine. */
  method ReadChunkLine(b: Bufio) returns (r: Result<bytes>)
    requires b.Valid()
    modifies b
    ensures b.Valid() && |b.wire| <= |old(b.wire)|
    ensures match ChunkLine(old(b.wire), b.size)
            case Err(e) => r == Err(e)
            case Ok((line, rest)) => r == Ok(line) && b.wire == rest && |rest| < |old(b.wire)|
  {
    r := b.ReadSlice();
    if r.Err? {
      return;
    }
    var p := r.value;
    if |p| >= MAX_LINE_LENGTH {
      return Err(LineTooLong);
    }
    p := TrimTrailingWhitespace(p);
    r := Ok(p[..IndexOf(p, SEMICOLON)]);
  }

  class ChunkedReader {
    const r: Bufio
    var n: nat // what the current chunk still owes
    var err: Option<ReadError>
    var checkEnd: bool // CR LF is due before the next size

    ghost predicate Valid()
      reads this, r
    {
      r.Valid() && (checkEnd ==> n == 0)
    }

    constructor (r: Bufio)
      requires r.Valid()
      ensures Valid() && this.r == r && Expected() == Decode(r.wire, r.size)
      ensures err == None
    {
      this.r, n, err, checkEnd := r, 0, None, false;
    }

    /** What the decoder of whole wires makes of everything that is still to come. */
    ghost function Expected(): Decoded
      requires Valid()
      reads this, r
    {
      if err.Some? then Decoded([], err.value, if err.value == EOF then r.wire else [])
      else if checkEnd then DecodeEnd(r.wire, r.size)
      else if n > 0 then DecodeBody(r.wire, n, r.size)
      else Decode(r.wire, r.size)
    }

    method BeginChunk()
      requires Valid() && err == None && n == 0 && !checkEnd
      modifies this, r
      ensures Valid() && Expected() == old(Expected()) && !checkEnd
      ensures err.Some? || (n > 0 && |r.wire| < |old(r.wire)|)
      ensures |r.wire| <= |old(r.wire)|
    {
      var line := ReadChunkLine(r);
      if line.Err? {
        err := Some(line.error);
        return;
      }
      var size := ParseHexUint(line.value);
      if size.Err? {
        err := Some(size.error);
        return;
      }
      n := size.value;
      if n == 0 {
        err := Some(EOF);
      }
    }

    method ChunkHeaderAvailable() returns (available: bool)
      requires Valid()
    {
      available := LF in r.wire[..r.buffered];
    }

    /** The check of the two bytes after a chunk. */
    method CheckChunkEnd()
      requires Valid() && err == None && checkEnd
      modifies this, r
      ensures Valid() && Expected() == old(Expected()) && n == 0
      ensures |r.wire| <= |old(r.wire)| && (err == None ==> !checkEnd && |r.wire| < |old(r.wire)|)
    {
      var two, full := r.ReadFull2();
      if full {
        if two != CRLF {
          err := Some(Malformed);
          return;
        }
      } else {
        err := Some(UnexpectedEOF);
        return;
      }
      checkEnd := false;
    }

    /** One read of chunk data. */
    method ReadData(max: nat) returns (data: bytes)
      requires Valid() && err == None && !checkEnd && n > 0 && max > 0
      modifies this, r
      ensures Valid() && |data| <= max && old(Expected()) == Expected().After(data)
      ensures |r.wire| <= |old(r.wire)| && (err == None ==> data != [] && |r.wire| < |old(r.wire)|)
    {
      var eof;
      data, eof := r.Read(Min(max, n));
      BodyContinues(data, r.wire, n, r.size);
      n := n - |data|;
      if eof {
        err := Some(UnexpectedEOF);
      } else if n == 0 {
        checkEnd := true;
      }
    }

    /** Read into a buffer of max bytes: what it returns is the next part of what the decoder makes of the wire; an
        error is reported exactly when all of it was returned; and a read that asks for something makes progress. */
    method Read(max: nat) returns (p: bytes, e: Option<ReadError>)
      requires Valid()
      modifies this, r
      ensures Valid() && |p| <= max && e == err
      ensures old(Expected()) == Expected().After(p)
      ensures e.Some? ==> old(Expected()).data == p && old(Expected()).end == e.value
      ensures max > 0 ==> p != [] || e.Some?
    {
      hide Decode, DecodeBody, DecodeEnd;
      p := [];
      ghost var all := Expected();
      while err == None
        invariant Valid() && |p| <= max
        invariant all == Expected().After(p)
        decreases |r.wire|, err == None
      {
        if checkEnd {
          if |p| > 0 && r.buffered < 2 {
            // Some data is there: return it rather than wait for more.
            break;
          }
          CheckChunkEnd();
          if err.Some? {
            break;
          }
        }
        if n == 0 {
          if |p| > 0 {
            var available := ChunkHeaderAvailable();
            if !available {
              break;
            }
          }
          BeginChunk();
          continue;
        }
        if |p| == max {
          break;
        }
        var data := ReadData(max - |p|);
        AfterTwice(Expected(), p, data);
        p := p + data;
      }
      e := err;
    }
  }

  lemma AfterTwice(d: Decoded, p: bytes, q: bytes)
    ensures d.After(q).After(p) == d.After(p + q)
  {
    assert p + (q + d.data) == (p + q) + d.data;
  }

  /** Taking the first bytes of a chunk leaves the rest of the chunk to be decoded, or its end. */
  lemma BodyContinues(data: bytes, rest: bytes, n: nat, bufSize: nat)
    requires |data| <= n
    ensures DecodeBody(data + rest, n, bufSize)
         == (if |data| < n then DecodeBody(rest, n - |data|, bufSize) else DecodeEnd(rest, bufSize)).After(data)
  {
    var wire := data + rest;
    hide DecodeEnd;
    if |wire| < n {
      assert wire == data + rest;
    } else {
      assert wire[n..] == rest[n - |data|..];
      assert wire[..n] == data + rest[..n - |data|];
      if |data| < n {
        var tail := DecodeEnd(wire[n..], bufSize).data;
        assert (data + rest[..n - |data|]) + tail == data + (rest[..n - |data|] + tail);
      } else {
        assert rest[..0] == [] && rest[0..] == rest;
      }
    }
  }

  /** Reading to the end with any sizes of the reads yields exactly what the decoder of whole wires yields, and at a
      regular end leaves the wire right behind the final chunk. */
  method ReadToEnd(cr: ChunkedReader) returns (data: bytes, end: ReadError)
    requires cr.Valid() && cr.err == None
    modifies cr, cr.r
    ensures cr.Valid() && Decoded(data, end, if end == EOF then cr.r.wire else []) == old(cr.Expected())
  {
    hide Decode, DecodeBody, DecodeEnd;
    data := [];
    ghost var all := cr.Expected();
    while true
      invariant cr.Valid() && all == cr.Expected().After(data)
      decreases |cr.Expected().data|
    {
      var max := *;
      if max <= 0 {
        max := 1;
      }
      var p, e := cr.Read(max);
      AfterTwice(cr.Expected(), data, p);
      data := data + p;
      if e.Some? {
        assert cr.Expected().data == [] && data + [] == data;
        return data, e.value;
      }
    }
  }

  class ChunkedWriter {
    var wire: bytes // what the underlying writer took

    constructor ()
      ensures wire == []
    {
      wire := [];
    }

    /** The underlying writer, which may fail after part of p. */
    method Put(p: bytes) returns (n: nat, failed: bool)
      modifies this
      ensures n <= |p| && wire == old(wire) + p[..n] && (!failed ==> n == |p|)
    {
      var k := *;
      n := if 0 <= k < |p| then k else |p|;
      failed := n < |p|;
      wire := wire + p[..n];
    }

    /** One chunk for the data; nothing for no data, which would look like the end. */
    method Write(data: bytes) returns (n: nat, failed: bool)
      modifies this
      ensures !failed ==> n == |data| && wire == old(wire) + Chunk(data)
      ensures failed ==> old(wire) <= wire <= old(wire) + Chunk(data)
    {
      if |data| == 0 {
        assert wire + [] == wire;
        return 0, false;
      }
      ghost var start, size := wire, HexOf(|data|) + CRLF;
      ThreeParts(start, size, data, CRLF);
      assert Chunk(data) == size + data + CRLF;
      hide Chunk, HexOf;
      var _, bad := Put(HexOf(|data|) + CRLF);
      if bad {
        assert wire <= start + size;
        return 0, true;
      }
      assert wire == start + size;
      n, bad := Put(data);
      if bad {
        assert start + size <= wire <= start + size + data;
        return n, true;
      }
      assert wire == start + size + data;
      var _, bad' := Put(CRLF);
      failed := bad';
    }

    method Close() returns (failed: bool)
      modifies this
      ensures if failed then old(wire) <= wire <= old(wire) + FINAL else wire == old(wire) + FINAL
    {
      var _, bad := Put(FINAL);
      failed := bad;
    }
  }

  lemma ThreeParts(start: bytes, a: bytes, b: bytes, c: bytes)
    ensures start + a + b + c == start + (a + b + c)
    ensures start <= start + a <= start + a + b <= start + (a + b + c)
  {
  }

  lemma {:induction false} EncodeSnoc(writes: seq<bytes>, data: bytes)
    ensures |Encode(writes)| >= 3
    ensures Encode(writes + [data]) == Encode(writes)[..|Encode(writes)| - 3] + Chunk(data) + FINAL
  {
    hide Chunk;
    if writes == [] {
      assert (writes + [data])[1..] == [];
      assert Encode([data]) == Chunk(data) + FINAL;
      assert FINAL[..0] == [];
    } else {
      EncodeSnoc(writes[1..], data);
      assert (writes + [data])[1..] == writes[1..] + [data];
      assert Encode(writes)[..|Encode(writes)| - 3] == Chunk(writes[0]) + Encode(writes[1..])[..|Encode(writes[1..])| - 3];
    }
  }

  /** Writing everything and closing: the wire is the encoding of the writes. */
  method WriteAll(writes: seq<bytes>) returns (wire: bytes, failed: bool)
    ensures !failed ==> wire == Encode(writes)
  {
    hide Chunk;
    wire, failed := [], false;
    var cw := new ChunkedWriter();
    for i := 0 to |writes|
      invariant cw.wire + FINAL == Encode(writes[..i])
      invariant fresh(cw)
    {
      EncodeSnoc(writes[..i], writes[i]);
      assert writes[..i + 1] == writes[..i] + [writes[i]];
      assert Encode(writes[..i])[..|Encode(writes[..i])| - 3] == cw.wire;
      var _, bad := cw.Write(writes[i]);
      if bad {
        failed := true;
        return;
      }
    }
    assert writes[..|writes|] == writes;
    failed := cw.Close();
    wire := cw.wire;
  }

  /** The writer and the reader together: whatever is written, the reader returns it, for every way of buffering,
      every size of the buffer and of the reads and every continuation of the wire, and stops right behind the final chunk;
      only a write of 2^56 bytes or more can have a line too long for the smallest buffer. */
  method Transfer(writes: seq<bytes>, tail: bytes, bufSize: int) returns (data: bytes, end: ReadError, rest: bytes, failed: bool)
    requires forall i :: 0 <= i < |writes| ==> |writes[i]| < 0x8000_0000_0000_0000
    ensures !failed ==>
              if LinesFit(writes, Max(bufSize, MIN_READ_BUFFER_SIZE)) then data == Concat(writes) && end == EOF && rest == tail
              else end == LineTooLong
    ensures !failed && (forall i :: 0 <= i < |writes| ==> |writes[i]| < 0x100_0000_0000_0000) ==>
              data == Concat(writes) && end == EOF && rest == tail
  {
    var wire;
    wire, failed := WriteAll(writes);
    if failed {
      return [], Malformed, [], true;
    }
    var size := Max(bufSize, MIN_READ_BUFFER_SIZE);
    RoundTrip(writes, tail, size);
    if forall i :: 0 <= i < |writes| ==> |writes[i]| < 0x100_0000_0000_0000 {
      SmallestBufferFits(writes, size);
    }
    hide Encode, Decode, Concat, LinesFit;
    var r := new Bufio(wire + tail, bufSize);
    var cr := new ChunkedReader(r);
    data, end := ReadToEnd(cr);
    rest := r.wire;
  }
}
