/** The chunked byte buffer of internal/http2/databuffer.go. Chunks come in five size classes; the buffer
    reads from the front of the first chunk and writes at the end of the last one. */
module DataBuffer {
  import opened Base

  const LARGEST_CHUNK := 0x4000

  predicate SizeClass(n: int) {
    n == 0x400 || n == 0x800 || n == 0x1000 || n == 0x2000 || n == LARGEST_CHUNK
  }

  function ChunkSize(want: int): nat {
    if want <= 0x400 then 0x400
    else if want <= 0x800 then 0x800
    else if want <= 0x1000 then 0x1000
    else if want <= 0x2000 then 0x2000
    else LARGEST_CHUNK
  }

  /** The class is the smallest that holds as many bytes, or the largest of all. */
  lemma ChunkSizeIsSmallest(want: int, c: int)
    ensures SizeClass(ChunkSize(want)) && (want <= ChunkSize(want) || ChunkSize(want) == LARGEST_CHUNK)
    ensures SizeClass(c) && want <= c ==> ChunkSize(want) <= c
  {
  }

  /** A chunk from the pool: its bytes are whatever the previous user left. */
  method GetDataBufferChunk(size: int) returns (chunk: array<byte>)
    ensures fresh(chunk) && chunk.Length == ChunkSize(size)
  {
    chunk := new byte[ChunkSize(size)];
  }

  /** False stands for the panic on a slice that is no whole chunk. */
  method PutDataBufferChunk(p: array<byte>) returns (ok: bool)
    ensures ok <==> SizeClass(p.Length)
  {
    ok := p.Length == 0x400 || p.Length == 0x800 || p.Length == 0x1000 || p.Length == 0x2000 || p.Length == 0x4000;
  }

  // ----- The buffer as a value: the bytes of its chunks, the two positions and the count -----

  /** Everything from the first chunk up to position w of the last one, read or not. */
  function Written(d: seq<bytes>, w: nat): bytes
    requires d != [] ==> w <= |d[|d| - 1]|
  {
    if d == [] then [] else Concat(d[..|d| - 1]) + d[|d| - 1][..w]
  }

  /** Chunks of legal sizes, positions inside them, and size counting what was written and not yet read. */
  predicate Legal(d: seq<bytes>, r: nat, w: nat, size: nat) {
    && (forall i :: 0 <= i < |d| ==> SizeClass(|d[i]|))
    && (d == [] ==> r == 0)
    && (d != [] ==> r < |d[0]| && w <= |d[|d| - 1]|)
    && r + size == |Written(d, w)|
  }

  /** The byte queue a buffer stands for. */
  function Queue(d: seq<bytes>, r: nat, w: nat, size: nat): bytes
    requires Legal(d, r, w, size)
  {
    Written(d, w)[r..]
  }

  lemma WrittenFromFirst(d: seq<bytes>, w: nat)
    requires d != [] && w <= |d[|d| - 1]|
    ensures |d| == 1 ==> Written(d, w) == d[0][..w]
    ensures |d| > 1 ==> Written(d, w) == d[0] + Written(d[1..], w)
  {
    var init := d[..|d| - 1];
    if |d| == 1 {
      assert init == [];
    } else {
      assert init[1..] == d[1..][..|d| - 2];
    }
  }

  /** How far the first chunk can be read. */
  function FrontEnd(d: seq<bytes>, w: nat): nat
    requires d != []
  {
    if |d| == 1 then w else |d[0]|
  }

  lemma FrontIsQueueFront(d: seq<bytes>, r: nat, w: nat, size: nat, k: nat)
    requires Legal(d, r, w, size) && size > 0 && d != [] && r + k <= FrontEnd(d, w)
    ensures k <= size == |Queue(d, r, w, size)| && d[0][r..r + k] == Queue(d, r, w, size)[..k]
    ensures r < FrontEnd(d, w)
  {
    WrittenFromFirst(d, w);
    var front := d[0][..FrontEnd(d, w)];
    assert front <= Written(d, w);
    assert front[r..r + k] == d[0][r..r + k] == Written(d, w)[r..r + k];
  }

  /** Moving the read position by k, and dropping the first chunk once it is consumed. */
  lemma AfterRead(d: seq<bytes>, r: nat, w: nat, size: nat, k: nat)
    requires Legal(d, r, w, size) && size > 0 && d != [] && r + k <= FrontEnd(d, w)
    ensures k <= size
    ensures r + k < |d[0]| ==> Legal(d, r + k, w, size - k) && Queue(d, r + k, w, size - k) == Queue(d, r, w, size)[k..]
    ensures r + k == |d[0]| ==> Legal(d[1..], 0, w, size - k) && Queue(d[1..], 0, w, size - k) == Queue(d, r, w, size)[k..]
  {
    WrittenFromFirst(d, w);
    FrontIsQueueFront(d, r, w, size, k);
  }

  /** The last chunk with p written at position w. */
  function Fill(d: seq<bytes>, w: nat, p: bytes): seq<bytes>
    requires d != [] && w + |p| <= |d[|d| - 1]|
  {
    var last := d[|d| - 1];
    d[|d| - 1 := last[..w] + p + last[w + |p|..]]
  }

  lemma AfterFill(d: seq<bytes>, r: nat, w: nat, size: nat, p: bytes)
    requires Legal(d, r, w, size) && d != [] && w + |p| <= |d[|d| - 1]|
    ensures Legal(Fill(d, w, p), r, w + |p|, size + |p|)
    ensures Queue(Fill(d, w, p), r, w + |p|, size + |p|) == Queue(d, r, w, size) + p
  {
    var d' := Fill(d, w, p);
    assert d'[..|d| - 1] == d[..|d| - 1];
    assert d'[|d| - 1][..w + |p|] == d[|d| - 1][..w] + p;
    assert Written(d', w + |p|) == Written(d, w) + p;
  }

  /** A new chunk behind a full one. */
  lemma AfterAlloc(d: seq<bytes>, r: nat, w: nat, size: nat, chunk: bytes)
    requires Legal(d, r, w, size) && (d != [] ==> w == |d[|d| - 1]|) && SizeClass(|chunk|)
    ensures Legal(d + [chunk], r, 0, size)
    ensures Queue(d + [chunk], r, 0, size) == Queue(d, r, w, size)
  {
    var d' := d + [chunk];
    assert d'[..|d|] == d;
    if d != [] {
      ConcatSnoc(d[..|d| - 1], d[|d| - 1]);
      assert d[..|d| - 1] + [d[|d| - 1]] == d;
      assert Written(d', 0) == Concat(d);
      assert Written(d, w) == Concat(d);
    } else {
      assert Written(d', 0) == [];
    }
  }

  /** Distinct arrays holding the given bytes. */
  ghost predicate Holds(chunks: seq<array<byte>>, data: seq<bytes>)
    reads chunks
  {
    && |data| == |chunks|
    && (forall i, j :: 0 <= i < j < |chunks| ==> chunks[i] != chunks[j])
    && (forall i :: 0 <= i < |chunks| ==> data[i] == chunks[i][..])
  }

  lemma HoldsTail(chunks: seq<array<byte>>, data: seq<bytes>)
    requires Holds(chunks, data) && chunks != []
    ensures Holds(chunks[1..], data[1..])
  {
  }

  /** The first n bytes of the caller's slice now hold the front of the queue; the rest is as before. */
  ghost predicate Delivered(before: bytes, after: bytes, queue: bytes, n: nat) {
    n <= |before| && n <= |queue| && after == queue[..n] + before[n..]
  }

  lemma NothingDelivered(before: bytes, queue: bytes)
    ensures Delivered(before, before, queue, 0) && queue == queue[0..]
  {
    assert before == [] + before[0..];
  }

  lemma DeliveredMore(before: bytes, soFar: bytes, after: bytes, queue: bytes, n: nat, k: nat)
    requires Delivered(before, soFar, queue, n) && n + k <= |before| && n + k <= |queue|
    requires after == soFar[..n] + queue[n..][..k] + soFar[n + k..]
    ensures Delivered(before, after, queue, n + k) && queue[n..][k..] == queue[n + k..]
  {
  }

  class DataBuffer {
    var chunks: seq<array<byte>>
    var r: nat // how far the first chunk is read
    var w: nat // how far the last chunk is written
    var size: nat
    var expected: int
    ghost var data: seq<bytes> // what the chunks hold
    ghost var repr: set<array<byte>> // every chunk ever taken

    ghost predicate Shape()
      reads this, repr
    {
      && (forall c :: c in chunks ==> c in repr)
      && Holds(chunks, data)
      && Legal(data, r, w, size)
    }

    /** Between calls the last chunk also holds a written byte. */
    ghost predicate Valid()
      reads this, repr
    {
      Shape() && (chunks != [] ==> 1 <= w)
    }

    ghost function Contents(): bytes
      requires Shape()
      reads this, repr
    {
      Queue(data, r, w, size)
    }

    constructor (expected: int)
      ensures Valid() && Contents() == [] && repr == {}
    {
      chunks, r, w, size, this.expected, data, repr := [], 0, 0, 0, expected, [], {};
    }

    lemma SizeIsLength()
      requires Shape()
      ensures size == |Contents()|
    {
    }

    method Len() returns (n: nat)
      requires Valid()
      ensures n == |Contents()|
    {
      n := size;
    }

    /** Reads as many bytes as fit and are there, from the front of the queue; false: nothing to read. */
    method Read(p: array<byte>) returns (n: nat, ok: bool)
      requires Valid() && p !in repr
      modifies this, p
      ensures Valid() && repr == old(repr)
      ensures ok <==> |old(Contents())| > 0
      ensures n == Min(p.Length, |old(Contents())|)
      ensures Delivered(old(p[..]), p[..], old(Contents()), n)
      ensures Contents() == old(Contents())[n..]
    {
      SizeIsLength();
      NothingDelivered(p[..], Contents());
      hide Shape, Contents, Delivered;
      if size == 0 {
        return 0, false;
      }
      n, ok := 0, true;
      ghost var queue := Contents();
      ghost var before := p[..];
      while n < p.Length && size > 0
        invariant Valid() && repr == old(repr)
        invariant n <= p.Length && n + size == |queue|
        invariant Contents() == queue[n..]
        invariant Delivered(before, p[..], queue, n)
        decreases size
      {
        ghost var soFar := p[..];
        var k := ReadFromFirstChunk(p, n);
        DeliveredMore(before, soFar, p[..], queue, n, k);
        n := n + k;
      }
    }

    /** One turn of the read loop: copies out of the first chunk and drops the chunk once consumed. */
    method ReadFromFirstChunk(p: array<byte>, at: nat) returns (k: nat)
      requires Valid() && p !in repr && at < p.Length && size > 0
      modifies this, p
      ensures Valid() && repr == old(repr)
      ensures 1 <= k <= p.Length - at && k <= |old(Contents())|
      ensures p[..] == old(p[..at]) + old(Contents())[..k] + old(p[..])[at + k..]
      ensures Contents() == old(Contents())[k..] && size == old(size) - k
    {
      hide Legal, Queue, Holds, Written;
      Ends();
      var from := chunks[0];
      var upto := if |chunks| == 1 then w else from.Length;
      k := Min(p.Length - at, upto - r);
      FrontIsQueueFront(data, r, w, size, k);
      AfterRead(data, r, w, size, k);
      HoldsTail(chunks, data);
      Copy(p, at, from, r, k);
      r, size := r + k, size - k;
      if r == from.Length {
        var whole := PutDataBufferChunk(from);
        assert whole;
        chunks, r, data := chunks[1..], 0, data[1..];
      }
    }

    lemma Ends()
      requires Shape()
      ensures |data| == |chunks| && (size > 0 ==> chunks != [])
      ensures chunks != [] ==> chunks[0] in chunks && chunks[0][..] == data[0] && SizeClass(chunks[0].Length)
      ensures chunks != [] ==> chunks[|chunks| - 1] in chunks && chunks[|chunks| - 1][..] == data[|data| - 1]
      ensures chunks != [] ==> r < chunks[0].Length && w <= chunks[|chunks| - 1].Length
      ensures size > 0 ==> r < FrontEnd(data, w)
    {
      if chunks != [] {
        WrittenFromFirst(data, w);
        assert SizeClass(|data[0]|);
      }
    }

    /** Appends p to the queue; never refuses. */
    method Write(p: bytes) returns (n: nat)
      requires Valid()
      modifies this, repr
      ensures Valid() && fresh(repr - old(repr))
      ensures n == |p| && Contents() == old(Contents()) + p
    {
      hide Shape, Contents;
      ghost var queue := Contents();
      n := 0;
      while n < |p|
        invariant n <= |p| && Valid() && fresh(repr - old(repr))
        invariant Contents() == queue + p[..n]
      {
        var k := WriteToLastChunk(p[n..]);
        assert p[..n + k] == p[..n] + p[n..][..k];
        n := n + k;
      }
      assert p[..n] == p;
    }

    /** One turn of the write loop: fills what is left of the last chunk, or of a new one. */
    method WriteToLastChunk(p: bytes) returns (k: nat)
      requires Valid() && p != []
      modifies this, repr
      ensures Valid() && fresh(repr - old(repr))
      ensures 1 <= k <= |p| && Contents() == old(Contents()) + p[..k]
    {
      hide Legal, Queue, Holds, Written;
      var want := Max(expected, |p|);
      LastChunkOrAlloc(want);
      Ends();
      k := Min(|p|, chunks[|chunks| - 1].Length - w);
      AfterFill(data, r, w, size, p[..k]);
      CopyIntoLast(chunks, data, w, p, k);
      data := Fill(data, w, p[..k]);
      w, size, expected := w + k, size + k, expected - k;
    }

    /** Makes room behind the write position without changing the queue. */
    method LastChunkOrAlloc(want: int)
      requires Valid()
      modifies this
      ensures Shape() && Contents() == old(Contents()) && chunks != [] && w < chunks[|chunks| - 1].Length
      ensures fresh(repr - old(repr)) && expected == old(expected)
      ensures var room := old(chunks) != [] && old(w) < old(chunks)[|old(chunks)| - 1].Length;
              if room then chunks == old(chunks) && w == old(w)
              else w == 0 && (exists chunk: array<byte> :: chunks == old(chunks) + [chunk] && chunk.Length == ChunkSize(want))
    {
      hide Legal, Queue, Written, SizeClass, ChunkSize;
      Ends();
      ChunkSizeIsSmallest(want, 0);
      if chunks != [] && w < chunks[|chunks| - 1].Length {
        return;
      }
      var chunk := GetDataBufferChunk(want);
      AfterAlloc(data, r, w, size, chunk[..]);
      chunks, w, data, repr := chunks + [chunk], 0, data + [chunk[..]], repr + {chunk};
    }
  }

  /** Go's copy between two arrays. */
  method Copy(dst: array<byte>, at: nat, src: array<byte>, from: nat, k: nat)
    requires at + k <= dst.Length && from + k <= src.Length && dst != src
    modifies dst
    ensures dst[..] == old(dst[..at] + src[from..from + k] + dst[at + k..])
  {
    forall i | 0 <= i < k {
      dst[at + i] := src[from + i];
    }
  }

  method CopyIntoLast(chunks: seq<array<byte>>, ghost data: seq<bytes>, at: nat, p: bytes, k: nat)
    requires Holds(chunks, data) && chunks != []
    requires k <= |p| && at + k <= |data[|data| - 1]|
    modifies chunks[|chunks| - 1]
    ensures Holds(chunks, Fill(data, at, p[..k]))
  {
    var last := chunks[|chunks| - 1];
    forall i | 0 <= i < k {
      last[at + i] := p[i];
    }
    assert last[..] == old(last[..at]) + p[..k] + old(last[at + k..]);
  }

  /** The space held beyond the buffered bytes stays below two chunks of the largest class. */
  lemma AllocatedButUnusedIsBounded(b: DataBuffer)
    requires b.Valid()
    ensures |Concat(b.data)| - |b.Contents()| < 2 * LARGEST_CHUNK
  {
    if b.chunks != [] {
      var k := |b.data| - 1;
      ConcatSnoc(b.data[..k], b.data[k]);
      assert b.data[..k] + [b.data[k]] == b.data;
    }
  }
}
