/** Vocabulary shared by every module: bytes, Go's fixed-width integers, optional values. */
module Base {

  type byte = x: int | 0 <= x < 0x100

  type bytes = seq<byte>

  const MAX_INT32 := 0x7fff_ffff
  const MIN_INT32 := -0x8000_0000

  type int32 = x: int | MIN_INT32 <= x <= MAX_INT32
  type uint32 = x: int | 0 <= x < 0x1_0000_0000

  datatype Option<+T> = None | Some(value: T)

  function Min(a: int, b: int): int {
    if a < b then a else b
  }

  function Max(a: int, b: int): int {
    if a < b then b else a
  }

  function Pow16(k: nat): nat {
    if k == 0 then 1 else 16 * Pow16(k - 1)
  }

  /** The int32 that Go's arithmetic leaves when the exact result is x (two's complement wrap-around). */
  function Wrap32(x: int): int32 {
    (x + 0x8000_0000) % 0x1_0000_0000 - 0x8000_0000
  }

  /** The same for sums and differences of two values, which wrap around once at most. */
  function Int32(x: int): int {
    if x < MIN_INT32 then x + 0x1_0000_0000 else if x > MAX_INT32 then x - 0x1_0000_0000 else x
  }

  lemma WrapsOnce(x: int)
    requires MIN_INT32 - 0x1_0000_0000 <= x <= MAX_INT32 + 0x1_0000_0000
    ensures Wrap32(x) == Int32(x)
  {
    var y := x + 0x8000_0000;
    if y < 0 {
      assert y % 0x1_0000_0000 == y + 0x1_0000_0000;
    } else if y >= 0x1_0000_0000 {
      assert y % 0x1_0000_0000 == y - 0x1_0000_0000;
    }
  }

  /** All the pieces, one after the other. */
  function Concat<T>(pieces: seq<seq<T>>): seq<T> {
    if pieces == [] then [] else pieces[0] + Concat(pieces[1..])
  }

  lemma {:induction false} ConcatAppend<T>(a: seq<seq<T>>, b: seq<seq<T>>)
    ensures Concat(a + b) == Concat(a) + Concat(b)
  {
    if a == [] {
      assert a + b == b;
    } else {
      ConcatAppend(a[1..], b);
      assert (a + b)[1..] == a[1..] + b;
    }
  }

  lemma ConcatSnoc<T>(a: seq<seq<T>>, x: seq<T>)
    ensures Concat(a + [x]) == Concat(a) + x
  {
    ConcatAppend(a, [x]);
    assert [x][1..] == [];
    assert Concat([x]) == x;
  }
}
