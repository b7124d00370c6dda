/** The ranges of a parallel download (parallel_download.go, Do): the segment loop against the index of the last
    segment, which is computed with floating-point division. */
module Download {
  import opened Base

  datatype Task = Task(index: nat, rangeStart: nat, rangeEnd: nat)

  /** The number of segments: the exact ceiling of total / size. */
  function Segments(total: nat, size: nat): nat
    requires size > 0
  {
    (total + size - 1) / size
  }

  /** Segment i of the download, both ends included. */
  function Range(total: nat, size: nat, i: nat): Task
    requires size > 0 && i * size < total
  {
    Task(i, i * size, Min(i * size + size, total) - 1)
  }

  /** Index i names a segment exactly when its start lies inside the content. */
  lemma SegmentsAreThoseInside(total: nat, size: nat, i: nat)
    requires size > 0
    ensures i < Segments(total, size) <==> i * size < total
  {
    var n := Segments(total, size);
    var r := (total + size - 1) % size;
    assert n * size + r == total + size - 1;
    if i < n {
      assert i * size <= (n - 1) * size;
      assert (n - 1) * size == n * size - size;
    } else {
      assert i * size >= n * size;
    }
  }

  /** The loop of Do: consecutive segments from the first byte to the last, as many as the index of the last segment
      says. */
  method MakeTasks(total: nat, size: nat) returns (tasks: seq<Task>)
    requires total > 0 && size > 0
    ensures |tasks| == Segments(total, size)
    ensures forall i :: 0 <= i < |tasks| ==> i * size < total && tasks[i] == Range(total, size, i)
  {
    tasks := [];
    var start := 0;
    var i := 0;
    while true
      invariant |tasks| == i && start == i * size < total
      invariant forall j :: 0 <= j < i ==> j * size < total && tasks[j] == Range(total, size, j)
      decreases total - start
    {
      var end := start + (size - 1);
      if end > total - 1 {
        end := total - 1;
      }
      tasks := tasks + [Task(i, start, end)];
      if end < total - 1 {
        start := end + 1;
        i := i + 1;
        continue;
      }
      SegmentsAreThoseInside(total, size, i);
      assert (i + 1) * size == start + size;
      SegmentsAreThoseInside(total, size, i + 1);
      return;
    }
  }

  /** The bytes that the ranged request of segment i yields. */
  function Piece(content: bytes, size: nat, i: nat): bytes
    requires size > 0 && i * size < |content|
  {
    var t := Range(|content|, size, i);
    content[t.rangeStart..t.rangeEnd + 1]
  }

  /** What the first n pieces make up: the content up to the start of the next segment, or all of it. */
  function Merged(content: bytes, size: nat, n: nat): bytes
    requires size > 0
  {
    content[..Min(n * size, |content|)]
  }

  /** The pieces partition the content: each one continues exactly where the previous ended. */
  lemma PiecesPartition(content: bytes, size: nat, i: nat)
    requires size > 0 && i < Segments(|content|, size)
    ensures i * size < |content|
    ensures Merged(content, size, i) + Piece(content, size, i) == Merged(content, size, i + 1)
    ensures Merged(content, size, 0) == []
    ensures Merged(content, size, Segments(|content|, size)) == content
  {
    SegmentsAreThoseInside(|content|, size, i);
    SegmentsAreThoseInside(|content|, size, Segments(|content|, size));
    assert (i + 1) * size == i * size + size;
    assert 0 * size == 0;
  }

  // ----- The index of the last segment -----

  function Ceil(x: real): int {
    -((-x).Floor)
  }

  /** q' is the quotient q as a float64: correctly rounded with a 53-bit significand, so exact when q is an integer
      below 2^53. */
  predicate RoundedQuotient(q: real, q': real) {
    && -q / 9007199254740992.0 <= q' - q <= q / 9007199254740992.0
    && (q == q.Floor as real ==> q' == q)
  }

  lemma SegmentsByDivision(total: nat, size: nat)
    requires size > 0
    ensures Segments(total, size) == total / size + (if total % size == 0 then 0 else 1)
  {
    var n, r := total / size, total % size;
    if r == 0 {
      QuotientIs(total + size - 1, size, n, size - 1);
    } else {
      assert total + size - 1 == n * size + size + (r - 1);
      assert n * size + size == (n + 1) * size;
      QuotientIs(total + size - 1, size, n + 1, r - 1);
    }
  }

  lemma QuotientIs(a: nat, b: nat, q: nat, r: nat)
    requires b > 0 && a == q * b + r && r < b
    ensures a / b == q
  {
    var q', r' := a / b, a % b;
    assert a == q' * b + r';
    ProductsKeepOrder(q + 1, q', b);
    ProductsKeepOrder(q' + 1, q, b);
    assert (q + 1) * b == q * b + b;
    assert (q' + 1) * b == q' * b + b;
  }

  lemma ProductsKeepOrder(x: nat, y: nat, b: nat)
    ensures x <= y ==> x * b <= y * b
  {
  }

  /** A number whose product with s > 0 is positive is positive. */
  lemma PositiveProduct(x: real, s: real, p: real)
    requires s > 0.0 && p > 0.0 && p == x * s
    ensures x > 0.0
  {
    assert x <= 0.0 ==> x * s <= 0.0;
  }

  lemma ProductAtMost(x: real, y: real, s: real)
    requires s > 0.0 && x <= y
    ensures x * s <= y * s
  {
    assert (y - x) * s >= 0.0;
    assert (y - x) * s == y * s - x * s;
  }

  /** Chains of inequalities between products, which the solver does not make on its own. */
  lemma Between(a: real, b: real, c: real, d: real)
    requires a < b <= c <= d
    ensures a < c && (d < 1.0 ==> c < 1.0)
  {
  }

  lemma ErrorBelowOne(q: real, e: real, s: real, qs: real, es: real)
    requires s > 0.0 && qs == q * s && es == e * s && 0.0 <= qs < 9007199254740992.0
    requires -q / 9007199254740992.0 <= e <= q / 9007199254740992.0
    ensures -1.0 < es < 1.0
  {
    var b := q / 9007199254740992.0;
    assert q == b * 9007199254740992.0;
    var bs := b * s;
    assert q * s == (b * s) * 9007199254740992.0;
    assert bs < 1.0;
    ProductAtMost(e, b, s);
    ProductAtMost(-b, e, s);
    var nbs := -b * s;
    assert nbs == -bs;
    Between(-1.0, nbs, es, bs);
  }

  lemma StrictlyBetween(q: real, q': real, s: real, n: real, r: real)
    requires s > 0.0 && q * s == n * s + r && 1.0 <= r <= s - 1.0 && 0.0 <= q * s < 9007199254740992.0
    requires -q / 9007199254740992.0 <= q' - q <= q / 9007199254740992.0
    ensures n < q' < n + 1.0
  {
    var es := (q' - q) * s;
    ErrorBelowOne(q, q' - q, s, q * s, es);
    var low, high := (q' - n) * s, (n + 1.0 - q') * s;
    assert q' * s == q * s + es;
    assert low == q' * s - n * s;
    assert low == r + es;
    PositiveProduct(q' - n, s, low);
    assert high == n * s + s - q' * s;
    assert high == s - r - es;
    PositiveProduct(n + 1.0 - q', s, high);
  }

  /** float64(n) for a positive integer n: exact below 2^53, and from there on not below 2^53. */
  predicate RoundedInteger(n: nat, x: real) {
    if n < 0x20_0000_0000_0000 then x == n as real else x >= 9007199254740992.0
  }

  /** The ceiling of the rounded quotient is the exact number of segments, for all lengths below 2^53 and all segment sizes:
      rounding cannot reach the next integer, because a quotient that is no integer stays at least 1 / size away from it,
      and a size that is itself rounded makes one segment. */
  lemma CeilingSurvivesRounding(total: nat, size: nat, size': real, q': real)
    requires 0 < total < 0x20_0000_0000_0000 && size > 0 && RoundedInteger(size, size')
    requires size' > 0.0 && RoundedQuotient(total as real / size', q')
    ensures Ceil(q') == Segments(total, size)
  {
    SegmentsByDivision(total, size);
    if size < 0x20_0000_0000_0000 {
      ExactSize(total, size, q');
    } else {
      HugeSize(total, size', q');
      assert total / size == 0 && total % size == total;
    }
    hide Segments, Ceil, RoundedQuotient;
  }

  lemma HugeSize(total: nat, size: real, q': real)
    requires 0 < total < 0x20_0000_0000_0000 && size >= 9007199254740992.0 && RoundedQuotient(total as real / size, q')
    ensures Ceil(q') == 1
  {
    var q := total as real / size;
    var top := 9007199254740991.0 / 9007199254740992.0;
    assert total as real <= 9007199254740991.0;
    assert 0.0 < q <= top by {
      assert q * size == total as real;
      assert top * size >= top * 9007199254740992.0 == 9007199254740991.0;
      AtMostBySign(q, top, size);
    }
    assert 0.0 < q' < 1.0;
    assert (-q').Floor == -1;
  }

  lemma AtMostBySign(a: real, b: real, s: real)
    requires s > 0.0 && a * s <= b * s
    ensures a <= b
  {
    assert (a - b) * s <= 0.0;
  }

  lemma ExactSize(total: nat, size: nat, q': real)
    requires 0 < total < 0x20_0000_0000_0000 && size > 0
    requires RoundedQuotient(total as real / size as real, q')
    ensures Ceil(q') == total / size + (if total % size == 0 then 0 else 1)
  {
    var n, r, s, q := total / size, total % size, size as real, total as real / size as real;
    QuotientAsReals(total, size);
    if r == 0 {
      assert q == n as real;
    } else {
      var qs := q * s;
      assert qs == total as real;
      StrictlyBetween(q, q', s, n as real, r as real);
    }
  }

  lemma QuotientAsReals(total: nat, size: nat)
    requires size > 0
    ensures var q := total as real / size as real;
            && q * size as real == total as real == (total / size) as real * size as real + (total % size) as real
            && (total % size == 0 ==> q == (total / size) as real)
  {
    var n, r, s, q := total / size, total % size, size as real, total as real / size as real;
    assert total == n * size + r;
    assert (n * size) as real == n as real * s;
    assert q * s == total as real;
    if r == 0 {
      assert (q - n as real) * s == 0.0;
    }
  }
}
