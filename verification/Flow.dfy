/** Flow-control windows (internal/http2/flow.go): the window this end grants to the peer (Inflow) and
    the one the peer grants to this end (Outflow). */
module Flow {
  import opened Base

  const INFLOW_MIN_REFRESH := 4096
  const MAX_WINDOW := MAX_INT32

  /** The value of an inbound window: credit the peer holds, and credit returned but not yet announced. The first is
      negative for a connection whose configured window does not fit in an int32. */
  datatype Window = Window(avail: int, unsent: int) {

    predicate InRange() {
      MIN_INT32 <= avail && 0 <= unsent <= MAX_WINDOW && avail + unsent <= MAX_WINDOW
    }

    /** Withheld credit is less than one refresh unit and less than what the peer may still send. */
    predicate Settled() {
      unsent == 0 || (unsent < INFLOW_MIN_REFRESH && unsent < avail)
    }

    /** Returning n more bytes stays within the largest legal window. */
    predicate Fits(n: int) {
      0 <= n && avail + unsent + n <= MAX_WINDOW
    }

    /** The window allows n bytes: the comparison is one of uint32 values, so a negative window allows any frame. */
    predicate Covers(n: nat) {
      n <= if avail < 0 then avail + 0x1_0000_0000 else avail
    }

    function Credit(): int {
      avail + unsent
    }
  }

  /** What the peer is told when n bytes come back: everything withheld so far, or nothing yet. */
  function Announced(w: Window, n: int): int {
    var unsent := Int32(w.unsent + n);
    if unsent < INFLOW_MIN_REFRESH && unsent < w.avail then 0 else unsent
  }

  function Refund(w: Window, n: int): Window {
    var unsent := Int32(w.unsent + n);
    if unsent < INFLOW_MIN_REFRESH && unsent < w.avail then Window(w.avail, unsent) else Window(Int32(w.avail + unsent), 0)
  }

  function Spend(w: Window, n: int): Window {
    w.(avail := Int32(w.avail - n))
  }

  /** A refund keeps every byte of credit, raises the peer's window by exactly what it announces, and
      never leaves enough credit withheld to stall the peer. The last condition can fail for a negative window only. */
  lemma RefundConserves(w: Window, n: int)
    requires w.InRange() && w.Fits(n) && w.unsent + n <= MAX_WINDOW
    ensures Refund(w, n).InRange() && Refund(w, n).Settled()
    ensures Refund(w, n).Credit() == w.Credit() + n
    ensures 0 <= Announced(w, n) == Refund(w, n).avail - w.avail
  {
  }

  class Inflow {
    var avail: int32
    var unsent: int32

    function View(): Window
      reads this
    {
      Window(avail, unsent)
    }

    constructor (n: int32)
      ensures View() == Window(n, 0)
    {
      avail, unsent := n, 0;
    }

    /** None stands for the panic on a negative update or on a window above 2^31-1. */
    method Add(n: int) returns (connAdd: Option<int32>)
      modifies this
      ensures connAdd.None? <==> !old(View()).Fits(n)
      ensures connAdd.None? ==> View() == old(View())
      ensures connAdd.Some? ==> View() == Refund(old(View()), n) && connAdd.value == Announced(old(View()), n)
    {
      if n < 0 {
        return None;
      }
      var sum := unsent + n;
      if sum + avail > MAX_WINDOW {
        return None;
      }
      WrapsOnce(sum);
      unsent := Wrap32(sum);
      if unsent < INFLOW_MIN_REFRESH && unsent < avail {
        return Some(0);
      }
      WrapsOnce(avail + unsent);
      avail := Wrap32(avail + unsent);
      unsent := 0;
      return Some(Wrap32(sum));
    }

    method Take(n: uint32) returns (ok: bool)
      modifies this
      ensures ok <==> old(View()).Covers(n)
      ensures View() == if ok then Spend(old(View()), n) else old(View())
    {
      if n > avail % 0x1_0000_0000 {
        return false;
      }
      WrapsOnce(avail - n);
      avail := Wrap32(avail - n);
      return true;
    }
  }

  /** Takes from both windows or from neither. */
  method TakeInflows(f1: Inflow, f2: Inflow, n: uint32) returns (ok: bool)
    requires f1 != f2
    modifies f1, f2
    ensures ok <==> old(f1.View()).Covers(n) && old(f2.View()).Covers(n)
    ensures f1.View() == if ok then Spend(old(f1.View()), n) else old(f1.View())
    ensures f2.View() == if ok then Spend(old(f2.View()), n) else old(f2.View())
  {
    if n > f1.avail % 0x1_0000_0000 || n > f2.avail % 0x1_0000_0000 {
      return false;
    }
    WrapsOnce(f1.avail - n);
    WrapsOnce(f2.avail - n);
    f1.avail := Wrap32(f1.avail - n);
    f2.avail := Wrap32(f2.avail - n);
    return true;
  }

  /** The test outflow.add applies to the wrapped sum. */
  predicate Accepts(n: int32, delta: int32) {
    (Wrap32(n + delta) > delta) == (n > 0)
  }

  /** The wrap-around test accepts exactly the sums an int32 can hold, at either end of its range. */
  lemma AcceptsExactlyTheSumsThatFit(n: int32, delta: int32)
    ensures Accepts(n, delta) <==> MIN_INT32 <= n + delta <= MAX_INT32
    ensures Accepts(n, delta) ==> Wrap32(n + delta) == n + delta
  {
    var x := n + delta + 0x8000_0000;
    if x < 0 {
      assert x % 0x1_0000_0000 == x + 0x1_0000_0000;
    } else if x >= 0x1_0000_0000 {
      assert x % 0x1_0000_0000 == x - 0x1_0000_0000;
    }
  }

  class Outflow {
    var n: int32
    var conn: Outflow?

    constructor ()
      ensures n == 0 && conn == null
    {
      n, conn := 0, null;
    }

    method SetConnFlow(cf: Outflow)
      modifies this`conn
      ensures conn == cf
    {
      conn := cf;
    }

    function Available(): int32
      reads this, conn
    {
      if conn != null && conn.n < n then conn.n else n
    }

    /** False stands for the panic "took too much". */
    method Take(k: int32) returns (ok: bool)
      requires 0 <= k && conn != this
      modifies this`n, (if conn == null then {} else {conn})`n
      ensures ok <==> k <= old(n) && (conn != null ==> k <= old(conn.n))
      ensures n == if ok then old(n) - k else old(n)
      ensures conn != null ==> conn.n == if ok then old(conn.n) - k else old(conn.n)
    {
      if k > Available() {
        return false;
      }
      n := n - k;
      if conn != null {
        conn.n := conn.n - k;
      }
      return true;
    }

    method Add(delta: int32) returns (ok: bool)
      modifies this`n
      ensures ok <==> MIN_INT32 <= old(n) + delta <= MAX_INT32
      ensures n == if ok then old(n) + delta else old(n)
    {
      AcceptsExactlyTheSumsThatFit(n, delta);
      var sum := Wrap32(n + delta);
      if (sum > delta) == (n > 0) {
        n := sum;
        return true;
      }
      return false;
    }
  }
}
