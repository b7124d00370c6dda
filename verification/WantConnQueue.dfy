/** The two-stage queue of waiting requests (transport.go, wantConnQueue): a head that is popped by moving an index,
    a tail that is appended to, and a swap that makes the old head's storage the new tail. */
module WantConnQueues {
  import opened Base

  class WantConn {
    var done: bool      // delivered or canceled
    var cancelCtx: bool // the dial can still be canceled

    constructor ()
      ensures !done && cancelCtx
    {
      done, cancelCtx := false, true;
    }

    predicate Waiting()
      reads this
    {
      !done
    }
  }

  /** How many leading elements of a queue fail a test: the length of its longest failing prefix. */
  function LeadingFalse(keep: seq<bool>): (n: nat)
    ensures n <= |keep| && (n < |keep| ==> keep[n])
    ensures forall i :: 0 <= i < n ==> !keep[i]
  {
    if keep == [] || keep[0] then 0 else 1 + LeadingFalse(keep[1..])
  }

  /** Only one number has that property. */
  lemma {:induction false} LeadingFalseIs(keep: seq<bool>, n: nat)
    requires n <= |keep| && (forall i :: 0 <= i < n ==> !keep[i]) && (n < |keep| ==> keep[n])
    ensures LeadingFalse(keep) == n
  {
    if n > 0 {
      LeadingFalseIs(keep[1..], n - 1);
    }
  }

  /** Which of the requests wait. */
  ghost function Waits(s: seq<WantConn?>): seq<bool>
    requires forall i :: 0 <= i < |s| ==> s[i] != null
    reads s
  {
    seq(|s|, i requires 0 <= i < |s| reads s => s[i].Waiting())
  }

  /** Which of the requests have a dial that can be canceled. */
  ghost function Cancelable(s: seq<WantConn?>): seq<bool>
    requires forall i :: 0 <= i < |s| ==> s[i] != null
    reads s
  {
    seq(|s|, i requires 0 <= i < |s| reads s => s[i].cancelCtx)
  }

  class WantConnQueue {
    var head: array<WantConn?>
    var headLen: nat
    var headPos: nat
    var tail: array<WantConn?>
    var tailLen: nat

    /** The two stages never share storage, and what is queued is never nil. */
    ghost predicate Valid()
      reads this, head, tail
    {
      && headPos <= headLen <= head.Length
      && tailLen <= tail.Length
      && head != tail
      && (forall i :: headPos <= i < headLen ==> head[i] != null)
      && (forall i :: 0 <= i < tailLen ==> tail[i] != null)
    }

    /** What the queue holds, in order. */
    ghost function Contents(): (s: seq<WantConn?>)
      requires Valid()
      reads this, head, tail
      ensures forall i :: 0 <= i < |s| ==> s[i] != null
    {
      head[headPos..headLen] + tail[..tailLen]
    }

    constructor ()
      ensures Valid() && Contents() == [] && fresh(head) && fresh(tail)
    {
      head, tail := new WantConn?[0], new WantConn?[0];
      headLen, headPos, tailLen := 0, 0, 0;
    }

    method Len() returns (n: int)
      requires Valid()
      ensures n == |Contents()|
    {
      n := headLen - headPos + tailLen;
    }

    /** append: in place while there is capacity, else into a larger array. */
    method PushBack(w: WantConn)
      requires Valid()
      modifies this`tail, this`tailLen, tail
      ensures Valid() && Contents() == old(Contents()) + [w]
      ensures tail == old(tail) || fresh(tail)
    {
      if tailLen == tail.Length {
        var bigger := new WantConn?[2 * tail.Length + 1];
        forall i | 0 <= i < tailLen {
          bigger[i] := tail[i];
        }
        assert bigger[..tailLen] == tail[..tailLen];
        tail := bigger;
      }
      assert tail[..tailLen] == old(tail[..tailLen]);
      tail[tailLen] := w;
      tailLen := tailLen + 1;
      assert tail[..tailLen] == old(tail[..tailLen]) + [w];
    }

    method PopFront() returns (w: WantConn?)
      requires Valid()
      modifies this, head, tail
      ensures Valid() && {head, tail} == {old(head), old(tail)}
      ensures if old(Contents()) == [] then w == null && Contents() == []
              else w == old(Contents())[0] && Contents() == old(Contents())[1..]
    {
      if headPos >= headLen {
        if tailLen == 0 {
          return null;
        }
        // the stages change places, and the new tail is empty
        head, headLen, headPos, tail, tailLen := tail, tailLen, 0, head, 0;
      }
      ghost var all := Contents();
      assert all == old(Contents());
      w := head[headPos];
      head[headPos] := null;
      headPos := headPos + 1;
      assert Contents() == all[1..];
    }

    method PeekFront() returns (w: WantConn?)
      requires Valid()
      ensures if Contents() == [] then w == null else w == Contents()[0]
    {
      if headPos < headLen {
        return head[headPos];
      }
      if tailLen > 0 {
        return tail[0];
      }
      return null;
    }

    /** Removes exactly the longest prefix of requests that wait no more. */
    method CleanFrontNotWaiting() returns (cleaned: bool)
      requires Valid()
      modifies this, head, tail
      ensures Valid() && {head, tail} == {old(head), old(tail)}
      ensures Contents() == old(Contents())[LeadingFalse(old(Waits(Contents())))..]
      ensures cleaned == (LeadingFalse(old(Waits(Contents()))) > 0)
    {
      ghost var all := Contents();
      ghost var keep := Waits(all);
      ghost var n := 0;
      cleaned := false;
      while true
        invariant Valid() && {head, tail} == {old(head), old(tail)}
        invariant n <= |all| && Contents() == all[n..] && cleaned == (n > 0)
        invariant forall i :: 0 <= i < n ==> !keep[i]
        invariant forall i :: 0 <= i < |all| ==> keep[i] == all[i].Waiting()
        decreases |all| - n
      {
        var w := PeekFront();
        if w == null || w.Waiting() {
          LeadingFalseIs(keep, n);
          hide LeadingFalse;
          return;
        }
        assert w == all[n] && all[n..][1..] == all[n + 1..];
        var _ := PopFront();
        n := n + 1;
        cleaned := true;
      }
    }

    /** Removes exactly the longest prefix of requests whose dial can no longer be canceled. */
    method CleanFrontCanceled()
      requires Valid()
      modifies this, head, tail
      ensures Valid() && {head, tail} == {old(head), old(tail)}
      ensures Contents() == old(Contents())[LeadingFalse(old(Cancelable(Contents())))..]
    {
      ghost var all := Contents();
      ghost var keep := Cancelable(all);
      ghost var n := 0;
      while true
        invariant Valid() && {head, tail} == {old(head), old(tail)}
        invariant n <= |all| && Contents() == all[n..]
        invariant forall i :: 0 <= i < n ==> !keep[i]
        invariant forall i :: 0 <= i < |all| ==> keep[i] == all[i].cancelCtx
        decreases |all| - n
      {
        var w := PeekFront();
        if w == null || w.cancelCtx {
          LeadingFalseIs(keep, n);
          hide LeadingFalse;
          return;
        }
        assert w == all[n] && all[n..][1..] == all[n + 1..];
        var _ := PopFront();
        n := n + 1;
      }
    }

    /** The requests that `all` visits, in its order. */
    method All() returns (visited: seq<WantConn?>)
      requires Valid()
      ensures visited == Contents()
    {
      visited := [];
      for i := headPos to headLen
        invariant visited == head[headPos..i]
      {
        visited := visited + [head[i]];
      }
      for i := 0 to tailLen
        invariant visited == head[headPos..headLen] + tail[..i]
      {
        visited := visited + [tail[i]];
      }
    }
  }
}
