/** The two-stage queue in its place (transport.go): used as the pool's methods use it, a queue of request objects does
    what the pool's state machine says of its queue of names. */
module PoolQueues {
  import opened Base
  import opened Pool
  import opened WantConnQueues

  type Names = map<WantConn, WantID>

  predicate AllNamed(names: Names, s: seq<WantConn?>) {
    forall i :: 0 <= i < |s| ==> s[i] != null && s[i] in names
  }

  function Named(names: Names, s: seq<WantConn?>): (q: seq<WantID>)
    requires AllNamed(names, s)
  {
    seq(|s|, i requires 0 <= i < |s| => names[s[i]])
  }

  /** An object waits when the state machine says so of its name. */
  ghost predicate Agrees(names: Names, wants: map<WantID, Want>, s: seq<WantConn?>)
    requires AllNamed(names, s)
    reads s
  {
    forall i :: 0 <= i < |s| ==> s[i].Waiting() == IsWaiting(wants, names[s[i]])
  }

  /** The longest prefix that waits no more is the same on both sides. */
  lemma {:induction false} DropDoneIs(names: Names, wants: map<WantID, Want>, s: seq<WantConn?>)
    requires AllNamed(names, s) && Agrees(names, wants, s)
    ensures DropDone(wants, Named(names, s)) == Named(names, s[LeadingFalse(Waits(s))..])
  {
    if s != [] && !s[0].Waiting() {
      assert Waits(s)[1..] == Waits(s[1..]);
      assert Named(names, s)[1..] == Named(names, s[1..]);
      DropDoneIs(names, wants, s[1..]);
      assert s[1..][LeadingFalse(Waits(s[1..]))..] == s[LeadingFalse(Waits(s))..];
    }
  }

  /** A request is queued behind those that still wait. */
  method Enqueue(queue: WantConnQueue, w: WantConn, ghost names: Names, ghost wants: map<WantID, Want>)
    requires queue.Valid() && AllNamed(names, queue.Contents()) && Agrees(names, wants, queue.Contents()) && w in names
    modifies queue, queue.head, queue.tail
    ensures queue.Valid() && AllNamed(names, queue.Contents())
    ensures Named(names, queue.Contents()) == DropDone(wants, old(Named(names, queue.Contents()))) + [names[w]]
  {
    ghost var all := queue.Contents();
    DropDoneIs(names, wants, all);
    var _ := queue.CleanFrontNotWaiting();
    ghost var kept := queue.Contents();
    assert AllNamed(names, kept);
    queue.PushBack(w);
    assert AllNamed(names, kept + [w]);
    assert Named(names, kept + [w]) == Named(names, kept) + [names[w]];
  }

  /** The first request that still waits is taken, and everything before it is dropped. */
  method NextWaiting(queue: WantConnQueue, ghost names: Names, ghost wants: map<WantID, Want>) returns (w: WantConn?)
    requires queue.Valid() && AllNamed(names, queue.Contents()) && Agrees(names, wants, queue.Contents())
    modifies queue, queue.head, queue.tail
    ensures queue.Valid() && AllNamed(names, queue.Contents())
    ensures var q := DropDone(wants, old(Named(names, queue.Contents())));
            if q == [] then w == null && queue.Contents() == []
            else w != null && w in names && names[w] == q[0] && Named(names, queue.Contents()) == q[1..]
  {
    ghost var all := queue.Contents();
    ghost var q := DropDone(wants, Named(names, all));
    while true
      invariant queue.Valid() && {queue.head, queue.tail} == {old(queue.head), old(queue.tail)}
      invariant AllNamed(names, queue.Contents()) && Agrees(names, wants, queue.Contents())
      invariant q == DropDone(wants, Named(names, queue.Contents()))
      decreases |queue.Contents()|
    {
      var n := queue.Len();
      if n == 0 {
        return null;
      }
      ghost var s := queue.Contents();
      assert Named(names, s)[1..] == Named(names, s[1..]);
      w := queue.PopFront();
      if w.Waiting() {
        return;
      }
    }
  }
}
