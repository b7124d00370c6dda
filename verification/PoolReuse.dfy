/** What the connection pool (transport.go) is for: a new request takes the most recently used idle connection that is
    still good, and a connection that a request gives back is the one the next request gets. */
module PoolReuse {
  import opened Base
  import opened Pool
  import opened PoolInvariant

  predicate Usable(s: State, c: ConnID, stale: set<ConnID>) {
    c !in stale && (c in s.conns ==> !s.conns[c].closed)
  }

  predicate NewestUsable(s: State, list: seq<ConnID>, stale: set<ConnID>, i: nat)
    requires i < |list|
  {
    Usable(s, list[i], stale) && forall j :: i < j < |list| ==> !Usable(s, list[j], stale)
  }

  /** Some connection of the list is good. */
  predicate AnyUsable(s: State, list: seq<ConnID>, stale: set<ConnID>) {
    exists i :: 0 <= i < |list| && Usable(s, list[i], stale)
  }

  lemma TrimIs(s: State, list: seq<ConnID>, stale: set<ConnID>)
    ensures var kept := Trim(s.conns, list, stale);
            && (kept != [] <==> AnyUsable(s, list, stale))
            && (kept != [] ==> NewestUsable(s, list, stale, |kept| - 1))
            && kept == list[..|kept|]
  {
    TrimFacts(s.conns, list, stale);
    var kept := Trim(s.conns, list, stale);
    assert forall j :: |kept| <= j < |list| ==> !Usable(s, list[j], stale);
    if kept != [] {
      assert Usable(s, list[|kept| - 1], stale);
    }
    hide Trim;
  }

  lemma NewestIsOne(s: State, list: seq<ConnID>, stale: set<ConnID>, i: nat, j: nat)
    requires i < |list| && j < |list| && NewestUsable(s, list, stale, i) && NewestUsable(s, list, stale, j)
    ensures i == j
  {
  }

  /** A new request has a connection at once exactly when keep-alives are on and a good one is listed for its host. */
  lemma ServedAtOnceExactlyWhen(cfg: Config, s: State, w: WantID, k: Key, stale: set<ConnID>)
    ensures var t := AfterGetConn(cfg, s, w, k, stale);
            && w in t.wants
            && (t.wants[w].status.HasConn? <==> !cfg.disableKeepAlives && AnyUsable(s, IdleOf(s, k), stale))
            && (!t.wants[w].status.HasConn? ==> t.wants[w] == Want(k, Waiting) && t.toDial == s.toDial + {w})
  {
    TrimIs(s, IdleOf(s, k), stale);
    hide Trim, Skipped, DropDone, Without, AnyUsable, NewestUsable;
  }

  /** It is the most recently used of the good ones; it leaves the list with everything newer, and the LRU. */
  lemma NewestIsServed(cfg: Config, s: State, w: WantID, k: Key, stale: set<ConnID>, i: nat)
    requires !cfg.disableKeepAlives && i < |IdleOf(s, k)| && NewestUsable(s, IdleOf(s, k), stale, i)
    ensures var t := AfterGetConn(cfg, s, w, k, stale);
            && t.wants == s.wants[w := Want(k, HasConn(IdleOf(s, k)[i]))]
            && IdleOf(t, k) == IdleOf(s, k)[..i] && t.lru == Without(s.lru, IdleOf(s, k)[i])
            && t.toDial == s.toDial && t.idleWait == s.idleWait
  {
    var list := IdleOf(s, k);
    TrimIs(s, list, stale);
    var kept := Trim(s.conns, list, stale);
    assert AnyUsable(s, list, stale);
    NewestIsOne(s, list, stale, i, |kept| - 1);
    assert kept[..|kept| - 1] == list[..i] && kept[|kept| - 1] == list[i];
    hide Trim, Skipped, DropDone, Without, AnyUsable, NewestUsable;
  }

  /** Otherwise it stands last in the queue for idle connections of its host, behind those that still wait. */
  lemma QueuedOtherwise(cfg: Config, s: State, w: WantID, k: Key, stale: set<ConnID>)
    requires !cfg.disableKeepAlives && !AnyUsable(s, IdleOf(s, k), stale)
    ensures var t := AfterGetConn(cfg, s, w, k, stale);
            && IdleOf(t, k) == []
            && EndsWith(IdleWaitOf(t, k), w)
            && (forall v :: v in IdleWaitOf(s, k) && IsWaiting(s.wants, v) ==> v in IdleWaitOf(t, k))
  {
    var s0 := s.(wants := s.wants[w := Want(k, Waiting)]);
    TrimIs(s, IdleOf(s, k), stale);
    DropDoneMembers(s0.wants, IdleWaitOf(s, k));
    hide Trim, Skipped, DropDone, Without, AnyUsable;
  }

  // ----- A connection that comes back -----

  /** What must hold for a connection of host k to be kept for the next request. */
  predicate Keeps(cfg: Config, s: State, k: Key) {
    && !cfg.disableKeepAlives && cfg.maxIdleConnsPerHost >= 0 && cfg.maxIdleConns >= 0
    && !s.closeIdle
    && |IdleOf(s, k)| < cfg.MaxIdlePerHost()
    && forall v :: v in IdleWaitOf(s, k) ==> !IsWaiting(s.wants, v)
  }

  /** The request that holds c is over, and c goes through tryPutIdleConn. */
  function GiveBack(cfg: Config, s: State, c: ConnID): State
    requires c in s.conns
  {
    var s1 := AfterPutCheck(cfg, AfterEndUse(s, c, true), c);
    if c in s1.checked then AfterPutIdle(cfg, s1, c) else s1
  }

  lemma GivesBackByItsSteps(cfg: Config, s: State, c: ConnID)
    requires c in s.conns && c in s.inUse && c !in s.checked
    ensures Enabled(cfg, s, EndUse(c, true))
    ensures var s1 := Apply(cfg, s, EndUse(c, true));
            && Enabled(cfg, s1, PutCheck(c))
            && (var s2 := Apply(cfg, s1, PutCheck(c));
                (Enabled(cfg, s2, PutIdle(c)) <==> c in s2.checked)
                && GiveBack(cfg, s, c) == if c in s2.checked then Apply(cfg, s2, PutIdle(c)) else s2)
  {
    hide AfterPutIdle;
  }

  lemma UsedIsFree(cfg: Config, s: State, c: ConnID)
    requires Inv(cfg, s) && c in s.inUse
    ensures c in s.conns && c !in s.lru && c !in s.checked && c !in IdleOf(s, s.conns[c].key)
    ensures forall x :: x in s.lru ==> x in s.conns
    ensures cfg.maxIdleConns < 0 ==> s.lru == []
  {
    assert Holds(s, ByUse, c);
    assert c in s.checked ==> Holds(s, ByCheck, c);
    assert Listed(s, c) ==> Holds(s, ByList, c);
    hide IndexesAgree, WithinLimits, WantSide, Counted, Slots;
  }

  /** A connection given back ends up as the newest of its host's list, open, exactly when the host keeps it;
      when not, it is in no list or closed. */
  lemma GivenBack(cfg: Config, s: State, c: ConnID)
    requires Inv(cfg, s) && c in s.inUse && c in s.conns && !s.conns[c].closed
    ensures var k, t := s.conns[c].key, GiveBack(cfg, s, c);
            if Keeps(cfg, s, k) then EndsWith(IdleOf(t, k), c) && c in t.conns && !t.conns[c].closed
            else cfg.disableKeepAlives || c !in IdleOf(t, k) || (c in t.conns && t.conns[c].closed)
  {
    hide GiveBack, PutLocked, Keeps, Counted, WantSide;
    UsedIsFree(cfg, s, c);
    var k := s.conns[c].key;
    NotWithoutKeepAlives(cfg, s, k);
    if !cfg.disableKeepAlives && cfg.maxIdleConnsPerHost >= 0 {
      var s2 := Checked(cfg, s, c);
      SameKeeps(cfg, s, s2, k);
      PutKeeps(cfg, s2, c);
    } else {
      NotChecked(cfg, s, c);
    }
    hide *;
  }

  lemma NotChecked(cfg: Config, s: State, c: ConnID)
    requires c in s.conns && c !in s.checked && (cfg.disableKeepAlives || cfg.maxIdleConnsPerHost < 0)
    ensures forall k :: IdleOf(GiveBack(cfg, s, c), k) == IdleOf(s, k)
  {
    hide AfterPutIdle;
  }

  /** Checked for keeping, c is about to be put back. */
  lemma Checked(cfg: Config, s: State, c: ConnID) returns (s2: State)
    requires c in s.conns && c !in s.checked && !s.conns[c].closed && !cfg.disableKeepAlives && cfg.maxIdleConnsPerHost >= 0
    ensures (s2.wants, s2.idle, s2.lru, s2.conns, s2.idleWait, s2.closeIdle) == (s.wants, s.idle, s.lru, s.conns, s.idleWait, s.closeIdle)
    ensures forall k :: IdleOf(s2, k) == IdleOf(s, k)
    ensures var k, t, u := s.conns[c].key, GiveBack(cfg, s, c), PutLocked(cfg, s2, c).0;
            IdleOf(t, k) == IdleOf(u, k) && t.conns == u.conns
  {
    var s1 := AfterPutCheck(cfg, AfterEndUse(s, c, true), c);
    s2 := s1.(checked := s1.checked - {c});
    assert c in s1.checked;
    PutEnds(cfg, s1, c, s.conns[c].key);
    assert s2.idle == s.idle;
    assert GiveBack(cfg, s, c) == AfterPutIdle(cfg, s1, c) by {
      hide AfterPutIdle, AfterPutCheck, AfterEndUse;
    }
    hide PutLocked, AfterPutIdle, AfterPutCheck, AfterEndUse, GiveBack;
  }

  lemma NotWithoutKeepAlives(cfg: Config, s: State, k: Key)
    ensures Keeps(cfg, s, k) ==> !cfg.disableKeepAlives && cfg.maxIdleConnsPerHost >= 0
  {
  }

  lemma PutEnds(cfg: Config, s: State, c: ConnID, k: Key)
    requires c in s.conns
    ensures var t, u := AfterPutIdle(cfg, s, c), PutLocked(cfg, s.(checked := s.checked - {c}), c).0;
            IdleOf(t, k) == IdleOf(u, k) && t.conns == u.conns
  {
    hide PutLocked;
  }

  lemma SameKeeps(cfg: Config, s: State, t: State, k: Key)
    requires (t.wants, t.idle, t.lru, t.conns, t.idleWait, t.closeIdle) == (s.wants, s.idle, s.lru, s.conns, s.idleWait, s.closeIdle)
    ensures Keeps(cfg, s, k) == Keeps(cfg, t, k)
  {
  }

  lemma PutKeeps(cfg: Config, s: State, c: ConnID)
    requires c in s.conns && !s.conns[c].closed && c !in s.lru && (forall x :: x in s.lru ==> x in s.conns)
    requires c !in IdleOf(s, s.conns[c].key) && (cfg.maxIdleConns < 0 ==> s.lru == [])
    requires !cfg.disableKeepAlives && cfg.maxIdleConnsPerHost >= 0
    ensures var k, t := s.conns[c].key, PutLocked(cfg, s, c).0;
            if Keeps(cfg, s, k) then EndsWith(IdleOf(t, k), c) && c in t.conns && !t.conns[c].closed
            else c !in IdleOf(t, k) || (c in t.conns && t.conns[c].closed)
  {
    var k := s.conns[c].key;
    var q := DropDone(s.wants, IdleWaitOf(s, k));
    DropDoneMembers(s.wants, IdleWaitOf(s, k));
    assert q == [] <==> forall v :: v in IdleWaitOf(s, k) ==> !IsWaiting(s.wants, v);
    PutGoesToOnePlace(cfg, s, c);
    if q == [] && cfg.maxIdleConns < 0 && !s.closeIdle && |IdleOf(s, k)| < cfg.MaxIdlePerHost() {
      EvictsItself(cfg, s.(idleWait := Store(s.idleWait, k, [])), c);
    }
    hide DropDone, StoreIdle, Store;
  }

  /** With a negative limit on idle connections, the one just stored is the oldest and is closed again. */
  lemma EvictsItself(cfg: Config, s: State, c: ConnID)
    requires c in s.conns && s.lru == [] && cfg.maxIdleConns < 0
    ensures var t := StoreIdle(cfg, s, c); c in t.conns && t.conns[c].closed
  {
    var u := Listing(s, c);
    assert u.lru == [c];
    EvictedLists(cfg, u, s.conns[c].key);
    hide Evict;
  }

  /** Whether a new request for host k gets c at once. */
  predicate Gets(cfg: Config, s: State, w: WantID, k: Key, stale: set<ConnID>, c: ConnID) {
    var t := AfterGetConn(cfg, s, w, k, stale);
    w in t.wants && t.wants[w].status == HasConn(c)
  }

  /** From any reachable state: the next request for the host gets the very connection that was just given back exactly
      when the host keeps connections, has room, and nobody waited for it. */
  lemma ReusedExactlyWhen(cfg: Config, s: State, c: ConnID, w: WantID, stale: set<ConnID>)
    requires Inv(cfg, s) && c in s.inUse && c in s.conns && !s.conns[c].closed && c !in stale
    ensures Gets(cfg, GiveBack(cfg, s, c), w, s.conns[c].key, stale, c) <==> Keeps(cfg, s, s.conns[c].key)
  {
    var k, t := s.conns[c].key, GiveBack(cfg, s, c);
    GivenBack(cfg, s, c);
    ServedWith(cfg, t, w, k, stale, c);
    NotWithoutKeepAlives(cfg, s, k);
    hide *;
  }

  lemma ServedWith(cfg: Config, t: State, w: WantID, k: Key, stale: set<ConnID>, c: ConnID)
    ensures !cfg.disableKeepAlives && EndsWith(IdleOf(t, k), c) && c !in stale && (c in t.conns ==> !t.conns[c].closed)
            ==> Gets(cfg, t, w, k, stale, c)
    ensures Gets(cfg, t, w, k, stale, c) ==> !cfg.disableKeepAlives && c in IdleOf(t, k) && (c in t.conns ==> !t.conns[c].closed)
  {
    ServedAtOnceExactlyWhen(cfg, t, w, k, stale);
    var list := IdleOf(t, k);
    if !cfg.disableKeepAlives && AnyUsable(t, list, stale) {
      TrimIs(t, list, stale);
      var i: nat := |Trim(t.conns, list, stale)| - 1;
      NewestIsServed(cfg, t, w, k, stale, i);
      assert EndsWith(list, c) && Usable(t, c, stale) ==> i == |list| - 1;
    }
    hide AfterGetConn, Trim, IdleOf;
  }

  // ----- From hand to hand -----

  /** A dialled connection is delivered to the request it was dialled for, unless that has its answer, and a failure is
      reported to it. */
  lemma DialsAnswer(s: State, w: WantID)
    requires w in s.wants && w in s.dials
    ensures s.dials[w].Connected? ==>
              var t := AfterDialDeliver(s, w);
              if s.wants[w].status == Waiting then t.wants[w].status == HasConn(s.dials[w].pc)
              else s.dials[w].pc in t.returning && t.wants == s.wants
    ensures s.wants[w].status == Waiting ==> AfterDialFailed(s, w).wants[w].status == HasError
  {
  }

  /** A request that has its connection uses it, or gives it back when it is cancelled. */
  lemma AnswersAreUsed(s: State, w: WantID, c: ConnID)
    requires w in s.wants && s.wants[w].status == HasConn(c)
    ensures AfterReceive(s, w).wants[w].status == Finished && c in AfterReceive(s, w).inUse
    ensures AfterCancel(s, w).wants[w].status == Finished && c in AfterCancel(s, w).returning
  {
  }

  /** What nobody keeps is closed: a connection that cannot be used again, one on the way to be closed, and one that fails
      by itself. */
  lemma NotKeptIsClosed(cfg: Config, s: State, c: ConnID)
    requires c in s.conns
    ensures Enabled(cfg, s, EndUse(c, false)) ==> c in Apply(cfg, s, EndUse(c, false)).closing
    ensures Enabled(cfg, s, FinishClose(c)) ==> Apply(cfg, s, FinishClose(c)).conns[c].closed
    ensures Apply(cfg, s, CloseAny(c)).conns[c].closed
  {
    hide Dec;
  }

  /** An idle connection whose time is over is closed and forgotten; one that was taken meanwhile is left alone. */
  lemma IdleTooLongIsClosed(cfg: Config, s: State, c: ConnID)
    requires Inv(cfg, s) && Enabled(cfg, s, ReapIdle(c))
    ensures var t := Apply(cfg, s, ReapIdle(c));
            if c in s.lru then t.conns[c].closed && c !in t.lru && !Listed(t, c) else t == s.(reaping := s.reaping - {c})
  {
    var k := s.conns[c].key;
    var s1 := s.(reaping := s.reaping - {c});
    WithoutFacts(s.lru, c);
    WithoutFacts(IdleOf(s, k), c);
    var u := RemoveIdle(s1, c);
    assert c !in u.lru && c !in IdleOf(u, k) && c in u.conns && u.conns[c].key == k by {
      hide Inv;
    }
    CloseKeepsIdle(cfg, u, c);
    hide Inv, RemoveIdle, Dec;
  }

  /** CloseIdleConnections leaves no idle connection: each is about to be closed. */
  lemma CloseIdleTakesAll(cfg: Config, s: State, k: Key, c: ConnID)
    requires c in IdleOf(s, k)
    ensures var t := Apply(cfg, s, CloseIdleConns); c in t.closing && IdleOf(t, k) == [] && t.lru == [] && t.closeIdle
  {
    var i :| 0 <= i < |IdleOf(s, k)| && IdleOf(s, k)[i] == c;
    assert s.idle[k][i] in AllListed(s.idle);
  }
}
