/** Whether the connection pool can lose a connection: leave it open with nobody to use, offer or close it. */
module PoolOwnership {
  import opened Base
  import opened Pool
  import opened PoolInvariant
  import opened PoolSteps
  import opened PoolDelivery
  import opened PoolTheorems

  ghost predicate Held(s: State, c: ConnID) {
    exists h :: Holds(s, h, c)
  }

  predicate IsOpen(s: State, c: ConnID) {
    c in s.conns && !s.conns[c].closed
  }

  /** Every open connection has a holder. */
  ghost predicate NoneLost(s: State) {
    forall c :: IsOpen(s, c) ==> Held(s, c)
  }

  /** No open connection waits only for closeConnIfStillIdle. */
  ghost predicate NoneAwaitingCleanUp(s: State) {
    forall c :: IsOpen(s, c) ==> !Holds(s, ByReaper, c)
  }

  /** The holders of x in s still hold it in t. */
  ghost predicate Still(s: State, t: State, x: ConnID) {
    forall g :: Holds(s, g, x) ==> Holds(t, g, x)
  }

  lemma StillHeld(s: State, t: State, x: ConnID)
    requires Still(s, t, x) && Held(s, x)
    ensures Held(t, x)
  {
    var h :| Holds(s, h, x);
    assert Holds(t, h, x);
  }

  // ----- What the sections do to holders -----

  lemma DecStill(cfg: Config, s: State, k: Key, x: ConnID)
    requires DialOnce(s)
    ensures Still(s, Dec(cfg, s, k), x)
  {
    var t := Dec(cfg, s, k);
    DropDoneMembers(s.wants, DialWaitOf(s, k));
    assert forall w :: w in s.dials ==> w in t.dials && t.dials[w] == s.dials[w];
    assert Listed(t, x) == Listed(s, x);
    hide Dec, Listed;
  }

  lemma CloseStill(cfg: Config, s: State, c: ConnID, x: ConnID)
    requires DialOnce(s) && c in s.conns
    ensures Still(s, CloseConn(cfg, s, c), x)
  {
    if !s.conns[c].closed {
      var u := s.(conns := s.conns[c := s.conns[c].(closed := true)]);
      assert DialOnce(u) by {
        assert forall j :: DialWaitOf(u, j) == DialWaitOf(s, j);
        hide DialWaitOf, Distinct;
      }
      DecStill(cfg, u, s.conns[c].key, x);
      assert Listed(u, x) == Listed(s, x);
      hide Dec, Listed;
      assert Still(s, u, x);
      hide Holds;
    }
  }

  lemma RemoveStill(s: State, c: ConnID, x: ConnID)
    requires IndexesAgree(s) && c in s.conns && x != c
    ensures Still(s, RemoveIdle(s, c), x)
  {
    var t := RemoveIdle(s, c);
    RemovedIndexes(s, t, c);
    assert Listed(t, x) == Listed(s, x);
    hide Listed, IdleOf, Without;
  }

  lemma OnlyWaits(s: State, t: State, x: ConnID)
    requires t == s.(idleWait := t.idleWait, toDial := t.toDial, dialWait := t.dialWait, count := t.count, closeIdle := t.closeIdle)
    ensures Still(s, t, x)
  {
    assert Listed(t, x) == Listed(s, x);
    hide Listed;
  }

  // ----- One step -----

  /** A connection on its way keeps a holder: from the dial or the result channel to the request, from there to the
      pool or to its end. */
  lemma DeliverKeepsHeld(s: State, w: WantID, x: ConnID)
    requires w in s.wants && w in s.dials && s.dials[w].Connected? && Held(s, x)
    requires IsWaiting(s.wants, w) ==> !s.wants[w].status.HasConn?
    ensures Held(AfterDialDeliver(s, w), x)
  {
    var t := AfterDialDeliver(s, w);
    var h :| Holds(s, h, x);
    assert Listed(t, x) == Listed(s, x);
    hide Listed;
    assert Holds(t, if h != ByDial(w) then h else if IsWaiting(s.wants, w) then ByWant(w) else ByReturn, x);
  }

  /** The result channel of w is emptied; a connection in it goes to the request or back to the pool. */
  lemma EmptiedKeepsHeld(s: State, t: State, w: WantID, to: Holder, x: ConnID)
    requires w in s.wants && Held(s, x)
    requires t == s.(wants := s.wants[w := s.wants[w].(status := Finished)], inUse := t.inUse, returning := t.returning)
    requires s.inUse <= t.inUse && s.returning <= t.returning
    requires s.wants[w].status == HasConn(x) ==> Holds(t, to, x)
    ensures Held(t, x)
  {
    var h :| Holds(s, h, x);
    assert Listed(t, x) == Listed(s, x);
    hide Listed;
    assert Holds(t, if h == ByWant(w) then to else h, x);
  }

  lemma ReceiveKeepsHeld(s: State, w: WantID, x: ConnID)
    requires w in s.wants && Held(s, x)
    ensures Held(AfterReceive(s, w), x)
  {
    EmptiedKeepsHeld(s, AfterReceive(s, w), w, ByUse, x);
    hide Held, Listed;
  }

  lemma CancelKeepsHeld(s: State, w: WantID, x: ConnID)
    requires w in s.wants && Held(s, x)
    ensures Held(AfterCancel(s, w), x)
  {
    EmptiedKeepsHeld(s, AfterCancel(s, w), w, ByReturn, x);
    hide Held, Listed;
  }

  lemma EndUseKeepsHeld(s: State, c: ConnID, reusable: bool, x: ConnID)
    requires Held(s, x)
    ensures Held(AfterEndUse(s, c, reusable), x)
  {
    var t := AfterEndUse(s, c, reusable);
    var h :| Holds(s, h, x);
    assert Listed(t, x) == Listed(s, x);
    hide Listed;
    assert Holds(t, if h != ByUse || c != x then h else if reusable then ByReturn else ByClose, x);
  }

  lemma CheckedKeepsHeld(s: State, t: State, c: ConnID, to: Holder, x: ConnID)
    requires Held(s, x) && (to == ByCheck || to == ByClose)
    requires t == if to == ByCheck then s.(returning := s.returning - {c}, checked := s.checked + {c})
                  else s.(returning := s.returning - {c}, closing := s.closing + {c})
    ensures Held(t, x)
  {
    var h :| Holds(s, h, x);
    assert Listed(t, x) == Listed(s, x);
    hide Listed;
    assert Holds(t, if h != ByReturn || c != x then h else to, x);
  }

  lemma PutCheckKeepsHeld(cfg: Config, s: State, c: ConnID, x: ConnID)
    requires c in s.conns && Held(s, x)
    ensures Held(AfterPutCheck(cfg, s, c), x)
  {
    hide Held;
    var to := if cfg.disableKeepAlives || cfg.maxIdleConnsPerHost < 0 || s.conns[c].closed then ByClose else ByCheck;
    CheckedKeepsHeld(s, AfterPutCheck(cfg, s, c), c, to, x);
  }

  lemma DialFailedStill(s: State, w: WantID, x: ConnID)
    requires w in s.wants && w in s.dials && s.dials[w] == Dialling
    ensures Still(s, AfterDialFailed(s, w), x)
  {
    var t := AfterDialFailed(s, w);
    assert Listed(t, x) == Listed(s, x);
    assert forall v :: v in s.wants && s.wants[v].status.HasConn? ==> v in t.wants && t.wants[v] == s.wants[v];
    assert forall v :: v in s.dials && s.dials[v].Connected? ==> v in t.dials && t.dials[v] == s.dials[v];
    assert t == s.(wants := t.wants, dials := t.dials);
    hide Listed, AfterDialFailed;
  }

  lemma DialBeginStill(cfg: Config, s: State, w: WantID, x: ConnID)
    requires w in s.wants && w in s.dials && s.dials[w] == Started && DialOnce(s)
    ensures Still(s, AfterDialBegin(cfg, s, w), x)
  {
    if IsWaiting(s.wants, w) {
      assert Listed(AfterDialBegin(cfg, s, w), x) == Listed(s, x);
      hide Listed, Dec;
    } else {
      GiveBackStill(cfg, s, w, x);
      hide Dec;
    }
  }

  lemma GiveBackStill(cfg: Config, s: State, w: WantID, x: ConnID)
    requires w in s.wants && w in s.dials && !s.dials[w].Connected? && DialOnce(s)
    ensures Still(s, Dec(cfg, s.(dials := s.dials - {w}), s.wants[w].key), x)
  {
    var u := s.(dials := s.dials - {w});
    assert DialOnce(u) by {
      assert forall j :: DialWaitOf(u, j) == DialWaitOf(s, j);
      hide DialWaitOf, Distinct;
    }
    DecStill(cfg, u, s.wants[w].key, x);
    assert Listed(u, x) == Listed(s, x);
    hide Dec, Listed;
    assert Still(s, u, x);
    hide Holds;
  }

  lemma ConnectedHeld(s: State, w: WantID, c: ConnID, x: ConnID)
    requires w in s.wants && w in s.dials && s.dials[w] == Dialling && c !in s.conns
    requires x == c || Held(s, x)
    ensures Held(s.(dials := s.dials[w := Connected(c)], conns := s.conns[c := Conn(s.wants[w].key, false)]), x)
  {
    var t := s.(dials := s.dials[w := Connected(c)], conns := s.conns[c := Conn(s.wants[w].key, false)]);
    if x == c {
      assert Holds(t, ByDial(w), c);
    } else {
      assert Listed(t, x) == Listed(s, x);
      hide Listed;
      assert Still(s, t, x);
      StillHeld(s, t, x);
    }
  }

  lemma DialAddedStill(s: State, t: State, w: WantID, x: ConnID)
    requires w !in s.dials && t == s.(toDial := t.toDial, dials := s.dials[w := Started], count := t.count)
    ensures Still(s, t, x)
  {
    assert Listed(t, x) == Listed(s, x);
    hide Listed;
  }

  lemma QueueDialStill(cfg: Config, s: State, w: WantID, x: ConnID)
    requires w in s.wants && w !in s.dials
    ensures Still(s, QueueForDial(cfg, s.(toDial := s.toDial - {w}), w), x)
  {
    hide DropDone, Store, DialWaitOf, Still;
    var u := s.(toDial := s.toDial - {w});
    var t := QueueForDial(cfg, u, w);
    assert CountOf(u, s.wants[w].key) == CountOf(s, s.wants[w].key);
    hide CountOf;
    if cfg.maxConnsPerHost > 0 && CountOf(s, s.wants[w].key) >= cfg.maxConnsPerHost {
      OnlyWaits(s, t, x);
    } else {
      DialAddedStill(s, t, w, x);
    }
  }

  // ----- Idle connections -----

  /** A connection that queueForIdleConn drops from its list is about to be cleaned up. */
  lemma TrimmedKeepsHeld(s: State, k: Key, stale: set<ConnID>, x: ConnID)
    requires IndexesAgree(s) && IsOpen(s, x) && Held(s, x)
    ensures Held(Trimmed(s, k, stale), x)
  {
    var t := Trimmed(s, k, stale);
    TrimmedLists(s, k, stale);
    var h :| Holds(s, h, x);
    hide Trim, Skipped, Store, IdleOf;
    if h == ByList && !Listed(t, x) {
      assert Holds(t, ByReaper, x);
    } else {
      hide Listed;
      assert Holds(t, h, x);
    }
  }

  lemma DeliveredKeepsHeld(s: State, k: Key, w: WantID, x: ConnID)
    requires IndexesAgree(s) && IdleOf(s, k) != [] && IsWaiting(s.wants, w) && Held(s, x)
    ensures var kept := IdleOf(s, k);
            var c := kept[|kept| - 1];
            Held(SetStatus(s, w, HasConn(c)).(idle := Store(s.idle, k, kept[..|kept| - 1]), lru := Without(s.lru, c), toDial := s.toDial - {w}), x)
  {
    var kept := IdleOf(s, k);
    var c := kept[|kept| - 1];
    assert c in kept && Distinct(kept);
    WithoutLast(kept);
    var u := RemoveIdle(s, c);
    var t := SetStatus(u, w, HasConn(c)).(toDial := s.toDial - {w});
    assert t == SetStatus(s, w, HasConn(c)).(idle := Store(s.idle, k, kept[..|kept| - 1]), lru := Without(s.lru, c), toDial := s.toDial - {w});
    hide Without, Store, IdleOf, RemoveIdle, SetStatus, Distinct;
    if x == c {
      GivenIsHeld(u, w, c, t.toDial);
    } else {
      RemoveStill(s, c, x);
      StillHeld(s, u, x);
      GivenToAnother(u, w, c, t.toDial, x);
    }
  }

  lemma GivenIsHeld(s: State, w: WantID, c: ConnID, toDial: set<WantID>)
    requires w in s.wants
    ensures Held(SetStatus(s, w, HasConn(c)).(toDial := toDial), c)
  {
    assert Holds(SetStatus(s, w, HasConn(c)).(toDial := toDial), ByWant(w), c);
  }

  lemma GivenToAnother(s: State, w: WantID, c: ConnID, toDial: set<WantID>, x: ConnID)
    requires IsWaiting(s.wants, w) && Held(s, x)
    ensures Held(SetStatus(s, w, HasConn(c)).(toDial := toDial), x)
  {
    var t := SetStatus(s, w, HasConn(c)).(toDial := toDial);
    var h :| Holds(s, h, x);
    assert Listed(t, x) == Listed(s, x);
    hide Listed;
    assert Holds(t, h, x);
  }

  lemma NewRequestStill(s: State, w: WantID, k: Key, x: ConnID)
    requires w !in s.wants
    ensures Still(s, s.(wants := s.wants[w := Want(k, Waiting)], toDial := s.toDial + {w}), x)
  {
    assert Listed(s.(wants := s.wants[w := Want(k, Waiting)], toDial := s.toDial + {w}), x) == Listed(s, x);
    hide Listed;
  }

  lemma GetConnKeepsHeld(cfg: Config, s: State, w: WantID, k: Key, stale: set<ConnID>, x: ConnID)
    requires Core(cfg, s) && w !in s.wants && IsOpen(s, x) && Held(s, x)
    ensures Held(AfterGetConn(cfg, s, w, k, stale), x)
  {
    hide Held, Still, IsWaiting;
    var s0 := s.(wants := s.wants[w := Want(k, Waiting)], toDial := s.toDial + {w});
    NewRequest(cfg, s, w, k);
    NewRequestStill(s, w, k, x);
    StillHeld(s, s0, x);
    if !cfg.disableKeepAlives {
      NotYetDue(cfg, s, w);
      GetConnShape(cfg, s, w, k, stale);
      TrimmedKeeps(cfg, s0, k, stale);
      IndexesOf(cfg, s0);
      TrimmedKeepsHeld(s0, k, stale, x);
      hide Core, Trimmed, AfterGetConn, DropDone, Store, Without, IdleOf, IdleWaitOf, Listed;
      IdleAnswered(cfg, Trimmed(s0, k, stale), k, w, x);
    }
  }

  lemma IdleAnswered(cfg: Config, s: State, k: Key, w: WantID, x: ConnID)
    requires Core(cfg, s) && IsWaiting(s.wants, w) && Held(s, x)
    ensures var kept := IdleOf(s, k);
            if kept != [] then
              Held(SetStatus(s, w, HasConn(kept[|kept| - 1])).(idle := Store(s.idle, k, kept[..|kept| - 1]),
                                                               lru := Without(s.lru, kept[|kept| - 1]), toDial := s.toDial - {w}), x)
            else Held(s.(idleWait := Store(s.idleWait, k, DropDone(s.wants, IdleWaitOf(s, k)) + [w])), x)
  {
    IndexesOf(cfg, s);
    hide Core, Held, DropDone, Store, Without, IdleOf, IdleWaitOf, IsWaiting;
    if IdleOf(s, k) != [] {
      DeliveredKeepsHeld(s, k, w, x);
    } else {
      var t := s.(idleWait := Store(s.idleWait, k, DropDone(s.wants, IdleWaitOf(s, k)) + [w]));
      OnlyWaits(s, t, x);
      StillHeld(s, t, x);
    }
  }

  lemma IndexesOf(cfg: Config, s: State)
    requires Core(cfg, s)
    ensures IndexesAgree(s) && DialOnce(s)
  {
  }

  lemma CheckedOnly(cfg: Config, s: State, c: ConnID, x: ConnID)
    requires ConnSide(cfg, s) && c in s.checked && Held(s, x)
    ensures x == c || Held(s.(checked := s.checked - {c}), x)
  {
    var t := s.(checked := s.checked - {c});
    var h :| Holds(s, h, x);
    assert Listed(t, x) == Listed(s, x);
    hide Listed;
    assert x == c || Holds(t, h, x);
  }

  lemma AddedKeepsHeld(s: State, c: ConnID, k: Key, x: ConnID)
    requires c in s.conns && s.conns[c].key == k && c !in s.lru && IndexesAgree(s)
    requires x == c || Held(s, x)
    ensures Held(Listing(s, c), x)
  {
    var t := Listing(s, c);
    AddedLists(s, t, c);
    assert t == s.(idle := t.idle, lru := t.lru);
    hide Listed, IdleOf, Listing;
    if x == c {
      assert Holds(t, ByList, x);
    } else {
      var h :| Holds(s, h, x);
      assert Holds(t, h, x);
    }
  }

  lemma EvictKeepsHeld(cfg: Config, s: State, x: ConnID)
    requires Core(cfg, s) && s.lru != [] && s.lru[0] in s.conns && Held(s, x) && x != s.lru[0]
    ensures Held(Evict(cfg, s), x)
  {
    LruFacts(cfg, s);
    IndexesOf(cfg, s);
    RemoveKeeps(cfg, s, s.lru[0]);
    IndexesOf(cfg, RemoveIdle(s, s.lru[0]));
    RemoveConns(s, s.lru[0]);
    EvictionOrder(cfg, s);
    RemoveStill(s, s.lru[0], x);
    hide Core, CloseConn, RemoveIdle, Holds, Evict;
    StillHeld(s, RemoveIdle(s, s.lru[0]), x);
    CloseStill(cfg, RemoveIdle(s, s.lru[0]), s.lru[0], x);
    StillHeld(RemoveIdle(s, s.lru[0]), CloseConn(cfg, RemoveIdle(s, s.lru[0]), s.lru[0]), x);
  }

  lemma EvictedIsClosed(cfg: Config, s: State)
    requires s.lru != [] && s.lru[0] in s.conns
    ensures !IsOpen(Evict(cfg, s), s.lru[0])
  {
    hide Dec, Without, Store;
  }

  /** tryPutIdleConn and what follows it: the connection is delivered, listed or sent to be closed. */
  lemma PutIdleKeepsHeld(cfg: Config, s: State, c: ConnID, x: ConnID)
    requires Core(cfg, s) && c in s.checked && c in s.conns && Held(s, x) && IsOpen(AfterPutIdle(cfg, s, c), x)
    ensures Held(AfterPutIdle(cfg, s, c), x)
  {
    hide Held, Holds, DropDone, StoreIdle, Without, Distinct, Counted, WantSide, ConnSide, Listed, AfterPutIdle;
    var s1 := s.(checked := s.checked - {c});
    var k := s.conns[c].key;
    CheckedIsFree(cfg, s, c);
    CheckedOnly(cfg, s, c, x);
    ReadyForList(cfg, s, c);
    LetGo(cfg, s, s1);
    WaitPopped(cfg, s1, k);
    assert IdleWaitOf(s1, k) == IdleWaitOf(s, k) && IdleOf(s1, k) == IdleOf(s, k);
    var q := DropDone(s1.wants, IdleWaitOf(s1, k));
    var s2 := s1.(idleWait := Store(s1.idleWait, k, if q == [] then [] else q[1..]));
    PutIdleShape(cfg, s, c, s2);
    IdleWaitStored(s1, s2, k, if q == [] then [] else q[1..]);
    hide Store, IdleWaitOf, IdleOf;
    if x != c {
      OnlyWaits(s1, s2, x);
      StillHeld(s1, s2, x);
    }
    if q != [] {
      PutDelivered(s2, c, q[0], x);
    } else if s1.closeIdle || |IdleOf(s2, k)| >= cfg.MaxIdlePerHost() {
      PutRefused(s2, c, x);
    } else {
      PutStored(cfg, s1, s2, c, k, x);
    }
  }

  lemma PutDelivered(s: State, c: ConnID, w: WantID, x: ConnID)
    requires IsWaiting(s.wants, w) && (x == c || Held(s, x))
    ensures Held(SetStatus(s, w, HasConn(c)), x)
  {
    var t := SetStatus(s, w, HasConn(c));
    assert Listed(t, x) == Listed(s, x);
    hide Listed;
    if x == c {
      assert Holds(t, ByWant(w), x);
    } else {
      var h :| Holds(s, h, x);
      assert Holds(t, h, x);
    }
  }

  lemma PutRefused(s: State, c: ConnID, x: ConnID)
    requires x == c || Held(s, x)
    ensures Held(s.(closing := s.closing + {c}), x)
  {
    var t := s.(closing := s.closing + {c});
    assert Listed(t, x) == Listed(s, x);
    hide Listed;
    if x == c {
      assert Holds(t, ByClose, x);
    } else {
      var h :| Holds(s, h, x);
      assert Holds(t, h, x);
    }
  }

  lemma PutStored(cfg: Config, s1: State, s2: State, c: ConnID, k: Key, x: ConnID)
    requires Core(cfg, s2) && c in s2.conns && s2.conns[c].key == k && c !in s2.lru && |IdleOf(s2, k)| < cfg.MaxIdlePerHost()
    requires s2 == s1.(idleWait := s2.idleWait) && IdleWaitOf(s2, k) == []
    requires forall g :: !Holds(s1, g, c)
    requires x == c || Held(s2, x)
    requires IsOpen(StoreIdle(cfg, s2, c), x)
    ensures Held(StoreIdle(cfg, s2, c), x)
  {
    hide Core, Held, Holds, Evict, Distinct, IdleOf, IdleWaitOf, IsOpen, Listing;
    var s3 := Listing(s2, c);
    IndexesOf(cfg, s2);
    StillFree(s1, s2, c);
    AddedKeeps(cfg, s2, s3, c, k);
    AddedKeepsHeld(s2, c, k, x);
    EvictKeeps(cfg, s3);
    EvictedIsClosed(cfg, s3);
    if x != s3.lru[0] {
      EvictKeepsHeld(cfg, s3, x);
    }
  }

  lemma ClosedAway(cfg: Config, s: State, c: ConnID, x: ConnID)
    requires Core(cfg, s) && c in s.closing && c in s.conns && Held(s, x) && x != c
    ensures Held(CloseConn(cfg, s.(closing := s.closing - {c}), c), x)
  {
    var u := s.(closing := s.closing - {c});
    LetGo(cfg, s, u);
    IndexesOf(cfg, u);
    assert Held(u, x) by {
      var h :| Holds(s, h, x);
      assert Listed(u, x) == Listed(s, x);
      hide Listed, Core;
      assert Holds(u, h, x);
    }
    CloseStill(cfg, u, c, x);
    hide Core, CloseConn, Held, Holds;
    StillHeld(u, CloseConn(cfg, u, c), x);
  }

  lemma ReapKeepsHeld(cfg: Config, s: State, c: ConnID, x: ConnID)
    requires Core(cfg, s) && c in s.conns && Held(s, x)
    requires IsOpen(Reap(cfg, s.(reaping := s.reaping - {c}), c), x)
    ensures Held(Reap(cfg, s.(reaping := s.reaping - {c}), c), x)
  {
    var u := s.(reaping := s.reaping - {c});
    ReapCloses(cfg, u, c);
    hide Core, Reap, Held;
    if c !in s.lru || x != c {
      ReapOthers(cfg, s, c, x);
    }
  }

  lemma ReapCloses(cfg: Config, s: State, c: ConnID)
    requires c in s.conns
    ensures c in s.lru ==> !IsOpen(Reap(cfg, s, c), c)
  {
    hide Dec, Without, Store;
  }

  lemma ReapOthers(cfg: Config, s: State, c: ConnID, x: ConnID)
    requires Core(cfg, s) && c in s.conns && Held(s, x) && !(c in s.lru && x == c)
    ensures Held(Reap(cfg, s.(reaping := s.reaping - {c}), c), x)
  {
    var u := s.(reaping := s.reaping - {c});
    IndexesOf(cfg, s);
    assert Held(u, x) by {
      var h :| Holds(s, h, x);
      assert Listed(u, x) == Listed(s, x);
      hide Listed, Core;
      assert Holds(u, h, x);
    }
    if c in s.lru {
      RemoveKeeps(cfg, s, c);
      RemovedIsOut(cfg, s, c);
      ForgetReaper(cfg, RemoveIdle(s, c), c);
      assert RemoveIdle(u, c) == RemoveIdle(s, c).(reaping := s.reaping - {c}) by {
        hide Core, Held, Without;
      }
      IndexesOf(cfg, RemoveIdle(u, c));
      RemoveStillSameLists(s, u, c, x);
      CloseStill(cfg, RemoveIdle(u, c), c, x);
      hide Core, RemoveIdle, CloseConn, Held, Holds;
      StillHeld(u, RemoveIdle(u, c), x);
      StillHeld(RemoveIdle(u, c), CloseConn(cfg, RemoveIdle(u, c), c), x);
    }
  }

  lemma RemoveStillSameLists(s: State, u: State, c: ConnID, x: ConnID)
    requires IndexesAgree(s) && c in s.conns && x != c && u == s.(reaping := u.reaping)
    ensures Still(u, RemoveIdle(u, c), x)
  {
    var t := RemoveIdle(s, c);
    RemovedIndexes(s, t, c);
    var v := RemoveIdle(u, c);
    assert IdleOf(u, s.conns[c].key) == IdleOf(s, s.conns[c].key);
    assert v == t.(reaping := u.reaping);
    assert Listed(v, x) == Listed(t, x) && Listed(u, x) == Listed(s, x) && Listed(t, x) == Listed(s, x);
    hide Listed, IdleOf, Without;
  }

  lemma CloseIdleKeepsHeld(s: State, x: ConnID)
    requires IndexesAgree(s) && Held(s, x) && !Holds(s, ByReaper, x)
    ensures Held(CloseIdle(s), x)
  {
    var t := CloseIdle(s);
    var h :| Holds(s, h, x);
    if h == ByList {
      var k := s.conns[x].key;
      var i :| 0 <= i < |s.idle[k]| && s.idle[k][i] == x;
      assert x in AllListed(s.idle);
      assert Holds(t, ByClose, x);
    } else {
      assert Holds(t, h, x);
    }
  }

  /** After CloseIdleConnections, a connection that was only awaiting its clean-up has no holder any more. */
  lemma CloseIdleLoses(cfg: Config, s: State, x: ConnID)
    requires Core(cfg, s) && Holds(s, ByReaper, x)
    ensures !Held(CloseIdle(s), x)
  {
    var t := CloseIdle(s);
    assert forall h :: Holds(s, h, x) ==> h == ByReaper;
    assert !Listed(s, x) && !Listed(t, x);
    forall y | y in AllListed(s.idle)
      ensures Listed(s, y)
    {
      var k, i :| k in s.idle && 0 <= i < |s.idle[k]| && s.idle[k][i] == y;
      assert y in IdleOf(s, k);
    }
    hide Listed, AllListed, IdleOf;
    assert forall h :: Holds(t, h, x) ==> Holds(s, h, x) && h != ByReaper;
  }

  lemma ClosedStaysClosed(cfg: Config, s: State, c: ConnID)
    requires c in s.conns
    ensures !IsOpen(CloseConn(cfg, s, c), c)
  {
    hide Dec;
  }

  /** One step keeps a holder for every open connection, but for CloseIdleConnections and those awaiting clean-up. */
  lemma StepKeepsHeld(cfg: Config, s: State, step: Step, x: ConnID)
    requires Core(cfg, s) && Enabled(cfg, s, step) && IsOpen(s, x) && Held(s, x) && IsOpen(Apply(cfg, s, step), x)
    requires step.CloseIdleConns? ==> !Holds(s, ByReaper, x)
    ensures Held(Apply(cfg, s, step), x)
  {
    hide Held, Holds;
    IndexesOf(cfg, s);
    match step
    case GetConn(w, k, stale) =>
      GetConnKeepsHeld(cfg, s, w, k, stale, x);
      hide Core, AfterGetConn;
    case QueueDial(w) =>
      NotDialled(cfg, s, w);
      QueueDialStill(cfg, s, w, x);
      hide Core, QueueForDial, Still;
      StillHeld(s, Apply(cfg, s, step), x);
    case DialBegin(w) =>
      DialBeginStill(cfg, s, w, x);
      hide Core, AfterDialBegin, Still;
      StillHeld(s, Apply(cfg, s, step), x);
    case DialConnected(w, c) =>
      ConnectedHeld(s, w, c, x);
      hide Core;
    case DialFailed(w) =>
      DialFailedStill(s, w, x);
      hide Core, AfterDialFailed, Still;
      StillHeld(s, Apply(cfg, s, step), x);
    case DialDeliver(w) =>
      DeliverKeepsHeld(s, w, x);
      hide Core, AfterDialDeliver;
    case DialGiveBack(w) =>
      GiveBackStill(cfg, s, w, x);
      hide Core, Dec, Still;
      StillHeld(s, Apply(cfg, s, step), x);
    case Receive(w) =>
      ReceiveKeepsHeld(s, w, x);
      hide Core, AfterReceive;
    case Cancel(w) =>
      CancelKeepsHeld(s, w, x);
      hide Core, AfterCancel;
    case EndUse(c, reusable) =>
      EndUseKeepsHeld(s, c, reusable, x);
      hide Core, AfterEndUse;
    case PutCheck(c) =>
      PutCheckKeepsHeld(cfg, s, c, x);
      hide Core, AfterPutCheck;
    case PutIdle(c) =>
      PutIdleKeepsHeld(cfg, s, c, x);
      hide Core, AfterPutIdle;
    case FinishClose(c) =>
      ClosedStaysClosed(cfg, s.(closing := s.closing - {c}), c);
      ClosedAway(cfg, s, c, x);
      hide Core, CloseConn;
    case CloseAny(c) =>
      CloseStill(cfg, s, c, x);
      hide Core, CloseConn, Still;
      StillHeld(s, Apply(cfg, s, step), x);
    case DropClosed(c) =>
      RemoveConns(s, c);
      RemoveStill(s, c, x);
      hide Core, RemoveIdle, Still;
      StillHeld(s, Apply(cfg, s, step), x);
    case ReapIdle(c) =>
      ReapKeepsHeld(cfg, s, c, x);
      hide Core, Reap;
    case CloseIdleConns =>
      CloseIdleKeepsHeld(s, x);
      hide Core, CloseIdle;
  }

  // ----- Whole runs -----

  /** Every CloseIdleConnections of the run comes when no open connection awaits only its clean-up. */
  ghost predicate Careful(cfg: Config, steps: seq<Step>)
    requires Allowed(cfg, steps)
  {
    forall n :: 0 <= n < |steps| && steps[n].CloseIdleConns? ==> AllowedTo(cfg, steps, n) && NoneAwaitingCleanUp(Run(cfg, steps[..n]))
  }

  ghost predicate NeverLoses(cfg: Config, steps: seq<Step>)
    requires Allowed(cfg, steps)
  {
    forall n :: 0 <= n <= |steps| ==> AllowedTo(cfg, steps, n) && NoneLost(Run(cfg, steps[..n]))
  }

  ghost predicate AllowedTo(cfg: Config, steps: seq<Step>, n: nat)
    requires n <= |steps|
  {
    Allowed(cfg, steps[..n])
  }

  lemma {:induction false} PrefixAllowed(cfg: Config, steps: seq<Step>, n: nat)
    requires Allowed(cfg, steps) && n <= |steps|
    ensures AllowedTo(cfg, steps, n)
    ensures n < |steps| ==> Enabled(cfg, Run(cfg, steps[..n]), steps[n])
    ensures n < |steps| ==> Allowed(cfg, steps[..n + 1]) && Run(cfg, steps[..n + 1]) == Apply(cfg, Run(cfg, steps[..n]), steps[n])
    decreases |steps|
  {
    hide Enabled, Apply;
    if n == |steps| {
      assert steps[..n] == steps;
    } else {
      var front := steps[..|steps| - 1];
      if n < |steps| - 1 {
        PrefixAllowed(cfg, front, n);
        assert front[..n] == steps[..n] && front[..n + 1] == steps[..n + 1];
      } else {
        assert steps[..n + 1] == steps;
        assert front == steps[..n];
      }
    }
  }

  /** What a step does to an open connection decides whether it is lost; a new connection is held by its dial. */
  lemma StepLosesNone(cfg: Config, s: State, step: Step)
    requires Core(cfg, s) && Enabled(cfg, s, step) && NoneLost(s)
    requires step.CloseIdleConns? ==> NoneAwaitingCleanUp(s)
    ensures NoneLost(Apply(cfg, s, step))
  {
    forall x | IsOpen(Apply(cfg, s, step), x)
      ensures Held(Apply(cfg, s, step), x)
    {
      if x in s.conns {
        OpenBefore(cfg, s, step, x);
        StepKeepsHeld(cfg, s, step, x);
      } else {
        NewIsDialled(cfg, s, step, x);
      }
      hide Core, Apply, Enabled, Held, Holds;
    }
  }

  lemma OpenBefore(cfg: Config, s: State, step: Step, x: ConnID)
    requires Core(cfg, s) && Enabled(cfg, s, step) && x in s.conns && IsOpen(Apply(cfg, s, step), x)
    ensures IsOpen(s, x)
  {
    ConnsAfter(cfg, s, step);
    hide Core, Apply, Enabled;
  }

  lemma NewIsDialled(cfg: Config, s: State, step: Step, x: ConnID)
    requires Core(cfg, s) && Enabled(cfg, s, step) && x !in s.conns && x in Apply(cfg, s, step).conns
    ensures Held(Apply(cfg, s, step), x)
  {
    ConnsAfter(cfg, s, step);
    assert step.DialConnected? && step.c == x;
    assert Holds(Apply(cfg, s, step), ByDial(step.w), x);
    hide Core;
  }

  /** Steps only add a dialled connection, or close one; nothing reopens. */
  lemma ConnsAfter(cfg: Config, s: State, step: Step)
    requires Enabled(cfg, s, step)
    ensures var t := Apply(cfg, s, step);
            && (forall x :: x in t.conns && x !in s.conns ==> step.DialConnected? && step.c == x)
            && (forall x :: x in s.conns ==> x in t.conns && t.conns[x].key == s.conns[x].key && (s.conns[x].closed ==> t.conns[x].closed))
  {
    hide Dec, QueueForDial, AfterGetConn, AfterPutIdle, RemoveIdle, IsWaiting;
    hide AfterDialBegin, AfterDialFailed, AfterDialDeliver, AfterReceive, AfterCancel, AfterPutCheck, AfterEndUse;
    match step
    case GetConn(_, _, _) =>
    case QueueDial(_) =>
    case DialBegin(_) =>
    case DialConnected(_, _) =>
    case DialFailed(_) =>
    case DialDeliver(_) =>
    case DialGiveBack(_) =>
    case Receive(_) =>
    case Cancel(_) =>
    case EndUse(_, _) =>
    case PutCheck(_) =>
    case PutIdle(_) =>
    case FinishClose(_) => hide CloseConn;
    case CloseAny(_) => hide CloseConn;
    case DropClosed(_) =>
    case ReapIdle(_) => hide CloseConn;
    case CloseIdleConns =>
  }

  /** A run loses no connection exactly when it is careful. The other runs call CloseIdleConnections between the
      moment a request skips a connection that was idle for too long and that connection's clean-up: the LRU is
      emptied, the clean-up then takes the connection for one in use, and it stays open, and counted, until the
      server hangs up. */
  lemma LosesNothingExactlyWhenCareful(cfg: Config, steps: seq<Step>)
    requires Allowed(cfg, steps)
    ensures NeverLoses(cfg, steps) <==> Careful(cfg, steps)
  {
    hide Core, Apply, Enabled, NoneLost, NoneAwaitingCleanUp, Run, Allowed;
    if Careful(cfg, steps) {
      CarefulLosesNothing(cfg, steps);
    }
    if NeverLoses(cfg, steps) {
      forall n | 0 <= n < |steps| && steps[n].CloseIdleConns?
        ensures AllowedTo(cfg, steps, n) && NoneAwaitingCleanUp(Run(cfg, steps[..n]))
      {
        PrefixAllowed(cfg, steps, n);
        RunKeepsInvariant(cfg, steps[..n]);
        assert AllowedTo(cfg, steps, n + 1) && NoneLost(Run(cfg, steps[..n + 1]));
        CloseIdleWasCareful(cfg, Run(cfg, steps[..n]));
      }
    }
  }

  lemma CloseIdleWasCareful(cfg: Config, s: State)
    requires Core(cfg, s) && NoneLost(Apply(cfg, s, CloseIdleConns))
    ensures NoneAwaitingCleanUp(s)
  {
    forall x | IsOpen(s, x)
      ensures !Holds(s, ByReaper, x)
    {
      assert IsOpen(CloseIdle(s), x);
      hide Core, Held, Holds;
      if Holds(s, ByReaper, x) {
        CloseIdleLoses(cfg, s, x);
      }
    }
  }

  lemma {:induction false} CarefulLosesNothing(cfg: Config, steps: seq<Step>)
    requires Allowed(cfg, steps) && Careful(cfg, steps)
    ensures NeverLoses(cfg, steps)
  {
    hide Core, Apply, Enabled, NoneLost, NoneAwaitingCleanUp;
    var n := 0;
    PrefixAllowed(cfg, steps, 0);
    assert NoneLost(Run(cfg, steps[..0])) by {
      assert Run(cfg, steps[..0]) == EMPTY;
      assert forall x :: !IsOpen(EMPTY, x);
      EmptyLosesNothing();
    }
    while n < |steps|
      invariant n <= |steps|
      invariant forall i :: 0 <= i <= n ==> AllowedTo(cfg, steps, i) && NoneLost(Run(cfg, steps[..i]))
    {
      PrefixAllowed(cfg, steps, n);
      PrefixAllowed(cfg, steps, n + 1);
      RunKeepsInvariant(cfg, steps[..n]);
      StepLosesNone(cfg, Run(cfg, steps[..n]), steps[n]);
      n := n + 1;
    }
  }

  lemma EmptyLosesNothing()
    ensures NoneLost(EMPTY)
  {
    assert forall x :: !IsOpen(EMPTY, x);
  }

  // ----- The run that loses a connection -----

  const STALE_CONFIG := Config(1, 0, 0, false, 90)

  /** Connection 7, dialled for request 0 and used by it, sits in the idle list of host 0. */
  const USED_ONCE := EMPTY.(wants := map[0 := Want(0, Finished)], conns := map[7 := Conn(0, false)], idle := map[0 := [7]],
                            lru := [7], count := map[0 := 1])

  /** Request 1 skipped it and waits for a slot, and CloseIdleConnections came before the clean-up. */
  const STRANDED := USED_ONCE.(wants := map[0 := Want(0, Finished), 1 := Want(0, Waiting)], idle := map[], lru := [],
                               closeIdle := true, idleWait := map[0 := [1]], dialWait := map[0 := [1]], reaping := {7})

  lemma Extend(cfg: Config, steps: seq<Step>, n: nat, s: State, t: State)
    requires n < |steps| && Allowed(cfg, steps[..n]) && Run(cfg, steps[..n]) == s
    requires Enabled(cfg, s, steps[n]) && Apply(cfg, s, steps[n]) == t
    ensures Allowed(cfg, steps[..n + 1]) && Run(cfg, steps[..n + 1]) == t
  {
    hide Enabled, Apply;
    assert steps[..n + 1][..n] == steps[..n];
  }

  const REQUESTED := EMPTY.(wants := map[0 := Want(0, Waiting)], idleWait := map[0 := [0]], toDial := {0})

  const QUEUED := REQUESTED.(toDial := {}, dials := map[0 := Started], count := map[0 := 1])

  const RETURNED := QUEUED.(dials := map[], conns := map[7 := Conn(0, false)], wants := map[0 := Want(0, Finished)], checked := {7})

  lemma FirstRequest()
    ensures AfterGetConn(STALE_CONFIG, EMPTY, 0, 0, {}) == REQUESTED
  {
    assert IdleOf(EMPTY, 0) == [] && Trim(EMPTY.conns, [], {}) == [];
    assert EMPTY.idle - {0} == map[];
    assert Skipped(EMPTY.conns, [], {}) == {};
    assert DropDone(map[0 := Want(0, Waiting)], []) + [0] == [0];
  }

  lemma FirstQueued()
    ensures QueueForDial(STALE_CONFIG, REQUESTED.(toDial := {}), 0) == QUEUED
  {
  }

  lemma FirstListed()
    ensures AfterPutIdle(STALE_CONFIG, RETURNED, 7) == USED_ONCE
  {
    var s := RETURNED.(checked := {});
    var wants := RETURNED.wants;
    assert DropDone(wants, [0]) == [] by {
      assert [0][1..] == [];
    }
    assert IdleWaitOf(s, 0) == [0];
    assert s.idleWait - {0} == map[];
    var s1 := s.(idleWait := map[]);
    assert Store(s.idleWait, 0, []) == map[];
    assert IdleOf(s1, 0) == [];
    assert Listing(s1, 7) == USED_ONCE by {
      assert [] + [7] == [7];
      assert map[][0 := [7]] == map[0 := [7]];
    }
    assert StoreIdle(STALE_CONFIG, s1, 7) == USED_ONCE;
  }

  const STALE_RUN := [GetConn(0, 0, {}), QueueDial(0), DialBegin(0), DialConnected(0, 7), DialDeliver(0), Receive(0),
                      EndUse(7, true), PutCheck(7), PutIdle(7), GetConn(1, 0, {7}), CloseIdleConns, QueueDial(1)]

  ghost predicate Reaches(n: nat, s: State)
    requires n <= |STALE_RUN|
  {
    Allowed(STALE_CONFIG, STALE_RUN[..n]) && Run(STALE_CONFIG, STALE_RUN[..n]) == s
  }

  const DELIVERED := QUEUED.(dials := map[], conns := map[7 := Conn(0, false)], wants := map[0 := Want(0, HasConn(7))])

  lemma RunIsQueued()
    ensures Reaches(2, QUEUED)
  {
    var c := STALE_CONFIG;
    FirstRequest();
    assert REQUESTED.toDial - {0} == {};
    FirstQueued();
    hide AfterGetConn, QueueForDial;
    Extend(c, STALE_RUN, 0, EMPTY, REQUESTED);
    Extend(c, STALE_RUN, 1, REQUESTED, QUEUED);
  }

  lemma RunIsDelivered()
    ensures Reaches(5, DELIVERED)
  {
    var c := STALE_CONFIG;
    RunIsQueued();
    hide Allowed, Run;
    var s3 := QUEUED.(dials := map[0 := Dialling]);
    Extend(c, STALE_RUN, 2, QUEUED, s3);
    var s4 := QUEUED.(dials := map[0 := Connected(7)], conns := map[7 := Conn(0, false)]);
    Extend(c, STALE_RUN, 3, s3, s4);
    assert s4.dials - {0} == map[];
    Extend(c, STALE_RUN, 4, s4, DELIVERED);
  }

  lemma RunIsReturned()
    ensures Reaches(8, RETURNED)
  {
    var c := STALE_CONFIG;
    RunIsDelivered();
    hide Allowed, Run;
    var s6 := DELIVERED.(wants := map[0 := Want(0, Finished)], inUse := {7});
    assert AfterReceive(DELIVERED, 0) == s6;
    Extend(c, STALE_RUN, 5, DELIVERED, s6);
    var s7 := s6.(inUse := {}, returning := {7});
    assert s6.inUse - {7} == {};
    Extend(c, STALE_RUN, 6, s6, s7);
    assert s7.returning - {7} == {};
    Extend(c, STALE_RUN, 7, s7, RETURNED);
  }

  /** Request 1 skips connection 7 and registers for the next idle one; its own dial is due. */
  const SKIPPED := USED_ONCE.(wants := map[0 := Want(0, Finished), 1 := Want(0, Waiting)], idle := map[],
                              idleWait := map[0 := [1]], reaping := {7}, toDial := {1})

  lemma SecondRequest()
    ensures AfterGetConn(STALE_CONFIG, USED_ONCE, 1, 0, {7}) == SKIPPED
  {
    assert [7][..0] == [];
    assert Trim(USED_ONCE.conns, [7], {7}) == [];
    assert Skipped(USED_ONCE.conns, [7], {7}) == {7};
    assert USED_ONCE.idle - {0} == map[];
    assert DropDone(SKIPPED.wants, []) + [1] == [1];
    assert USED_ONCE.wants[1 := Want(0, Waiting)] == SKIPPED.wants;
  }

  lemma SecondParked()
    ensures QueueForDial(STALE_CONFIG, CloseIdle(SKIPPED).(toDial := {}), 1) == STRANDED
  {
    assert AllListed(SKIPPED.idle) == {};
    assert DropDone(STRANDED.wants, []) + [1] == [1];
  }

  lemma RunIsListed()
    ensures Reaches(9, USED_ONCE)
  {
    RunIsReturned();
    FirstListed();
    hide Allowed, Run, AfterPutIdle;
    Extend(STALE_CONFIG, STALE_RUN, 8, RETURNED, USED_ONCE);
  }

  lemma RunIsSkipped()
    ensures Reaches(10, SKIPPED)
  {
    RunIsListed();
    SecondRequest();
    hide Allowed, Run, AfterGetConn;
    Extend(STALE_CONFIG, STALE_RUN, 9, USED_ONCE, SKIPPED);
  }

  lemma RunIsCleared()
    ensures Reaches(11, CloseIdle(SKIPPED))
  {
    RunIsSkipped();
    hide Allowed, Run, CloseIdle;
    Extend(STALE_CONFIG, STALE_RUN, 10, SKIPPED, CloseIdle(SKIPPED));
  }

  lemma RunIsStranded()
    ensures Reaches(12, STRANDED)
  {
    RunIsCleared();
    SecondParked();
    var s := CloseIdle(SKIPPED);
    assert s.toDial == {1} && 1 in s.wants && s.toDial - {1} == {};
    hide Allowed, Run, QueueForDial, CloseIdle;
    Extend(STALE_CONFIG, STALE_RUN, 11, s, STRANDED);
  }

  /** The loss is real: after this run connection 7 is open and nobody holds it, it takes the only slot of its host,
      and request 1 waits for that slot. */
  lemma ConnectionLostExample()
    ensures Allowed(STALE_CONFIG, STALE_RUN)
    ensures var s := Run(STALE_CONFIG, STALE_RUN);
            && IsOpen(s, 7) && !Held(s, 7)
            && CountOf(s, 0) == STALE_CONFIG.maxConnsPerHost
            && IsWaiting(s.wants, 1) && 1 in DialWaitOf(s, 0)
  {
    RunIsStranded();
    assert STALE_RUN[..12] == STALE_RUN;
    assert forall h :: !Holds(STRANDED, h, 7);
  }
}
