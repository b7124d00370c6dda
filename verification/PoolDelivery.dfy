/** The three sections of the connection pool that match requests with connections and slots: queueForDial,
    queueForIdleConn and tryPutIdleConn. */
module PoolDelivery {
  import opened Base
  import opened Pool
  import opened PoolInvariant
  import opened PoolSteps

  // ----- queueForDial -----

  lemma DialStarts(cfg: Config, s: State, t: State, w: WantID)
    requires WantSide(cfg, s) && w in s.toDial && w in s.wants
    requires t == s.(toDial := s.toDial - {w}, dials := s.dials[w := Started], count := t.count)
    requires forall j :: j != s.wants[w].key ==> CountOf(t, j) == CountOf(s, j)
    requires CountOf(t, s.wants[w].key) == CountOf(s, s.wants[w].key) || CountOf(s, s.wants[w].key) < cfg.maxConnsPerHost
    ensures WantSide(cfg, t)
  {
    SameIdleServed(s, t);
    assert forall j :: DialWaitOf(t, j) == DialWaitOf(s, j);
    hide IdleServed, DialWaitOf, CountOf, Distinct, IsWaiting;
  }

  lemma SameIdleServed(s: State, t: State)
    requires IdleServed(s) && t.wants == s.wants && t.idle == s.idle && t.idleWait == s.idleWait
    ensures IdleServed(t)
  {
    assert forall j :: IdleOf(t, j) == IdleOf(s, j);
    assert forall j :: IdleWaitOf(t, j) == IdleWaitOf(s, j);
    hide IdleOf, IdleWaitOf;
  }

  lemma ParkedQueue(s: State, t: State, w: WantID, k: Key)
    requires Distinct(DialWaitOf(s, k)) && w !in DialWaitOf(s, k)
    requires t.dialWait == Store(s.dialWait, k, DropDone(s.wants, DialWaitOf(s, k)) + [w])
    ensures forall j :: j != k ==> DialWaitOf(t, j) == DialWaitOf(s, j)
    ensures Distinct(DialWaitOf(t, k)) && w in DialWaitOf(t, k)
    ensures forall x :: x in DialWaitOf(t, k) ==> x == w || x in DialWaitOf(s, k)
    ensures forall x :: x in DialWaitOf(s, k) && IsWaiting(s.wants, x) ==> x in DialWaitOf(t, k)
  {
    var q := DropDone(s.wants, DialWaitOf(s, k));
    DropDoneMembers(s.wants, DialWaitOf(s, k));
    DialWaitStored(s, t, k, q + [w]);
    assert w !in q && Distinct(q + [w]);
    assert forall x :: x in q + [w] <==> x in q || x == w;
    hide DialWaitOf, Distinct, DropDone, Store, IsWaiting;
  }

  lemma DialParks(cfg: Config, s: State, t: State, w: WantID)
    requires DialServed(cfg, s) && DialOnce(s) && Pending(s) && w in s.toDial && w in s.wants && cfg.maxConnsPerHost > 0
    requires CountOf(s, s.wants[w].key) == cfg.maxConnsPerHost
    requires t == s.(toDial := s.toDial - {w},
                     dialWait := Store(s.dialWait, s.wants[w].key, DropDone(s.wants, DialWaitOf(s, s.wants[w].key)) + [w]))
    ensures DialServed(cfg, t) && DialOnce(t) && Pending(t)
  {
    assert forall j :: CountOf(t, j) == CountOf(s, j);
    hide CountOf, DialWaitOf, Distinct, DropDone, Store, IsWaiting;
    ParkedQueue(s, t, w, s.wants[w].key);
  }

  lemma QueueConnSide(cfg: Config, s: State, t: State)
    requires ConnSide(cfg, s)
    requires t == s.(toDial := t.toDial, dials := t.dials, dialWait := t.dialWait, count := t.count)
    requires t.toDial <= t.wants.Keys && t.dials.Keys <= t.wants.Keys
    requires forall w :: w in t.dials && t.dials[w].Connected? ==> w in s.dials && s.dials[w] == t.dials[w]
    ensures ConnSide(cfg, t)
  {
    assert forall h, c :: Holds(t, h, c) ==> Holds(s, h, c) by {
      assert forall x :: Listed(t, x) <==> Listed(s, x);
      hide Listed, IdleOf;
    }
    SameHolders(cfg, s, t);
  }

  lemma QueueDialKeeps(cfg: Config, s: State, w: WantID)
    requires Core(cfg, s) && w in s.toDial && w in s.wants
    ensures Core(cfg, QueueForDial(cfg, s.(toDial := s.toDial - {w}), w))
  {
    var s0 := s.(toDial := s.toDial - {w});
    var t := QueueForDial(cfg, s0, w);
    var k := s.wants[w].key;
    NotDialled(cfg, s, w);
    if cfg.maxConnsPerHost > 0 {
      CountAtMost(cfg, s, k);
    }
    hide Core, DropDone;
    assert CountOf(s0, k) == CountOf(s, k) && DialWaitOf(s0, k) == DialWaitOf(s, k);
    if cfg.maxConnsPerHost <= 0 {
      Uncounted(cfg, s, t, w);
    } else if CountOf(s, k) < cfg.maxConnsPerHost {
      CountStored(s, t, k, CountOf(s, k) + 1);
      hide CountOf;
      SlotTaken(cfg, s, t, w);
    } else {
      hide CountOf;
      Parked(cfg, s, t, w);
    }
  }

  lemma CountAtMost(cfg: Config, s: State, k: Key)
    requires Core(cfg, s) && cfg.maxConnsPerHost > 0
    ensures CountOf(s, k) <= cfg.maxConnsPerHost
  {
  }

  lemma Uncounted(cfg: Config, s: State, t: State, w: WantID)
    requires Core(cfg, s) && w in s.toDial && w in s.wants && cfg.maxConnsPerHost <= 0
    requires t == s.(toDial := s.toDial - {w}, dials := s.dials[w := Started])
    ensures Core(cfg, t)
  {
    KnownDials(cfg, s);
    hide ConnSide, WantSide;
    QueueConnSide(cfg, s, t);
    assert forall j :: CountOf(t, j) == CountOf(s, j);
    DialStarts(cfg, s, t, w);
  }

  lemma ParkedWantSide(cfg: Config, s: State, t: State, w: WantID)
    requires WantSide(cfg, s) && w in s.toDial && w in s.wants && cfg.maxConnsPerHost > 0
    requires CountOf(s, s.wants[w].key) == cfg.maxConnsPerHost
    requires t == s.(toDial := s.toDial - {w},
                     dialWait := Store(s.dialWait, s.wants[w].key, DropDone(s.wants, DialWaitOf(s, s.wants[w].key)) + [w]))
    ensures WantSide(cfg, t)
  {
    hide IdleServed, DialServed, DialOnce, Pending, DropDone, Store;
    DialParks(cfg, s, t, w);
    SameIdleServed(s, t);
  }

  lemma Parked(cfg: Config, s: State, t: State, w: WantID)
    requires Core(cfg, s) && w in s.toDial && w in s.wants && cfg.maxConnsPerHost > 0
    requires CountOf(s, s.wants[w].key) == cfg.maxConnsPerHost
    requires t == s.(toDial := s.toDial - {w},
                     dialWait := Store(s.dialWait, s.wants[w].key, DropDone(s.wants, DialWaitOf(s, s.wants[w].key)) + [w]))
    ensures Core(cfg, t)
  {
    KnownDials(cfg, s);
    hide CountOf, ConnSide, WantSide, DropDone, Store;
    QueueConnSide(cfg, s, t);
    assert WantSide(cfg, t) by {
      ParkedWantSide(cfg, s, t, w);
    }
    forall j
      ensures Slots(s, j) == Slots(t, j)
    {
    }
    SameCounts(cfg, s, t);
  }

  lemma SlotTaken(cfg: Config, s: State, t: State, w: WantID)
    requires Core(cfg, s) && w in s.toDial && w in s.wants && w !in s.dials && cfg.maxConnsPerHost > 0
    requires t == s.(toDial := s.toDial - {w}, dials := s.dials[w := Started], count := t.count)
    requires CountOf(s, s.wants[w].key) < cfg.maxConnsPerHost
    requires forall j :: CountOf(t, j) == if j == s.wants[w].key then CountOf(s, j) + 1 else CountOf(s, j)
    ensures Core(cfg, t)
  {
    KnownDials(cfg, s);
    hide ConnSide, WantSide, CountOf, Slots;
    QueueConnSide(cfg, s, t);
    DialStarts(cfg, s, t, w);
    forall j
      ensures Slots(t, j) == Slots(s, j) + (if j == s.wants[w].key then 1 else 0)
    {
      AddedDialSlots(s, t, w, j);
    }
  }

  lemma NotDialled(cfg: Config, s: State, w: WantID)
    requires WantSide(cfg, s) && w in s.toDial
    ensures w !in s.dials
  {
  }

  // ----- queueForIdleConn -----

  /** A request begins, its dial due. */
  lemma NewRequest(cfg: Config, s: State, w: WantID, k: Key)
    requires Core(cfg, s) && w !in s.wants
    ensures Core(cfg, s.(wants := s.wants[w := Want(k, Waiting)], toDial := s.toDial + {w}))
  {
    var t := s.(wants := s.wants[w := Want(k, Waiting)], toDial := s.toDial + {w});
    KnownDials(cfg, s);
    NewRequestWantSide(cfg, s, t, w, k);
    hide WantSide;
    assert forall h, c :: Holds(t, h, c) ==> Holds(s, h, c) by {
      assert forall x :: Listed(t, x) <==> Listed(s, x);
      hide Listed, IdleOf, ConnSide;
    }
    hide ConnSide, Holds;
    SameHolders(cfg, s, t);
    forall j
      ensures Slots(s, j) == Slots(t, j)
    {
      assert DialSlots(t.wants, t.dials, j) == DialSlots(s.wants, s.dials, j);
    }
    SameCounts(cfg, s, t);
  }

  lemma NewRequestWantSide(cfg: Config, s: State, t: State, w: WantID, k: Key)
    requires WantSide(cfg, s) && w !in s.wants && s.dials.Keys <= s.wants.Keys
    requires t == s.(wants := s.wants[w := Want(k, Waiting)], toDial := s.toDial + {w})
    ensures WantSide(cfg, t)
  {
    assert w !in s.dials.Keys;
    assert forall j :: w !in DialWaitOf(s, j) && w !in IdleWaitOf(s, j);
    assert forall x :: x != w ==> IsWaiting(t.wants, x) == IsWaiting(s.wants, x);
    NewRequestQueues(cfg, s, t, w, k);
    assert forall j :: DialWaitOf(t, j) == DialWaitOf(s, j);
    hide DialWaitOf, Distinct, IsWaiting, IdleServed, DialServed;
  }

  lemma NewRequestQueues(cfg: Config, s: State, t: State, w: WantID, k: Key)
    requires IdleServed(s) && DialServed(cfg, s) && w !in s.wants
    requires t == s.(wants := s.wants[w := Want(k, Waiting)], toDial := s.toDial + {w})
    ensures IdleServed(t) && DialServed(cfg, t)
  {
    assert forall x :: x != w ==> IsWaiting(t.wants, x) == IsWaiting(s.wants, x);
    hide IsWaiting;
    assert IdleServed(t) by {
      assert forall j :: IdleOf(t, j) == IdleOf(s, j);
      assert forall j :: IdleWaitOf(t, j) == IdleWaitOf(s, j);
      hide IdleOf, IdleWaitOf, DialServed;
    }
    assert DialServed(cfg, t) by {
      assert forall j :: DialWaitOf(t, j) == DialWaitOf(s, j);
      assert forall j :: CountOf(t, j) == CountOf(s, j);
      hide DialWaitOf, CountOf, IdleServed;
    }
  }

  /** The idle list of k cut back to its usable part. */
  function Trimmed(s: State, k: Key, stale: set<ConnID>): State {
    s.(closeIdle := false, reaping := s.reaping + Skipped(s.conns, IdleOf(s, k), stale),
       idle := Store(s.idle, k, Trim(s.conns, IdleOf(s, k), stale)))
  }

  lemma TrimmedLists(s: State, k: Key, stale: set<ConnID>)
    requires IndexesAgree(s)
    ensures var t := Trimmed(s, k, stale);
            && (forall j :: IdleOf(t, j) <= IdleOf(s, j) && Distinct(IdleOf(t, j)))
            && (forall x :: Listed(t, x) ==> Listed(s, x))
            && (forall x :: Listed(s, x) && !Listed(t, x) ==> s.conns[x].closed || x in t.reaping)
            && (forall x :: x in t.reaping ==> x in s.reaping || (Listed(s, x) && !Listed(t, x)))
  {
    var t := Trimmed(s, k, stale);
    var list := IdleOf(s, k);
    var kept := Trim(s.conns, list, stale);
    TrimFacts(s.conns, list, stale);
    IdleStored(s, t, k, kept);
    hide Trim, IdleOf, Store;
    assert IdleOf(t, k) == kept && IdleOf(s, k) == list;
    forall x | Listed(s, x) && !Listed(t, x)
      ensures s.conns[x].closed || x in t.reaping
    {
      DroppedFromList(s, k, stale, x);
    }
    forall x | x in Skipped(s.conns, list, stale)
      ensures Listed(s, x) && !Listed(t, x)
    {
      SkippedIsDropped(s, k, stale, x);
    }
  }

  lemma DroppedFromList(s: State, k: Key, stale: set<ConnID>, x: ConnID)
    requires IndexesAgree(s) && Listed(s, x) && !Listed(Trimmed(s, k, stale), x)
    ensures s.conns[x].closed || x in Trimmed(s, k, stale).reaping
  {
    var t := Trimmed(s, k, stale);
    var list := IdleOf(s, k);
    var kept := Trim(s.conns, list, stale);
    TrimFacts(s.conns, list, stale);
    IdleStored(s, t, k, kept);
    hide Trim, IdleOf, Store;
    var i :| 0 <= i < |list| && list[i] == x;
    assert i >= |kept|;
    assert x in list[|kept|..];
  }

  lemma SkippedIsDropped(s: State, k: Key, stale: set<ConnID>, x: ConnID)
    requires IndexesAgree(s) && x in Skipped(s.conns, IdleOf(s, k), stale)
    ensures Listed(s, x) && !Listed(Trimmed(s, k, stale), x)
  {
    var t := Trimmed(s, k, stale);
    var list := IdleOf(s, k);
    var kept := Trim(s.conns, list, stale);
    IdleStored(s, t, k, kept);
    hide Trim, IdleOf, Store;
    var i :| |kept| <= i < |list| && list[i] == x;
    assert list[i] in list && x !in kept;
  }

  lemma TrimmedHolders(s: State, k: Key, stale: set<ConnID>)
    requires IndexesAgree(s)
    ensures var t := Trimmed(s, k, stale);
            forall h, x :: Holds(t, h, x) ==> if Holds(s, h, x) then h == ByList ==> Listed(t, x) else h == ByReaper && Listed(s, x) && !Listed(t, x)
  {
    TrimmedLists(s, k, stale);
    hide IndexesAgree, Listed, IdleOf, Trim, Skipped, Store, Distinct;
  }

  lemma TrimmedExclusive(s: State, k: Key, stale: set<ConnID>)
    requires IndexesAgree(s) && Exclusive(s)
    ensures Exclusive(Trimmed(s, k, stale))
  {
    TrimmedHolders(s, k, stale);
    assert forall x :: Listed(s, x) ==> Holds(s, ByList, x);
    hide IndexesAgree, Trimmed, Holds, Listed;
  }

  lemma TrimmedIndexes(s: State, k: Key, stale: set<ConnID>)
    requires IndexesAgree(s)
    ensures IndexesAgree(Trimmed(s, k, stale))
  {
    var t := Trimmed(s, k, stale);
    TrimmedLists(s, k, stale);
    assert t.lru == s.lru && t.conns == s.conns && forall x :: x in s.reaping ==> x in t.reaping;
    hide Trimmed, Distinct, IdleOf;
  }

  lemma TrimmedConnSide(cfg: Config, s: State, k: Key, stale: set<ConnID>)
    requires ConnSide(cfg, s)
    ensures ConnSide(cfg, Trimmed(s, k, stale))
  {
    var t := Trimmed(s, k, stale);
    TrimmedExclusive(s, k, stale);
    TrimmedIndexes(s, k, stale);
    TrimmedLists(s, k, stale);
    TrimmedHolders(s, k, stale);
    assert forall x :: Listed(s, x) ==> Holds(s, ByList, x);
    assert t.lru == s.lru && t.conns == s.conns && t.wants == s.wants && t.dials == s.dials && t.toDial == s.toDial;
    hide Trimmed, Holds, Distinct, Exclusive, IndexesAgree, Listed, IdleOf;
  }

  lemma IndexesOf(cfg: Config, s: State)
    requires ConnSide(cfg, s)
    ensures IndexesAgree(s)
  {
  }

  lemma TrimmedQueues(s: State, k: Key, stale: set<ConnID>)
    ensures var t := Trimmed(s, k, stale);
            && t.wants == s.wants && t.dials == s.dials && t.toDial == s.toDial
            && (forall j :: IdleWaitOf(t, j) == IdleWaitOf(s, j))
            && (forall j :: DialWaitOf(t, j) == DialWaitOf(s, j))
            && (forall j :: CountOf(t, j) == CountOf(s, j))
  {
    hide Store, Trim, Skipped, IdleOf;
  }

  lemma TrimmedWantSide(cfg: Config, s: State, k: Key, stale: set<ConnID>)
    requires ConnSide(cfg, s) && WantSide(cfg, s)
    ensures WantSide(cfg, Trimmed(s, k, stale))
  {
    var t := Trimmed(s, k, stale);
    IndexesOf(cfg, s);
    TrimmedLists(s, k, stale);
    TrimmedQueues(s, k, stale);
    hide Trimmed, IdleOf, IdleWaitOf, DialWaitOf, CountOf, ConnSide, Distinct, IsWaiting;
    assert forall j :: IdleOf(s, j) == [] ==> IdleOf(t, j) == [];
  }

  lemma TrimmedKeeps(cfg: Config, s: State, k: Key, stale: set<ConnID>)
    requires Core(cfg, s)
    ensures Core(cfg, Trimmed(s, k, stale))
  {
    hide ConnSide, WantSide;
    TrimmedConnSide(cfg, s, k, stale);
    TrimmedWantSide(cfg, s, k, stale);
    forall j
      ensures Slots(s, j) == Slots(Trimmed(s, k, stale), j)
    {
    }
    SameCounts(cfg, s, Trimmed(s, k, stale));
  }

  /** A connection that nobody holds gets a holder. */
  lemma Given(cfg: Config, s: State, t: State, c: ConnID, h: Holder)
    requires ConnSide(cfg, s) && c in s.conns && c !in s.lru && h != ByList && h != ByReaper
    requires forall g :: !Holds(s, g, c)
    requires t.conns == s.conns && t.idle == s.idle && t.lru == s.lru && t.reaping == s.reaping
    requires t.toDial <= t.wants.Keys && t.dials.Keys <= t.wants.Keys
    requires forall g, x :: Holds(t, g, x) ==> Holds(s, g, x) || (g == h && x == c)
    ensures ConnSide(cfg, t)
  {
    assert forall j :: IdleOf(t, j) == IdleOf(s, j);
    assert forall x :: Listed(t, x) <==> Listed(s, x);
    hide IdleOf, Listed, Holds;
  }

  lemma GivenToWant(cfg: Config, s: State, t: State, c: ConnID, w: WantID)
    requires Core(cfg, s) && c in s.conns && c !in s.lru && IsWaiting(s.wants, w)
    requires forall g :: !Holds(s, g, c)
    requires t == SetStatus(s, w, HasConn(c))
    ensures Core(cfg, t)
  {
    KnownDials(cfg, s);
    hide ConnSide, WantSide, Counted;
    assert forall g, x :: Holds(t, g, x) ==> Holds(s, g, x) || (g == ByWant(w) && x == c) by {
      assert forall x :: Listed(t, x) <==> Listed(s, x);
      hide Listed, IdleOf;
    }
    Given(cfg, s, t, c, ByWant(w));
    hide Holds;
    Answered(cfg, s, t, w, HasConn(c));
    AnsweredSlots(cfg, s, t, w, HasConn(c));
  }

  /** A request that waits no more need not dial. */
  lemma DialSpared(cfg: Config, s: State, w: WantID)
    requires Core(cfg, s) && !IsWaiting(s.wants, w)
    ensures Core(cfg, s.(toDial := s.toDial - {w}))
  {
    var t := s.(toDial := s.toDial - {w});
    KnownDials(cfg, s);
    DialSparedWantSide(cfg, s, t, w);
    hide WantSide, ConnSide;
    QueueConnSide(cfg, s, t);
    forall j
      ensures Slots(s, j) == Slots(t, j)
    {
    }
    SameCounts(cfg, s, t);
  }

  lemma DialSparedWantSide(cfg: Config, s: State, t: State, w: WantID)
    requires WantSide(cfg, s) && !IsWaiting(s.wants, w) && t == s.(toDial := s.toDial - {w})
    ensures WantSide(cfg, t)
  {
    assert forall j :: IdleOf(t, j) == IdleOf(s, j);
    assert forall j :: IdleWaitOf(t, j) == IdleWaitOf(s, j);
    assert forall j :: DialWaitOf(t, j) == DialWaitOf(s, j);
    assert forall j :: CountOf(t, j) == CountOf(s, j);
    hide IdleOf, IdleWaitOf, DialWaitOf, CountOf, Distinct;
  }

  /** The idle connection at the end of a list goes to a waiting request. */
  lemma IdleDelivered(cfg: Config, s: State, k: Key, w: WantID)
    requires Core(cfg, s) && IdleOf(s, k) != [] && IsWaiting(s.wants, w)
    ensures var kept := IdleOf(s, k);
            var c := kept[|kept| - 1];
            Core(cfg, SetStatus(s, w, HasConn(c)).(idle := Store(s.idle, k, kept[..|kept| - 1]), lru := Without(s.lru, c), toDial := s.toDial - {w}))
  {
    var kept := IdleOf(s, k);
    var c := kept[|kept| - 1];
    assert c in kept;
    assert c in s.conns && s.conns[c].key == k && Distinct(kept) && Distinct(s.lru) && Listed(s, c);
    assert Holds(s, ByList, c);
    var t := RemoveIdle(s, c);
    WithoutLast(kept);
    WithoutFacts(s.lru, c);
    NoHolderLeft(cfg, s, c);
    RemoveKeeps(cfg, s, c);
    GivenToWant(cfg, t, SetStatus(t, w, HasConn(c)), c, w);
    DialSpared(cfg, SetStatus(t, w, HasConn(c)), w);
    hide *;
  }

  lemma {:induction false} WithoutLast(q: seq<ConnID>)
    requires q != [] && Distinct(q)
    ensures Without(q, q[|q| - 1]) == q[..|q| - 1]
  {
    if |q| > 1 {
      WithoutLast(q[1..]);
      assert q[1..][..|q| - 2] == q[1..|q| - 1];
      assert q[0] != q[|q| - 1];
    }
  }

  lemma NoHolderLeft(cfg: Config, s: State, c: ConnID)
    requires ConnSide(cfg, s) && c in s.conns && Holds(s, ByList, c)
    ensures forall g :: !Holds(RemoveIdle(s, c), g, c)
  {
    var t := RemoveIdle(s, c);
    RemovedIndexes(s, t, c);
    assert !Listed(t, c) && c !in t.lru;
    hide Without, Listed, IdleOf;
    assert forall g :: Holds(t, g, c) ==> Holds(s, g, c) && g != ByList;
  }

  /** A request registers for the next idle connection of its key when there is none. */
  lemma IdleRegistered(cfg: Config, s: State, w: WantID)
    requires Core(cfg, s) && w in s.wants && IdleOf(s, s.wants[w].key) == []
    ensures var k := s.wants[w].key;
            Core(cfg, s.(idleWait := Store(s.idleWait, k, DropDone(s.wants, IdleWaitOf(s, k)) + [w])))
  {
    var k := s.wants[w].key;
    var q := DropDone(s.wants, IdleWaitOf(s, k));
    DropDoneMembers(s.wants, IdleWaitOf(s, k));
    var t := s.(idleWait := Store(s.idleWait, k, q + [w]));
    IdleWaitStored(s, t, k, q + [w]);
    IdleWaitOnly(cfg, s, t, k);
  }

  /** A change of one idleConnWait queue that adds no foreign request and parks none beside an idle connection. */
  lemma IdleWaitOnly(cfg: Config, s: State, t: State, k: Key)
    requires Core(cfg, s) && t == s.(idleWait := t.idleWait)
    requires forall j :: j != k ==> IdleWaitOf(t, j) == IdleWaitOf(s, j)
    requires forall w :: w in IdleWaitOf(t, k) ==> w in s.wants && s.wants[w].key == k && (IsWaiting(s.wants, w) ==> IdleOf(s, k) == [])
    ensures Core(cfg, t)
  {
    KnownDials(cfg, s);
    IdleWaitWantSide(cfg, s, t, k);
    hide WantSide, ConnSide, IdleWaitOf;
    assert forall h, c :: Holds(t, h, c) ==> Holds(s, h, c) by {
      assert forall x :: Listed(t, x) <==> Listed(s, x);
      hide Listed, IdleOf;
    }
    SameHolders(cfg, s, t);
    hide Holds;
    forall j
      ensures Slots(s, j) == Slots(t, j)
    {
    }
    SameCounts(cfg, s, t);
  }

  lemma IdleWaitWantSide(cfg: Config, s: State, t: State, k: Key)
    requires WantSide(cfg, s) && t == s.(idleWait := t.idleWait)
    requires forall j :: j != k ==> IdleWaitOf(t, j) == IdleWaitOf(s, j)
    requires forall w :: w in IdleWaitOf(t, k) ==> w in s.wants && s.wants[w].key == k && (IsWaiting(s.wants, w) ==> IdleOf(s, k) == [])
    ensures WantSide(cfg, t)
  {
    assert forall j :: IdleOf(t, j) == IdleOf(s, j);
    assert forall j :: DialWaitOf(t, j) == DialWaitOf(s, j);
    assert forall j :: CountOf(t, j) == CountOf(s, j);
    hide IdleOf, IdleWaitOf, DialWaitOf, CountOf, Distinct;
  }

  /** queueForIdleConn in terms of the trimmed list. */
  lemma QueueForIdleShape(cfg: Config, s: State, w: WantID, stale: set<ConnID>)
    requires w in s.wants && IsWaiting(s.wants, w) && !cfg.disableKeepAlives
    ensures var k := s.wants[w].key;
            var s1 := Trimmed(s, k, stale);
            var kept := IdleOf(s1, k);
            QueueForIdle(cfg, s, w, stale)
            == if kept != [] then
                 (SetStatus(s1, w, HasConn(kept[|kept| - 1])).(idle := Store(s1.idle, k, kept[..|kept| - 1]),
                                                               lru := Without(s1.lru, kept[|kept| - 1])), true)
               else (s1.(idleWait := Store(s1.idleWait, k, DropDone(s1.wants, IdleWaitOf(s1, k)) + [w])), false)
  {
    var k := s.wants[w].key;
    IdleStored(s, Trimmed(s, k, stale), k, Trim(s.conns, IdleOf(s, k), stale));
    assert IdleWaitOf(Trimmed(s, k, stale), k) == IdleWaitOf(s, k);
    hide Trim, Skipped, DropDone, Without, Store, IdleOf, IdleWaitOf;
  }

  lemma SameQueues(s: State, t: State, k: Key, stale: set<ConnID>)
    requires t == s.(toDial := t.toDial)
    ensures Trimmed(t, k, stale) == Trimmed(s, k, stale).(toDial := t.toDial)
    ensures IdleOf(Trimmed(t, k, stale), k) == IdleOf(Trimmed(s, k, stale), k)
    ensures IdleWaitOf(Trimmed(t, k, stale), k) == IdleWaitOf(Trimmed(s, k, stale), k)
  {
    hide Trim, Skipped, Store;
  }

  lemma GetConnShape(cfg: Config, s: State, w: WantID, k: Key, stale: set<ConnID>)
    requires w !in s.wants && w !in s.toDial && !cfg.disableKeepAlives
    ensures var t := AfterGetConn(cfg, s, w, k, stale);
            var s1 := Trimmed(s.(wants := s.wants[w := Want(k, Waiting)], toDial := s.toDial + {w}), k, stale);
            var kept := IdleOf(s1, k);
            && IsWaiting(s1.wants, w)
            && s1.wants[w].key == k
            && t == (if kept != [] then
                       SetStatus(s1, w, HasConn(kept[|kept| - 1])).(idle := Store(s1.idle, k, kept[..|kept| - 1]),
                                                                    lru := Without(s1.lru, kept[|kept| - 1]), toDial := s1.toDial - {w})
                     else s1.(idleWait := Store(s1.idleWait, k, DropDone(s1.wants, IdleWaitOf(s1, k)) + [w])))
  {
    hide Trim, Skipped, DropDone, Without, Store, QueueForIdle, IdleOf, IdleWaitOf;
    var s0 := s.(wants := s.wants[w := Want(k, Waiting)]);
    QueueForIdleShape(cfg, s0, w, stale);
    SameQueues(s0, s0.(toDial := s.toDial + {w}), k, stale);
    assert s.toDial + {w} - {w} == s.toDial;
  }

  lemma GetConnKeeps(cfg: Config, s: State, w: WantID, k: Key, stale: set<ConnID>)
    requires Core(cfg, s) && w !in s.wants
    ensures Core(cfg, AfterGetConn(cfg, s, w, k, stale))
  {
    var s0 := s.(wants := s.wants[w := Want(k, Waiting)], toDial := s.toDial + {w});
    NewRequest(cfg, s, w, k);
    if cfg.disableKeepAlives {
      hide Core;
    } else {
      NotYetDue(cfg, s, w);
      hide *;
      GetConnShape(cfg, s, w, k, stale);
      TrimmedKeeps(cfg, s0, k, stale);
      var s1 := Trimmed(s0, k, stale);
      assert w in s1.wants by { TrimmedQueues(s0, k, stale); }
      if IdleOf(s1, k) != [] {
        IdleDelivered(cfg, s1, k, w);
      } else {
        IdleRegistered(cfg, s1, w);
      }
    }
  }

  lemma NotYetDue(cfg: Config, s: State, w: WantID)
    requires Core(cfg, s) && w !in s.wants
    ensures w !in s.toDial
  {
    KnownDials(cfg, s);
  }

  // ----- tryPutIdleConn -----

  lemma CheckedIsFree(cfg: Config, s: State, c: ConnID)
    requires ConnSide(cfg, s) && c in s.checked
    ensures var t := s.(checked := s.checked - {c});
            c !in s.lru && !Listed(t, c) && forall g :: !Holds(t, g, c)
  {
    var t := s.(checked := s.checked - {c});
    assert Holds(s, ByCheck, c);
    assert forall x :: Listed(t, x) <==> Listed(s, x);
    assert Listed(s, c) ==> Holds(s, ByList, c);
    hide Listed, IdleOf;
    assert forall g :: Holds(t, g, c) ==> Holds(s, g, c) && g != ByCheck;
  }

  /** A popped idleConnWait queue. */
  lemma WaitPopped(cfg: Config, s: State, k: Key)
    requires Core(cfg, s)
    ensures var q := DropDone(s.wants, IdleWaitOf(s, k));
            Core(cfg, s.(idleWait := Store(s.idleWait, k, if q == [] then [] else q[1..])))
  {
    var q := DropDone(s.wants, IdleWaitOf(s, k));
    var rest := if q == [] then [] else q[1..];
    var t := s.(idleWait := Store(s.idleWait, k, rest));
    ParkedFor(cfg, s, k);
    hide *;
    DropDoneMembers(s.wants, IdleWaitOf(s, k));
    IdleWaitStored(s, t, k, rest);
    assert forall w :: w in rest ==> w in q;
    IdleWaitOnly(cfg, s, t, k);
  }

  lemma ParkedFor(cfg: Config, s: State, k: Key)
    requires Core(cfg, s)
    ensures forall w :: w in IdleWaitOf(s, k) ==> w in s.wants && s.wants[w].key == k && (IsWaiting(s.wants, w) ==> IdleOf(s, k) == [])
  {
    hide ConnSide, DialServed, DialOnce, Pending, IdleOf, IdleWaitOf, IsWaiting, Counted;
  }

  lemma GivenToClose(cfg: Config, s: State, t: State, c: ConnID)
    requires Core(cfg, s) && c in s.conns && c !in s.lru && t == s.(closing := s.closing + {c})
    requires forall g :: !Holds(s, g, c)
    ensures Core(cfg, t)
  {
    KnownDials(cfg, s);
    hide ConnSide, WantSide;
    assert forall g, x :: Holds(t, g, x) ==> Holds(s, g, x) || (g == ByClose && x == c) by {
      assert forall x :: Listed(t, x) <==> Listed(s, x);
      hide Listed, IdleOf;
    }
    Given(cfg, s, t, c, ByClose);
    SameWantSide(cfg, s, t);
    hide Holds;
    forall j
      ensures Slots(s, j) == Slots(t, j)
    {
    }
    SameCounts(cfg, s, t);
  }

  lemma ListingLists(s: State, c: ConnID)
    requires c in s.conns
    ensures var t := Listing(s, c);
            && (forall j :: IdleOf(t, j) == if j == s.conns[c].key then IdleOf(s, j) + [c] else IdleOf(s, j))
            && (forall x :: Listed(t, x) <==> Listed(s, x) || x == c)
  {
    var t := Listing(s, c);
    assert forall j :: IdleOf(t, j) == if j == s.conns[c].key then IdleOf(s, j) + [c] else IdleOf(s, j);
    hide IdleOf, Listing;
  }

  lemma AddedLists(s: State, t: State, c: ConnID)
    requires IndexesAgree(s) && c in s.conns && c !in s.lru && t == Listing(s, c)
    ensures forall j :: IdleOf(t, j) == if j == s.conns[c].key then IdleOf(s, j) + [c] else IdleOf(s, j)
    ensures forall x :: Listed(t, x) <==> Listed(s, x) || x == c
    ensures !Listed(s, c)
    ensures IndexesAgree(t)
  {
    ListingLists(s, c);
    assert t.reaping == s.reaping;
    assert c !in IdleOf(s, s.conns[c].key);
    hide IdleOf, Listed, Listing;
    AddedIndexes(s, t, c);
  }

  lemma AddedIndexes(s: State, t: State, c: ConnID)
    requires IndexesAgree(s) && c in s.conns && c !in s.lru && t.lru == s.lru + [c] && t.conns == s.conns && t.reaping == s.reaping
    requires forall j :: IdleOf(t, j) == if j == s.conns[c].key then IdleOf(s, j) + [c] else IdleOf(s, j)
    requires forall x :: Listed(t, x) <==> Listed(s, x) || x == c
    ensures IndexesAgree(t)
  {
    assert Distinct(IdleOf(s, s.conns[c].key) + [c]) && Distinct(s.lru + [c]);
    hide IdleOf, Listed, Distinct;
  }

  lemma AddedHolders(s: State, t: State, c: ConnID, k: Key)
    requires forall g :: !Holds(s, g, c)
    requires Exclusive(s) && OutOfIndex(s)
    requires t == s.(idle := t.idle, lru := s.lru + [c])
    requires forall x :: Listed(t, x) <==> Listed(s, x) || x == c
    ensures forall h, x :: Holds(t, h, x) ==> Holds(s, h, x) || (h == ByList && x == c)
    ensures Exclusive(t) && OutOfIndex(t)
  {
    hide Listed;
    assert forall h, x :: Holds(t, h, x) ==> Holds(s, h, x) || (h == ByList && x == c);
    hide Holds;
  }

  lemma AddedConnSide(cfg: Config, s: State, t: State, c: ConnID, k: Key)
    requires ConnSide(cfg, s) && c in s.conns && s.conns[c].key == k && c !in s.lru && |IdleOf(s, k)| < cfg.MaxIdlePerHost()
    requires forall g :: !Holds(s, g, c)
    requires t == Listing(s, c)
    ensures ConnSide(cfg, t)
  {
    AddedLists(s, t, c);
    AddedHolders(s, t, c, k);
    hide IdleOf, Listed, Holds, Exclusive, OutOfIndex, IndexesAgree;
  }

  lemma AddedWantSide(cfg: Config, s: State, t: State, c: ConnID, k: Key)
    requires WantSide(cfg, s) && forall w :: w in IdleWaitOf(s, k) ==> !IsWaiting(s.wants, w)
    requires c in s.conns && s.conns[c].key == k && t == Listing(s, c)
    ensures WantSide(cfg, t)
  {
    assert forall j :: j != k ==> IdleOf(t, j) == IdleOf(s, j);
    assert forall j :: IdleWaitOf(t, j) == IdleWaitOf(s, j);
    assert forall j :: DialWaitOf(t, j) == DialWaitOf(s, j);
    assert forall j :: CountOf(t, j) == CountOf(s, j);
    hide IdleOf, IdleWaitOf, DialWaitOf, CountOf, Distinct;
  }

  lemma AddedKeeps(cfg: Config, s: State, t: State, c: ConnID, k: Key)
    requires Core(cfg, s) && c in s.conns && s.conns[c].key == k && c !in s.lru && |IdleOf(s, k)| < cfg.MaxIdlePerHost()
    requires forall g :: !Holds(s, g, c)
    requires forall w :: w in IdleWaitOf(s, k) ==> !IsWaiting(s.wants, w)
    requires t == Listing(s, c)
    ensures Core(cfg, t)
  {
    hide ConnSide, WantSide;
    AddedConnSide(cfg, s, t, c, k);
    AddedWantSide(cfg, s, t, c, k);
    hide IdleOf, IdleWaitOf, Holds;
    forall j
      ensures Slots(s, j) == Slots(t, j)
    {
    }
    SameCounts(cfg, s, t);
  }

  lemma {:induction false} WithoutAbsent(q: seq<ConnID>, c: ConnID)
    requires c !in q
    ensures Without(q, c) == q
  {
    if q != [] {
      WithoutAbsent(q[1..], c);
    }
  }

  /** Closing a connection looks at neither index. */
  lemma CloseIgnoresIndexes(cfg: Config, s: State, c: ConnID, l: seq<ConnID>, m: map<Key, seq<ConnID>>)
    requires c in s.conns
    ensures CloseConn(cfg, s.(lru := l, idle := m), c) == CloseConn(cfg, s, c).(lru := l, idle := m)
    ensures CloseConn(cfg, s, c).idle == s.idle
  {
    hide Release;
  }

  /** Evicting the oldest connection is removing it and then closing it. */
  lemma EvictionOrder(cfg: Config, s: State)
    requires s.lru != [] && Distinct(s.lru) && s.lru[0] in s.conns
    ensures var o := s.lru[0];
            Evict(cfg, s) == CloseConn(cfg, RemoveIdle(s, o), o)
  {
    var o := s.lru[0];
    var k := s.conns[o].key;
    WithoutAbsent(s.lru[1..], o);
    var u := s.(lru := s.lru[1..]);
    assert Without(s.lru, o) == s.lru[1..];
    CloseIgnoresIndexes(cfg, u, o, s.lru[1..], Store(s.idle, k, Without(IdleOf(s, k), o)));
    hide CloseConn, Without, Store;
    assert CloseConn(cfg, u, o).conns[o].key == k;
    assert IdleOf(CloseConn(cfg, u, o), k) == IdleOf(s, k);
  }

  lemma EvictKeeps(cfg: Config, s: State)
    requires Core(cfg, s) && s.lru != []
    ensures s.lru[0] in s.conns && Core(cfg, Evict(cfg, s))
  {
    LruFacts(cfg, s);
    hide Core, CloseConn, RemoveIdle, Evict;
    EvictionOrder(cfg, s);
    RemoveKeeps(cfg, s, s.lru[0]);
    RemoveConns(s, s.lru[0]);
    CloseKeeps(cfg, RemoveIdle(s, s.lru[0]), s.lru[0]);
  }

  lemma RemoveConns(s: State, c: ConnID)
    requires c in s.conns
    ensures RemoveIdle(s, c).conns == s.conns
  {
  }

  lemma LruFacts(cfg: Config, s: State)
    requires ConnSide(cfg, s)
    ensures Distinct(s.lru) && forall c :: c in s.lru ==> c in s.conns
  {
  }

  /** tryPutIdleConn in terms of the popped queue. */
  lemma PutIdleShape(cfg: Config, s: State, c: ConnID, s2: State)
    requires c in s.conns && c !in s.lru && c !in IdleOf(s, s.conns[c].key)
    requires var s1 := s.(checked := s.checked - {c});
             var q := DropDone(s1.wants, IdleWaitOf(s1, s.conns[c].key));
             s2 == s1.(idleWait := Store(s1.idleWait, s.conns[c].key, if q == [] then [] else q[1..]))
    ensures var t := AfterPutIdle(cfg, s, c);
            var k := s.conns[c].key;
            var q := DropDone(s.wants, IdleWaitOf(s, k));
            if q != [] then t == SetStatus(s2, q[0], HasConn(c))
            else if s.closeIdle || |IdleOf(s2, k)| >= cfg.MaxIdlePerHost() then t == s2.(closing := s2.closing + {c})
            else t == StoreIdle(cfg, s2, c)
  {
    var s1 := s.(checked := s.checked - {c});
    var k := s.conns[c].key;
    assert IdleOf(s2, k) == IdleOf(s, k) == IdleOf(s1, k) && IdleWaitOf(s1, k) == IdleWaitOf(s, k);
    hide DropDone, Store, StoreIdle, IdleOf, IdleWaitOf;
  }

  lemma PutIdleKeeps(cfg: Config, s: State, c: ConnID)
    requires Core(cfg, s) && c in s.checked && c in s.conns
    ensures Core(cfg, AfterPutIdle(cfg, s, c))
  {
    var s1 := s.(checked := s.checked - {c});
    var k := s.conns[c].key;
    CheckedIsFree(cfg, s, c);
    assert IdleWaitOf(s1, k) == IdleWaitOf(s, k) && IdleOf(s1, k) == IdleOf(s, k);
    LetGo(cfg, s, s1);
    WaitPopped(cfg, s1, k);
    var q := DropDone(s1.wants, IdleWaitOf(s1, k));
    var rest := if q == [] then [] else q[1..];
    var s2 := s1.(idleWait := Store(s1.idleWait, k, rest));
    PutIdleShape(cfg, s, c, s2);
    StillFree(s1, s2, c);
    IdleWaitStored(s1, s2, k, rest);
    hide Core, Holds, DropDone, AfterPutIdle, Store, Listing;
    if q != [] {
      GivenToWant(cfg, s2, SetStatus(s2, q[0], HasConn(c)), c, q[0]);
    } else if s1.closeIdle || |IdleOf(s2, k)| >= cfg.MaxIdlePerHost() {
      GivenToClose(cfg, s2, s2.(closing := s2.closing + {c}), c);
    } else {
      var s3 := Listing(s2, c);
      AddedKeeps(cfg, s2, s3, c, k);
      EvictKeeps(cfg, s3);
    }
  }

  lemma StillFree(s: State, t: State, c: ConnID)
    requires t == s.(idleWait := t.idleWait) && forall g :: !Holds(s, g, c)
    ensures forall g :: !Holds(t, g, c)
  {
    assert Listed(t, c) == Listed(s, c);
    hide Listed;
    assert forall g :: Holds(t, g, c) ==> Holds(s, g, c);
  }
}
