/** Each step of the connection pool keeps the invariant. */
module PoolSteps {
  import opened Base
  import opened Pool
  import opened PoolInvariant

  // ----- Requests and dials -----

  lemma CancelHands(s: State, t: State, w: WantID, c: ConnID)
    requires w in s.wants && s.wants[w].status == HasConn(c)
    requires t == s.(wants := s.wants[w := s.wants[w].(status := Finished)], returning := s.returning + {c})
    ensures Handed(s, t, c, ByWant(w), ByReturn)
  {
    assert forall x :: Listed(t, x) <==> Listed(s, x);
    hide Listed, IdleOf;
  }

  lemma CancelKeeps(cfg: Config, s: State, w: WantID)
    requires Core(cfg, s) && w in s.wants
    ensures Core(cfg, AfterCancel(s, w))
  {
    hide ConnSide, WantSide, Counted, Holds, Handed;
    KnownDials(cfg, s);
    var t := AfterCancel(s, w);
    Answered(cfg, s, t, w, Finished);
    AnsweredSlots(cfg, s, t, w, Finished);
    if s.wants[w].status.HasConn? {
      var c := s.wants[w].status.pc;
      CancelHands(s, t, w, c);
      Moved(cfg, s, t, c, ByWant(w), ByReturn);
    } else {
      NoNewHolder(s, t, w, Finished);
      SameHolders(cfg, s, t);
    }
  }

  /** A dial that goes on: its request still has something coming, or needs nothing. */
  lemma DialGoesOn(cfg: Config, s: State, t: State, w: WantID, phase: Phase)
    requires w in s.dials && w in s.wants && t == s.(dials := s.dials[w := phase], conns := t.conns)
    requires phase == Failed ==> !IsWaiting(s.wants, w)
    requires WantSide(cfg, s)
    ensures WantSide(cfg, t)
  {
    assert forall j :: IdleOf(t, j) == IdleOf(s, j);
    assert forall j :: IdleWaitOf(t, j) == IdleWaitOf(s, j);
    assert forall j :: DialWaitOf(t, j) == DialWaitOf(s, j);
    assert forall j :: CountOf(t, j) == CountOf(s, j);
    hide IdleOf, IdleWaitOf, DialWaitOf, CountOf, Distinct;
  }

  /** A dial that is over, for a request that waits no more. */
  lemma DialEnds(cfg: Config, s: State, t: State, w: WantID)
    requires t == s.(dials := s.dials - {w}, returning := t.returning) && !IsWaiting(s.wants, w)
    requires WantSide(cfg, s)
    ensures WantSide(cfg, t)
  {
    assert forall j :: IdleOf(t, j) == IdleOf(s, j);
    assert forall j :: IdleWaitOf(t, j) == IdleWaitOf(s, j);
    assert forall j :: DialWaitOf(t, j) == DialWaitOf(s, j);
    assert forall j :: CountOf(t, j) == CountOf(s, j);
    hide IdleOf, IdleWaitOf, DialWaitOf, CountOf, Distinct;
  }

  /** Changing a phase other than Connected to another such phase changes no holder and no slot. */
  lemma PhaseOnly(cfg: Config, s: State, t: State, w: WantID, phase: Phase)
    requires w in s.dials && w in s.wants && !s.dials[w].Connected? && !phase.Connected? && t == s.(dials := s.dials[w := phase])
    requires ConnSide(cfg, s) && Counted(cfg, s, 0, 0)
    ensures ConnSide(cfg, t) && Counted(cfg, t, 0, 0)
  {
    KnownDials(cfg, s);
    assert forall h, c :: Holds(t, h, c) ==> Holds(s, h, c) by {
      assert forall x :: Listed(t, x) <==> Listed(s, x);
      hide Listed, IdleOf;
    }
    SameHolders(cfg, s, t);
    forall j
      ensures CountOf(t, j) == CountOf(s, j) && Slots(t, j) == Slots(s, j)
    {
      assert DialSlots(t.wants, t.dials, j) == DialSlots(s.wants, s.dials, j);
    }
    hide ConnSide;
  }

  lemma DialSlotRemoved(wants: map<WantID, Want>, dials: map<WantID, Phase>, w: WantID, j: Key)
    requires w in dials && w in wants && !dials[w].Connected?
    ensures |DialSlots(wants, dials, j)| == |DialSlots(wants, dials - {w}, j)| + (if j == wants[w].key then 1 else 0)
  {
    var t := DialSlots(wants, dials - {w}, j);
    assert DialSlots(wants, dials, j) == t + (if j == wants[w].key then {w} else {});
    assert w !in t;
  }

  /** A dial that never connected gives its slot back. */
  lemma SlotReleased(cfg: Config, s: State, w: WantID)
    requires Core(cfg, s) && w in s.dials && w in s.wants && !s.dials[w].Connected? && !IsWaiting(s.wants, w)
    ensures Core(cfg, Dec(cfg, s.(dials := s.dials - {w}), s.wants[w].key))
  {
    hide ConnSide, WantSide, Dec;
    KnownDials(cfg, s);
    var t := s.(dials := s.dials - {w});
    var k := s.wants[w].key;
    assert forall h, c :: Holds(t, h, c) ==> Holds(s, h, c) by {
      assert forall x :: Listed(t, x) <==> Listed(s, x);
      hide Listed, IdleOf;
    }
    SameHolders(cfg, s, t);
    DialEnds(cfg, s, t, w);
    hide Holds;
    forall j
      ensures CountOf(t, j) == CountOf(s, j) && Slots(s, j) == Slots(t, j) + (if j == k then 1 else 0)
    {
      DialSlotRemoved(s.wants, s.dials, w, j);
    }
    DecKeeps(cfg, t, k);
  }

  lemma DialBeginKeeps(cfg: Config, s: State, w: WantID)
    requires Core(cfg, s) && w in s.dials && w in s.wants && s.dials[w] == Started
    ensures Core(cfg, AfterDialBegin(cfg, s, w))
  {
    hide ConnSide, WantSide, Counted, Dec;
    if IsWaiting(s.wants, w) {
      var t := s.(dials := s.dials[w := Dialling]);
      DialGoesOn(cfg, s, t, w, Dialling);
      PhaseOnly(cfg, s, t, w, Dialling);
    } else {
      SlotReleased(cfg, s, w);
    }
  }

  /** A request whose dial has failed waits no more. */
  lemma FailedIsAnswered(cfg: Config, s: State, w: WantID)
    requires WantSide(cfg, s) && w in s.dials && s.dials[w] == Failed
    ensures !IsWaiting(s.wants, w)
  {
    assert IsWaiting(s.wants, w) ==> PendingFor(s, w);
  }

  lemma DialFailedKeeps(cfg: Config, s: State, w: WantID)
    requires Core(cfg, s) && w in s.dials && w in s.wants && s.dials[w] == Dialling
    ensures Core(cfg, AfterDialFailed(s, w))
  {
    hide ConnSide, WantSide, Counted;
    KnownDials(cfg, s);
    var s1 := s;
    if IsWaiting(s.wants, w) {
      s1 := SetStatus(s, w, HasError);
      Answered(cfg, s, s1, w, HasError);
      AnsweredSlots(cfg, s, s1, w, HasError);
      NoNewHolder(s, s1, w, HasError);
      SameHolders(cfg, s, s1);
    }
    var t := s1.(dials := s1.dials[w := Failed]);
    DialGoesOn(cfg, s1, t, w, Failed);
    PhaseOnly(cfg, s1, t, w, Failed);
    assert t == AfterDialFailed(s, w);
  }

  lemma ConnectedConnSide(cfg: Config, s: State, t: State, w: WantID, c: ConnID)
    requires ConnSide(cfg, s) && w in s.dials && w in s.wants && s.dials[w] == Dialling && c !in s.conns
    requires t == s.(dials := s.dials[w := Connected(c)], conns := s.conns[c := Conn(s.wants[w].key, false)])
    ensures ConnSide(cfg, t)
  {
    hide Distinct;
    assert forall j :: IdleOf(t, j) == IdleOf(s, j);
    assert forall x :: Listed(t, x) <==> Listed(s, x);
    hide IdleOf, Listed;
    assert forall h, x :: Holds(t, h, x) ==> Holds(s, h, x) || (h == ByDial(w) && x == c);
    assert forall h :: Holds(s, h, c) ==> false;
    hide Holds;
  }

  lemma DialSlotLost(wants: map<WantID, Want>, dials: map<WantID, Phase>, w: WantID, c: ConnID, j: Key)
    requires w in dials && w in wants && !dials[w].Connected?
    ensures |DialSlots(wants, dials, j)| == |DialSlots(wants, dials[w := Connected(c)], j)| + (if j == wants[w].key then 1 else 0)
  {
    var t := DialSlots(wants, dials[w := Connected(c)], j);
    assert DialSlots(wants, dials, j) == t + (if j == wants[w].key then {w} else {});
    assert w !in t;
  }

  lemma ConnSlotWon(conns: map<ConnID, Conn>, c: ConnID, k: Key, j: Key)
    requires c !in conns
    ensures |ConnSlots(conns[c := Conn(k, false)], j)| == |ConnSlots(conns, j)| + (if j == k then 1 else 0)
  {
    assert ConnSlots(conns[c := Conn(k, false)], j) == ConnSlots(conns, j) + (if j == k then {c} else {});
    assert c !in ConnSlots(conns, j);
  }

  lemma ConnectedSlots(s: State, t: State, w: WantID, c: ConnID, j: Key)
    requires w in s.dials && w in s.wants && s.dials[w] == Dialling && c !in s.conns && t.wants == s.wants
    requires t.dials == s.dials[w := Connected(c)] && t.conns == s.conns[c := Conn(s.wants[w].key, false)]
    ensures Slots(s, j) == Slots(t, j)
  {
    hide DialSlots, ConnSlots;
    DialSlotLost(s.wants, s.dials, w, c, j);
    ConnSlotWon(s.conns, c, s.wants[w].key, j);
  }

  lemma SameCounts(cfg: Config, s: State, t: State)
    requires t.count == s.count && Counted(cfg, s, 0, 0) && forall j :: Slots(s, j) == Slots(t, j)
    ensures Counted(cfg, t, 0, 0)
  {
    assert forall j :: CountOf(t, j) == CountOf(s, j);
    hide Slots, CountOf;
  }

  lemma ConnectedKeeps(cfg: Config, s: State, w: WantID, c: ConnID)
    requires Core(cfg, s) && w in s.dials && w in s.wants && s.dials[w] == Dialling && c !in s.conns
    ensures Core(cfg, s.(dials := s.dials[w := Connected(c)], conns := s.conns[c := Conn(s.wants[w].key, false)]))
  {
    hide ConnSide, WantSide, Counted, Slots;
    var t := s.(dials := s.dials[w := Connected(c)], conns := s.conns[c := Conn(s.wants[w].key, false)]);
    ConnectedConnSide(cfg, s, t, w, c);
    DialGoesOn(cfg, s, t, w, Connected(c));
    forall j
      ensures Slots(s, j) == Slots(t, j)
    {
      ConnectedSlots(s, t, w, c, j);
    }
    SameCounts(cfg, s, t);
  }

  lemma DeliverHands(s: State, t: State, w: WantID, c: ConnID)
    requires w in s.wants && w in s.dials && s.dials[w] == Connected(c)
    requires if IsWaiting(s.wants, w) then t == s.(dials := s.dials - {w}, wants := s.wants[w := s.wants[w].(status := HasConn(c))])
             else t == s.(dials := s.dials - {w}, returning := s.returning + {c})
    ensures Handed(s, t, c, ByDial(w), if IsWaiting(s.wants, w) then ByWant(w) else ByReturn)
  {
    assert forall x :: Listed(t, x) <==> Listed(s, x);
    hide Listed, IdleOf;
  }

  lemma DialDeliverKeeps(cfg: Config, s: State, w: WantID)
    requires Core(cfg, s) && w in s.wants && w in s.dials && s.dials[w].Connected?
    ensures Core(cfg, AfterDialDeliver(s, w))
  {
    hide ConnSide, WantSide, Counted, Slots, Handed, Holds;
    KnownDials(cfg, s);
    var c := s.dials[w].pc;
    var t := AfterDialDeliver(s, w);
    DeliverHands(s, t, w, c);
    Moved(cfg, s, t, c, ByDial(w), if IsWaiting(s.wants, w) then ByWant(w) else ByReturn);
    if IsWaiting(s.wants, w) {
      var s1 := SetStatus(s, w, HasConn(c));
      Answered(cfg, s, s1, w, HasConn(c));
      DialEnds(cfg, s1, t, w);
    } else {
      DialEnds(cfg, s, t, w);
    }
    forall j
      ensures Slots(s, j) == Slots(t, j)
    {
      DeliverSlots(s, t, w, j);
    }
    SameCounts(cfg, s, t);
  }

  lemma DeliverSlots(s: State, t: State, w: WantID, j: Key)
    requires w in s.dials && w in s.wants && s.dials[w].Connected? && t.conns == s.conns && t.dials == s.dials - {w}
    requires t.wants == s.wants || exists st :: t.wants == s.wants[w := s.wants[w].(status := st)]
    ensures Slots(s, j) == Slots(t, j)
  {
    assert DialSlots(s.wants, s.dials, j) == DialSlots(t.wants, t.dials, j);
  }

  // ----- Connections on their way -----

  /** The moves that change only who holds a connection. */
  lemma HolderMoveKeeps(cfg: Config, s: State, t: State, c: ConnID, from: Holder, to: Holder)
    requires Core(cfg, s) && Handed(s, t, c, from, to) && from != ByList && from != ByReaper
    requires t == s.(inUse := t.inUse, returning := t.returning, checked := t.checked, closing := t.closing)
    ensures Core(cfg, t)
  {
    hide ConnSide, WantSide, Handed, Holds;
    KnownDials(cfg, s);
    Moved(cfg, s, t, c, from, to);
    SameWantSide(cfg, s, t);
    assert forall j :: CountOf(t, j) == CountOf(s, j) && Slots(t, j) == Slots(s, j);
  }

  lemma EndUseKeeps(cfg: Config, s: State, c: ConnID, reusable: bool)
    requires Core(cfg, s) && c in s.inUse
    ensures Core(cfg, AfterEndUse(s, c, reusable))
  {
    hide Core;
    var t := AfterEndUse(s, c, reusable);
    assert Handed(s, t, c, ByUse, if reusable then ByReturn else ByClose) by {
      assert forall x :: Listed(t, x) <==> Listed(s, x);
      hide Listed, IdleOf;
    }
    HolderMoveKeeps(cfg, s, t, c, ByUse, if reusable then ByReturn else ByClose);
  }

  lemma PutCheckHands(s: State, t: State, c: ConnID, to: Holder)
    requires c in s.returning && (to == ByCheck || to == ByClose)
    requires t == if to == ByCheck then s.(returning := s.returning - {c}, checked := s.checked + {c})
                  else s.(returning := s.returning - {c}, closing := s.closing + {c})
    ensures Handed(s, t, c, ByReturn, to)
  {
    assert forall x :: Listed(t, x) <==> Listed(s, x);
    hide Listed, IdleOf;
  }

  lemma PutCheckKeeps(cfg: Config, s: State, c: ConnID)
    requires Core(cfg, s) && c in s.returning && c in s.conns
    ensures Core(cfg, AfterPutCheck(cfg, s, c))
  {
    hide Core, Handed, Holds;
    var t := AfterPutCheck(cfg, s, c);
    var to := if cfg.disableKeepAlives || cfg.maxIdleConnsPerHost < 0 || s.conns[c].closed then ByClose else ByCheck;
    PutCheckHands(s, t, c, to);
    HolderMoveKeeps(cfg, s, t, c, ByReturn, to);
  }

  /** A holder may let go of a connection. */
  lemma LetGo(cfg: Config, s: State, t: State)
    requires Core(cfg, s)
    requires t == s.(checked := t.checked, closing := t.closing)
    requires t.checked <= s.checked && t.closing <= s.closing
    ensures Core(cfg, t)
  {
    hide ConnSide, WantSide;
    KnownDials(cfg, s);
    assert forall h, x :: Holds(t, h, x) ==> Holds(s, h, x) by {
      assert forall x :: Listed(t, x) <==> Listed(s, x);
      hide Listed, IdleOf;
    }
    SameHolders(cfg, s, t);
    SameWantSide(cfg, s, t);
    hide Holds;
    assert forall j :: CountOf(t, j) == CountOf(s, j) && Slots(t, j) == Slots(s, j);
  }

  // ----- Taking connections out of the indexes -----

  lemma RemovedIndexes(s: State, t: State, c: ConnID)
    requires c in s.conns && IndexesAgree(s) && t == RemoveIdle(s, c)
    ensures Distinct(t.lru)
    ensures forall x :: x in t.lru <==> x in s.lru && x != c
    ensures |t.lru| <= |s.lru|
    ensures forall j :: IdleOf(t, j) == if j == s.conns[c].key then Without(IdleOf(s, j), c) else IdleOf(s, j)
    ensures forall j :: Distinct(IdleOf(t, j)) && |IdleOf(t, j)| <= |IdleOf(s, j)|
    ensures forall j, x :: x in IdleOf(t, j) <==> x in IdleOf(s, j) && x != c
  {
    var k := s.conns[c].key;
    WithoutFacts(s.lru, c);
    WithoutFacts(IdleOf(s, k), c);
    if IdleOf(s, k) != [] {
      IdleStored(s, t, k, Without(IdleOf(s, k), c));
    }
    assert forall j :: IdleOf(t, j) == if j == k then Without(IdleOf(s, j), c) else IdleOf(s, j);
    hide Without, IdleOf, Distinct;
  }

  lemma RemoveKeepsConnSide(cfg: Config, s: State, c: ConnID)
    requires ConnSide(cfg, s) && c in s.conns
    ensures ConnSide(cfg, RemoveIdle(s, c))
  {
    var t := RemoveIdle(s, c);
    RemovedIndexes(s, t, c);
    assert forall x :: Listed(t, x) <==> Listed(s, x) && x != c;
    hide IdleOf, Listed, Distinct, Without;
    assert forall h, x :: Holds(t, h, x) ==> Holds(s, h, x);
    hide Holds;
  }

  lemma RemoveKeepsWantSide(cfg: Config, s: State, c: ConnID)
    requires ConnSide(cfg, s) && WantSide(cfg, s) && c in s.conns
    ensures WantSide(cfg, RemoveIdle(s, c))
  {
    var t := RemoveIdle(s, c);
    RemovedIndexes(s, t, c);
    assert forall j :: IdleOf(s, j) == [] ==> IdleOf(t, j) == [];
    assert forall j :: IdleWaitOf(t, j) == IdleWaitOf(s, j);
    assert forall j :: DialWaitOf(t, j) == DialWaitOf(s, j);
    assert forall j :: CountOf(t, j) == CountOf(s, j);
    hide IdleOf, IdleWaitOf, DialWaitOf, CountOf, Distinct, Without, Known, Exclusive, IndexesAgree, WithinLimits;
  }

  lemma RemoveKeeps(cfg: Config, s: State, c: ConnID)
    requires Core(cfg, s) && c in s.conns
    ensures Core(cfg, RemoveIdle(s, c))
  {
    var t := RemoveIdle(s, c);
    hide ConnSide, WantSide, Counted;
    RemoveKeepsConnSide(cfg, s, c);
    RemoveKeepsWantSide(cfg, s, c);
    forall j
      ensures Slots(s, j) == Slots(t, j)
    {
    }
    SameCounts(cfg, s, t);
  }

  lemma ReapKeeps(cfg: Config, s: State, c: ConnID)
    requires Core(cfg, s) && c in s.conns
    ensures Core(cfg, Reap(cfg, s.(reaping := s.reaping - {c}), c))
  {
    hide ConnSide, WantSide, Counted, CloseConn;
    var s1 := s.(reaping := s.reaping - {c});
    var t := RemoveIdle(s1, c);
    assert ConnSide(cfg, t) && WantSide(cfg, t) && Counted(cfg, t, 0, 0) && !t.panicked by {
      RemoveKeeps(cfg, s, c);
      RemovedIsOut(cfg, s, c);
      ForgetReaper(cfg, RemoveIdle(s, c), c);
      assert t == RemoveIdle(s, c).(reaping := s.reaping - {c});
    }
    if c in s.lru {
      CloseKeeps(cfg, t, c);
    } else {
      NotIdle(cfg, s, c);
      ForgetReaper(cfg, s, c);
    }
  }

  lemma RemovedIsOut(cfg: Config, s: State, c: ConnID)
    requires ConnSide(cfg, s) && c in s.conns
    ensures c !in RemoveIdle(s, c).lru
  {
    WithoutFacts(s.lru, c);
  }

  lemma NotIdle(cfg: Config, s: State, c: ConnID)
    requires ConnSide(cfg, s) && c !in s.lru
    ensures !Listed(s, c)
  {
  }

  /** A clean-up that finds its connection not idle may be forgotten. */
  lemma ForgetReaper(cfg: Config, s: State, c: ConnID)
    requires Core(cfg, s) && c !in s.lru
    ensures Core(cfg, s.(reaping := s.reaping - {c}))
  {
    var t := s.(reaping := s.reaping - {c});
    ForgetReaperConnSide(cfg, s, c);
    SameWantSide(cfg, s, t);
    hide ConnSide, WantSide;
    forall j
      ensures Slots(s, j) == Slots(t, j)
    {
    }
    SameCounts(cfg, s, t);
  }

  lemma ForgetReaperConnSide(cfg: Config, s: State, c: ConnID)
    requires ConnSide(cfg, s) && c !in s.lru
    ensures ConnSide(cfg, s.(reaping := s.reaping - {c}))
  {
    hide Distinct;
    var t := s.(reaping := s.reaping - {c});
    assert forall j :: IdleOf(t, j) == IdleOf(s, j);
    assert forall x :: Listed(t, x) <==> Listed(s, x);
    hide IdleOf, Listed;
    assert forall h, x :: Holds(t, h, x) ==> Holds(s, h, x);
    hide Holds;
  }

  lemma CloseIdleConnSide(cfg: Config, s: State)
    requires ConnSide(cfg, s)
    ensures ConnSide(cfg, CloseIdle(s))
  {
    var t := CloseIdle(s);
    forall c | c in AllListed(s.idle)
      ensures Listed(s, c)
    {
      var k, i :| k in s.idle && 0 <= i < |s.idle[k]| && s.idle[k][i] == c;
      assert c in IdleOf(s, k);
    }
    assert forall j :: IdleOf(t, j) == [];
    assert forall x :: !Listed(t, x);
    hide IdleOf, Listed, AllListed;
    assert forall h, x :: Holds(t, h, x) ==> Holds(s, h, x) || (h == ByClose && Listed(s, x));
    assert forall x :: Listed(s, x) ==> Holds(s, ByList, x);
    assert forall x :: !Holds(t, ByList, x);
    hide Holds;
  }

  lemma CloseIdleKeeps(cfg: Config, s: State)
    requires Core(cfg, s)
    ensures Core(cfg, CloseIdle(s))
  {
    var t := CloseIdle(s);
    hide ConnSide, Counted;
    CloseIdleConnSide(cfg, s);
    assert WantSide(cfg, t) by {
      assert forall j :: IdleOf(t, j) == [];
      assert forall j :: IdleWaitOf(t, j) == IdleWaitOf(s, j);
      assert forall j :: DialWaitOf(t, j) == DialWaitOf(s, j);
      assert forall j :: CountOf(t, j) == CountOf(s, j);
      hide IdleOf, IdleWaitOf, DialWaitOf, CountOf, Distinct;
    }
    forall j
      ensures Slots(s, j) == Slots(t, j)
    {
    }
    SameCounts(cfg, s, t);
  }
}
