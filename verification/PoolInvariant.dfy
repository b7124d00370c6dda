/** What every step of the connection pool keeps: one holder per connection, exact slot counts, indexes that agree,
    no parked request while a slot or an idle connection is free. */
module PoolInvariant {
  import opened Base
  import opened Pool

  // ----- Who holds a connection -----

  datatype Holder = ByWant(w: WantID) | ByDial(w: WantID) | ByList | ByUse | ByReturn | ByCheck | ByClose | ByReaper

  predicate Listed(s: State, c: ConnID) {
    c in s.conns && c in IdleOf(s, s.conns[c].key)
  }

  ghost predicate Holds(s: State, h: Holder, c: ConnID) {
    match h
    case ByWant(w) => w in s.wants && s.wants[w].status == HasConn(c)
    case ByDial(w) => w in s.dials && s.dials[w] == Connected(c)
    case ByList => Listed(s, c)
    case ByUse => c in s.inUse
    case ByReturn => c in s.returning
    case ByCheck => c in s.checked
    case ByClose => c in s.closing
    case ByReaper => c in s.reaping && c in s.lru && !Listed(s, c)
  }

  ghost predicate Exclusive(s: State) {
    forall c, h1, h2 :: Holds(s, h1, c) && Holds(s, h2, c) ==> h1 == h2
  }

  // ----- Indexes -----

  predicate Distinct(q: seq<nat>) {
    forall i, j :: 0 <= i < j < |q| ==> q[i] != q[j]
  }

  ghost predicate Known(s: State) {
    && (forall c :: c in s.lru ==> c in s.conns)
    && (forall h, c :: Holds(s, h, c) ==> c in s.conns)
    && s.toDial <= s.wants.Keys
    && s.dials.Keys <= s.wants.Keys
  }

  /** Every idle list holds connections of its own key, each once and each in the LRU; an LRU entry in no list is
      closed or about to be cleaned up. */
  ghost predicate IndexesAgree(s: State) {
    && (forall k :: Distinct(IdleOf(s, k)))
    && (forall k, c :: c in IdleOf(s, k) ==> c in s.conns && s.conns[c].key == k && c in s.lru)
    && Distinct(s.lru)
    && (forall c :: c in s.lru && !Listed(s, c) ==> c in s.conns && (s.conns[c].closed || c in s.reaping))
  }

  ghost predicate WithinLimits(cfg: Config, s: State) {
    forall k :: IdleOf(s, k) == [] || |IdleOf(s, k)| <= cfg.MaxIdlePerHost()
  }

  ghost predicate LruWithinLimit(cfg: Config, s: State) {
    cfg.maxIdleConns != 0 ==> |s.lru| <= Max(cfg.maxIdleConns, 0)
  }

  /** A connection that is held anywhere but in a list, or for clean-up, is not in the LRU. */
  ghost predicate OutOfIndex(s: State) {
    forall h, c :: Holds(s, h, c) && h != ByList && h != ByReaper ==> c !in s.lru
  }

  // ----- Requests -----

  /** A request that waits for an idle connection of its key is not parked beside one. */
  ghost predicate IdleServed(s: State) {
    && (forall k, w :: w in IdleWaitOf(s, k) ==> w in s.wants && s.wants[w].key == k)
    && (forall k, w :: w in IdleWaitOf(s, k) && IsWaiting(s.wants, w) ==> IdleOf(s, k) == [])
  }

  /** A request parked for a slot finds all slots of its host taken. */
  ghost predicate DialServed(cfg: Config, s: State) {
    && (forall k, w :: w in DialWaitOf(s, k) ==> w in s.wants && s.wants[w].key == k)
    && (forall k, w :: w in DialWaitOf(s, k) && IsWaiting(s.wants, w) ==>
          cfg.maxConnsPerHost > 0 && CountOf(s, k) == cfg.maxConnsPerHost)
  }

  /** Each request is dialled for at most once. */
  ghost predicate DialOnce(s: State) {
    && (forall k :: Distinct(DialWaitOf(s, k)))
    && (forall k, w :: w in DialWaitOf(s, k) ==> w !in s.dials && w !in s.toDial)
    && (forall w :: w in s.dials ==> w !in s.toDial)
  }

  /** A waiting request always has something coming: its dial is due, under way, or queued for a slot. */
  ghost predicate Pending(s: State) {
    forall w :: IsWaiting(s.wants, w) ==> PendingFor(s, w)
  }

  ghost predicate PendingFor(s: State, w: WantID) {
    && w in s.wants
    && (w in s.toDial || w in DialWaitOf(s, s.wants[w].key) || (w in s.dials && s.dials[w] != Failed))
  }

  // ----- Slots -----

  ghost function DialSlots(wants: map<WantID, Want>, dials: map<WantID, Phase>, k: Key): set<WantID> {
    set w | w in dials && w in wants && wants[w].key == k && !dials[w].Connected?
  }

  ghost function ConnSlots(conns: map<ConnID, Conn>, k: Key): set<ConnID> {
    set c | c in conns && conns[c].key == k && !conns[c].closed
  }

  ghost function Slots(s: State, k: Key): nat {
    |DialSlots(s.wants, s.dials, k)| + |ConnSlots(s.conns, k)|
  }

  /** The count of each host is its dials in progress plus its open connections, d more for host `at`. */
  ghost predicate Counted(cfg: Config, s: State, at: Key, d: nat) {
    cfg.maxConnsPerHost > 0 ==> forall k :: CountOf(s, k) == Slots(s, k) + (if k == at then d else 0) && CountOf(s, k) <= cfg.maxConnsPerHost
  }

  ghost predicate ConnSide(cfg: Config, s: State) {
    Known(s) && Exclusive(s) && IndexesAgree(s) && WithinLimits(cfg, s) && OutOfIndex(s)
  }

  ghost predicate WantSide(cfg: Config, s: State) {
    IdleServed(s) && DialServed(cfg, s) && DialOnce(s) && Pending(s)
  }

  ghost predicate Sane(cfg: Config, s: State) {
    !s.panicked && ConnSide(cfg, s) && WantSide(cfg, s)
  }

  ghost predicate Core(cfg: Config, s: State) {
    Sane(cfg, s) && Counted(cfg, s, 0, 0)
  }

  ghost predicate Inv(cfg: Config, s: State) {
    Core(cfg, s) && LruWithinLimit(cfg, s)
  }

  // ----- Lists and queues -----

  lemma {:induction false} DropDoneFacts(wants: map<WantID, Want>, q: seq<WantID>)
    ensures var r := DropDone(wants, q);
            && |r| <= |q| && r == q[|q| - |r|..]
            && (r != [] ==> IsWaiting(wants, r[0]))
            && (forall i :: 0 <= i < |q| - |r| ==> !IsWaiting(wants, q[i]))
    decreases |q|
  {
    if q != [] && !IsWaiting(wants, q[0]) {
      DropDoneFacts(wants, q[1..]);
    }
  }

  /** Membership after dropping: nothing new, and no waiting request is lost. */
  lemma DropDoneMembers(wants: map<WantID, Want>, q: seq<WantID>)
    ensures forall w :: w in DropDone(wants, q) ==> w in q
    ensures forall w :: w in q && IsWaiting(wants, w) ==> w in DropDone(wants, q)
    ensures Distinct(q) ==> Distinct(DropDone(wants, q))
  {
    DropDoneFacts(wants, q);
    var r := DropDone(wants, q);
    forall w | w in q && IsWaiting(wants, w)
      ensures w in r
    {
      var i :| 0 <= i < |q| && q[i] == w;
      assert r[i - (|q| - |r|)] == w;
    }
  }

  lemma {:induction false} WithoutFacts(q: seq<ConnID>, c: ConnID)
    requires Distinct(q)
    ensures Distinct(Without(q, c))
    ensures forall x :: x in Without(q, c) <==> x in q && x != c
    ensures |Without(q, c)| == |q| - (if c in q then 1 else 0)
  {
    if q == [] {
    } else if q[0] == c {
      assert forall x :: x in q[1..] ==> exists i :: 1 <= i < |q| && q[i] == x;
    } else {
      var rest := q[1..];
      assert Distinct(rest);
      WithoutFacts(rest, c);
      assert q == [q[0]] + rest;
      assert q[0] !in rest;
    }
  }

  lemma {:induction false} TrimFacts(conns: map<ConnID, Conn>, list: seq<ConnID>, stale: set<ConnID>)
    ensures var kept := Trim(conns, list, stale);
            && (forall i :: |kept| <= i < |list| ==> list[i] in stale || (list[i] in conns && conns[list[i]].closed))
            && (kept != [] ==> var c := kept[|kept| - 1]; c !in stale && (c in conns ==> !conns[c].closed))
  {
    if list != [] {
      TrimFacts(conns, list[..|list| - 1], stale);
    }
  }

  lemma IdleStored(s: State, t: State, k: Key, q: seq<ConnID>)
    requires t.idle == Store(s.idle, k, q)
    ensures forall j :: IdleOf(t, j) == if j == k then q else IdleOf(s, j)
  {
  }

  lemma IdleWaitStored(s: State, t: State, k: Key, q: seq<WantID>)
    requires t.idleWait == Store(s.idleWait, k, q)
    ensures forall j :: IdleWaitOf(t, j) == if j == k then q else IdleWaitOf(s, j)
  {
  }

  lemma DialWaitStored(s: State, t: State, k: Key, q: seq<WantID>)
    requires t.dialWait == Store(s.dialWait, k, q)
    ensures forall j :: DialWaitOf(t, j) == if j == k then q else DialWaitOf(s, j)
  {
  }

  lemma CountStored(s: State, t: State, k: Key, n: nat)
    requires t.count == SetCount(s, k, n).count
    ensures forall j :: CountOf(t, j) == if j == k then n else CountOf(s, j)
  {
  }

  // ----- decConnsPerHost -----

  /** The effect of Dec on a host whose count is not zero: either the first waiting request of the queue starts its
      dial and the count stays, or nobody waits and the count goes down by one. */
  ghost predicate Released(s: State, t: State, k: Key) {
    && t == s.(dialWait := t.dialWait, count := t.count, dials := t.dials)
    && (forall j :: j != k ==> DialWaitOf(t, j) == DialWaitOf(s, j) && CountOf(t, j) == CountOf(s, j))
    && (HandedOver(s, t, k) || GivenUp(s, t, k))
  }

  ghost predicate HandedOver(s: State, t: State, k: Key) {
    exists n :: 0 <= n < |DialWaitOf(s, k)| && HandedTo(s, t, k, n)
  }

  ghost predicate HandedTo(s: State, t: State, k: Key, n: nat)
    requires n < |DialWaitOf(s, k)|
  {
    var q := DialWaitOf(s, k);
    && IsWaiting(s.wants, q[n]) && (forall i :: 0 <= i < n ==> !IsWaiting(s.wants, q[i]))
    && t.dials == s.dials[q[n] := Started] && DialWaitOf(t, k) == q[n + 1..] && CountOf(t, k) == CountOf(s, k)
  }

  ghost predicate GivenUp(s: State, t: State, k: Key) {
    && (forall w :: w in DialWaitOf(s, k) ==> !IsWaiting(s.wants, w))
    && t.dials == s.dials && DialWaitOf(t, k) == [] && CountOf(t, k) == CountOf(s, k) - 1
  }

  lemma DecReleases(cfg: Config, s: State, k: Key)
    requires cfg.maxConnsPerHost > 0 && CountOf(s, k) >= 1
    ensures Released(s, Dec(cfg, s, k), k)
  {
    var t := Dec(cfg, s, k);
    var all := DialWaitOf(s, k);
    DropDoneFacts(s.wants, all);
    var q := DropDone(s.wants, all);
    if q != [] {
      DialWaitStored(s, t, k, q[1..]);
      assert HandedTo(s, t, k, |all| - |q|);
    } else {
      if all != [] {
        DialWaitStored(s, t, k, []);
      }
      assert forall j :: DialWaitOf(t, j) == if j == k then [] else DialWaitOf(s, j);
      CountStored(s, t, k, CountOf(s, k) - 1);
      assert forall w :: w in all ==> !IsWaiting(s.wants, w);
    }
  }

  lemma DecConnSide(cfg: Config, s: State, t: State, k: Key)
    requires Released(s, t, k)
    requires ConnSide(cfg, s) && WantSide(cfg, s)
    ensures ConnSide(cfg, t) && IdleServed(t)
  {
    hide Distinct;
    assert forall j :: IdleOf(t, j) == IdleOf(s, j);
    assert forall j :: IdleWaitOf(t, j) == IdleWaitOf(s, j);
    assert forall c :: Listed(t, c) <==> Listed(s, c);
    hide IdleOf, IdleWaitOf, DialWaitOf, CountOf, Listed;
    assert forall h, c :: Holds(t, h, c) ==> Holds(s, h, c);
    hide Holds;
  }

  lemma DecDialSide(cfg: Config, s: State, t: State, k: Key)
    requires Released(s, t, k)
    requires DialServed(cfg, s) && DialOnce(s) && Pending(s)
    ensures DialServed(cfg, t) && DialOnce(t) && Pending(t)
  {
    hide IdleOf, IdleWaitOf, DialWaitOf, CountOf;
  }

  lemma HandedSlots(s: State, t: State, k: Key, n: nat, j: Key)
    requires t == s.(dialWait := t.dialWait, count := t.count, dials := t.dials)
    requires n < |DialWaitOf(s, k)| && t.dials == s.dials[DialWaitOf(s, k)[n] := Started]
    requires var w := DialWaitOf(s, k)[n]; w !in s.dials && w in s.wants && s.wants[w].key == k
    ensures Slots(t, j) == Slots(s, j) + (if j == k then 1 else 0)
  {
    AddedDialSlots(s, t, DialWaitOf(s, k)[n], j);
  }

  lemma AddedDialSlots(s: State, t: State, w: WantID, j: Key)
    requires t.wants == s.wants && t.conns == s.conns && w !in s.dials && w in s.wants && t.dials == s.dials[w := Started]
    ensures Slots(t, j) == Slots(s, j) + (if j == s.wants[w].key then 1 else 0)
  {
    assert DialSlots(t.wants, t.dials, j) == DialSlots(s.wants, s.dials, j) + (if j == s.wants[w].key then {w} else {});
    assert w !in DialSlots(s.wants, s.dials, j);
  }

  lemma DecCounted(cfg: Config, s: State, t: State, k: Key)
    requires cfg.maxConnsPerHost > 0 && Released(s, t, k) && Counted(cfg, s, k, 1)
    requires DialServed(cfg, s) && DialOnce(s)
    ensures Counted(cfg, t, 0, 0)
  {
    forall j
      ensures CountOf(t, j) == Slots(t, j) && CountOf(t, j) <= cfg.maxConnsPerHost
    {
      assert CountOf(s, j) == Slots(s, j) + (if j == k then 1 else 0);
      hide CountOf, DialWaitOf, DialSlots, ConnSlots;
      if HandedOver(s, t, k) {
        var n :| 0 <= n < |DialWaitOf(s, k)| && HandedTo(s, t, k, n);
        assert DialWaitOf(s, k)[n] in DialWaitOf(s, k);
        HandedSlots(s, t, k, n, j);
      } else {
        assert Slots(t, j) == Slots(s, j);
      }
    }
  }

  lemma DecKeeps(cfg: Config, s: State, k: Key)
    requires Sane(cfg, s) && Counted(cfg, s, k, 1)
    ensures Core(cfg, Dec(cfg, s, k))
  {
    if cfg.maxConnsPerHost > 0 {
      assert CountOf(s, k) >= 1;
      var t := Dec(cfg, s, k);
      DecReleases(cfg, s, k);
      DecCounted(cfg, s, t, k);
      DecConnSide(cfg, s, t, k);
      DecDialSide(cfg, s, t, k);
      hide *;
    }
  }

  // ----- closeLocked -----

  lemma MarkClosedCounted(cfg: Config, s: State, c: ConnID)
    requires Counted(cfg, s, 0, 0) && c in s.conns && !s.conns[c].closed
    ensures Counted(cfg, s.(conns := s.conns[c := s.conns[c].(closed := true)]), s.conns[c].key, 1)
  {
    var t := s.(conns := s.conns[c := s.conns[c].(closed := true)]);
    forall j
      ensures ConnSlots(t.conns, j) == ConnSlots(s.conns, j) - (if j == s.conns[c].key then {c} else {})
      ensures j == s.conns[c].key ==> c in ConnSlots(s.conns, j)
      ensures CountOf(t, j) == CountOf(s, j)
    {
    }
  }

  lemma MarkClosedConnSide(cfg: Config, s: State, t: State, c: ConnID)
    requires c in s.conns && t == s.(conns := s.conns[c := s.conns[c].(closed := true)])
    requires ConnSide(cfg, s)
    ensures ConnSide(cfg, t)
  {
    hide Distinct;
    assert forall j :: IdleOf(t, j) == IdleOf(s, j);
    assert forall x :: Listed(t, x) <==> Listed(s, x);
    hide IdleOf, Listed;
    assert forall h, x :: Holds(t, h, x) ==> Holds(s, h, x);
    hide Holds;
  }

  /** Requests are untouched by what changes connections only. */
  lemma SameWantSide(cfg: Config, s: State, t: State)
    requires t.wants == s.wants && t.idle == s.idle && t.idleWait == s.idleWait && t.dialWait == s.dialWait
    requires t.count == s.count && t.toDial == s.toDial && t.dials == s.dials
    requires WantSide(cfg, s)
    ensures WantSide(cfg, t)
  {
    assert forall j :: IdleOf(t, j) == IdleOf(s, j);
    assert forall j :: IdleWaitOf(t, j) == IdleWaitOf(s, j);
    assert forall j :: DialWaitOf(t, j) == DialWaitOf(s, j);
    assert forall j :: CountOf(t, j) == CountOf(s, j);
    hide IdleOf, IdleWaitOf, DialWaitOf, CountOf;
  }

  lemma MarkClosedSane(cfg: Config, s: State, c: ConnID)
    requires Sane(cfg, s) && c in s.conns
    ensures Sane(cfg, s.(conns := s.conns[c := s.conns[c].(closed := true)]))
  {
    var t := s.(conns := s.conns[c := s.conns[c].(closed := true)]);
    MarkClosedConnSide(cfg, s, t, c);
    SameWantSide(cfg, s, t);
    hide ConnSide, WantSide;
  }

  lemma CloseKeeps(cfg: Config, s: State, c: ConnID)
    requires Core(cfg, s) && c in s.conns
    ensures Core(cfg, CloseConn(cfg, s, c))
  {
    if !s.conns[c].closed {
      MarkClosedCounted(cfg, s, c);
      MarkClosedSane(cfg, s, c);
      DecKeeps(cfg, s.(conns := s.conns[c := s.conns[c].(closed := true)]), s.conns[c].key);
      hide Sane, Counted, Dec;
    }
  }

  // ----- Handing connections and answers over -----

  /** A connection c goes from one holder to another, and no other connection gets a holder. */
  ghost predicate Handed(s: State, t: State, c: ConnID, from: Holder, to: Holder) {
    && Holds(s, from, c)
    && forall g, x :: Holds(t, g, x) ==> (g == to && x == c) || (Holds(s, g, x) && !(g == from && x == c))
  }

  lemma Moved(cfg: Config, s: State, t: State, c: ConnID, from: Holder, to: Holder)
    requires ConnSide(cfg, s) && Handed(s, t, c, from, to) && from != ByList && from != ByReaper
    requires t.conns == s.conns && t.idle == s.idle && t.lru == s.lru && t.reaping == s.reaping
    requires t.toDial <= t.wants.Keys && t.dials.Keys <= t.wants.Keys
    ensures ConnSide(cfg, t)
  {
    assert forall j :: IdleOf(t, j) == IdleOf(s, j);
    assert forall x :: Listed(t, x) <==> Listed(s, x);
    hide IdleOf, Listed, Holds;
  }

  /** A request whose wait is over, or was over already. */
  lemma Answered(cfg: Config, s: State, t: State, w: WantID, st: Status)
    requires w in s.wants && st != Waiting && t.wants == s.wants[w := s.wants[w].(status := st)]
    requires t.idle == s.idle && t.idleWait == s.idleWait && t.dialWait == s.dialWait
    requires t.count == s.count && t.toDial == s.toDial && t.dials == s.dials
    requires WantSide(cfg, s)
    ensures WantSide(cfg, t)
  {
    assert forall j :: IdleOf(t, j) == IdleOf(s, j);
    assert forall j :: IdleWaitOf(t, j) == IdleWaitOf(s, j);
    assert forall j :: DialWaitOf(t, j) == DialWaitOf(s, j);
    assert forall j :: CountOf(t, j) == CountOf(s, j);
    assert forall x :: IsWaiting(t.wants, x) ==> IsWaiting(s.wants, x);
    hide IdleOf, IdleWaitOf, DialWaitOf, CountOf, IsWaiting;
  }

  lemma AnsweredSlots(cfg: Config, s: State, t: State, w: WantID, st: Status)
    requires w in s.wants && t.wants == s.wants[w := s.wants[w].(status := st)]
    requires t.count == s.count && t.dials == s.dials && t.conns == s.conns
    requires Counted(cfg, s, 0, 0)
    ensures Counted(cfg, t, 0, 0)
  {
    forall j
      ensures CountOf(t, j) == CountOf(s, j) && Slots(t, j) == Slots(s, j)
    {
      assert DialSlots(t.wants, t.dials, j) == DialSlots(s.wants, s.dials, j);
    }
  }

  lemma ReceiveHands(s: State, t: State, w: WantID, c: ConnID)
    requires w in s.wants && s.wants[w].status == HasConn(c)
    requires t == s.(wants := s.wants[w := s.wants[w].(status := Finished)], inUse := s.inUse + {c})
    ensures Handed(s, t, c, ByWant(w), ByUse)
  {
    assert forall x :: Listed(t, x) <==> Listed(s, x);
    hide Listed, IdleOf;
  }

  /** Answering a request without a connection, or with one it did not have, is no change of holders. */
  lemma NoNewHolder(s: State, t: State, w: WantID, st: Status)
    requires w in s.wants && !st.HasConn? && t == s.(wants := s.wants[w := s.wants[w].(status := st)])
    ensures forall h, c :: Holds(t, h, c) ==> Holds(s, h, c)
  {
    assert forall x :: Listed(t, x) <==> Listed(s, x);
    hide Listed, IdleOf;
  }

  lemma ReceiveKeeps(cfg: Config, s: State, w: WantID)
    requires Core(cfg, s) && w in s.wants
    ensures Core(cfg, AfterReceive(s, w))
  {
    hide ConnSide, WantSide, Counted, Holds, Handed;
    assert s.toDial <= s.wants.Keys && s.dials.Keys <= s.wants.Keys by { KnownDials(cfg, s); }
    var t := AfterReceive(s, w);
    Answered(cfg, s, t, w, Finished);
    AnsweredSlots(cfg, s, t, w, Finished);
    if s.wants[w].status.HasConn? {
      var c := s.wants[w].status.pc;
      ReceiveHands(s, t, w, c);
      Moved(cfg, s, t, c, ByWant(w), ByUse);
    } else {
      NoNewHolder(s, t, w, Finished);
      SameHolders(cfg, s, t);
    }
  }

  lemma KnownDials(cfg: Config, s: State)
    requires ConnSide(cfg, s)
    ensures s.toDial <= s.wants.Keys && s.dials.Keys <= s.wants.Keys
  {
  }

  lemma SameHolders(cfg: Config, s: State, t: State)
    requires ConnSide(cfg, s)
    requires t.conns == s.conns && t.idle == s.idle && t.lru == s.lru && t.reaping == s.reaping
    requires t.toDial <= t.wants.Keys && t.dials.Keys <= t.wants.Keys
    requires forall h, c :: Holds(t, h, c) ==> Holds(s, h, c)
    ensures ConnSide(cfg, t)
  {
    assert forall j :: IdleOf(t, j) == IdleOf(s, j);
    assert forall x :: Listed(t, x) <==> Listed(s, x);
    hide IdleOf, Listed, Holds;
  }

  // ----- Where a returned connection goes -----

  lemma {:induction false} WithoutKeepsLast(q: seq<ConnID>, c: ConnID, x: ConnID)
    requires x != c
    ensures Without(q + [c], x) == Without(q, x) + [c]
  {
    if q == [] {
      assert Without([c], x) == [c] + Without([], x);
    } else if q[0] == x {
      assert (q + [c])[1..] == q[1..] + [c];
    } else {
      assert (q + [c])[1..] == q[1..] + [c];
      WithoutKeepsLast(q[1..], c, x);
    }
  }

  predicate EndsWith(q: seq<ConnID>, c: ConnID) {
    q != [] && q[|q| - 1] == c
  }

  /** The newest connection survives the eviction, unless the limit on idle connections is negative and it is the only
      one. */
  lemma StoredIsNewest(cfg: Config, s: State, c: ConnID)
    requires c in s.conns && !s.conns[c].closed && c !in s.lru && (forall x :: x in s.lru ==> x in s.conns)
    ensures var t := StoreIdle(cfg, s, c);
            EndsWith(IdleOf(t, s.conns[c].key), c) && EndsWith(t.lru, c) && !t.conns[c].closed
            <==> cfg.maxIdleConns >= 0 || s.lru != []
  {
    var k := s.conns[c].key;
    var u := Listing(s, c);
    if cfg.maxIdleConns != 0 && |u.lru| > cfg.maxIdleConns {
      var x := u.lru[0];
      assert x in u.lru;
      EvictedLists(cfg, u, k);
      if s.lru == [] {
        assert u.lru == [c] && u.lru[1..] == [];
        assert !EndsWith(Without([], x), c);
      } else {
        TailOfLonger(s.lru, c);
        assert x == s.lru[0] && x in s.lru;
        WithoutKeepsLast(IdleOf(s, k), c, x);
        WithoutKeepsLast(s.lru[1..], c, x);
      }
      assert IdleOf(u, k) == IdleOf(s, k) + [c];
      hide Evict, Without, IdleOf;
    }
  }

  lemma TailOfLonger(q: seq<ConnID>, c: ConnID)
    requires q != []
    ensures (q + [c])[0] == q[0] && (q + [c])[1..] == q[1..] + [c]
  {
  }

  lemma EvictedLists(cfg: Config, s: State, k: Key)
    requires s.lru != [] && s.lru[0] in s.conns
    ensures var x, t := s.lru[0], Evict(cfg, s);
            && t.lru == Without(s.lru[1..], x)
            && IdleOf(t, k) == (if s.conns[x].key == k then Without(IdleOf(s, k), x) else IdleOf(s, k))
            && t.conns == s.conns[x := s.conns[x].(closed := true)]
  {
    var x := s.lru[0];
    var u := s.(lru := s.lru[1..]);
    CloseKeepsIdle(cfg, u, x);
    hide CloseConn;
  }

  lemma CloseKeepsIdle(cfg: Config, s: State, c: ConnID)
    requires c in s.conns
    ensures CloseConn(cfg, s, c).idle == s.idle
  {
  }

  /** A returned connection goes to the first request that waits for one, or is refused, which is exactly when nobody may
      keep it, or is the newest idle one. */
  lemma PutGoesToOnePlace(cfg: Config, s: State, c: ConnID)
    requires c in s.conns && !s.conns[c].closed && c !in s.lru && (forall x :: x in s.lru ==> x in s.conns)
    requires c !in IdleOf(s, s.conns[c].key)
    ensures var k := s.conns[c].key;
            var q, (t, ok) := DropDone(s.wants, IdleWaitOf(s, k)), PutLocked(cfg, s, c);
            if q != [] then
              ok && q[0] in s.wants && t.wants == s.wants[q[0] := s.wants[q[0]].(status := HasConn(c))]
              && (t.idle, t.lru, t.conns) == (s.idle, s.lru, s.conns)
            else
              t.wants == s.wants && (ok <==> !s.closeIdle && |IdleOf(s, k)| < cfg.MaxIdlePerHost())
              && (!ok ==> (t.idle, t.lru, t.conns) == (s.idle, s.lru, s.conns))
              && (ok ==> (EndsWith(IdleOf(t, k), c) && EndsWith(t.lru, c) && !t.conns[c].closed
                          <==> cfg.maxIdleConns >= 0 || s.lru != []))
  {
    var k := s.conns[c].key;
    var q := DropDone(s.wants, IdleWaitOf(s, k));
    if q == [] {
      var s1 := s.(idleWait := Store(s.idleWait, k, []));
      assert IdleOf(s1, k) == IdleOf(s, k);
      StoredIsNewest(cfg, s1, c);
      hide StoreIdle, IdleOf, DropDone;
    }
  }
}
