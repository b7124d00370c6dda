/** The Transport object (transport.go): the methods that work on its maps, lists and queues in place, each under its
    lock, against the sections of the pool's state machine. */
module Transport {
  import opened Base
  import opened Pool

  lemma {:induction false} WithoutAt(q: seq<ConnID>, c: ConnID, i: nat)
    requires i < |q| && q[i] == c && c !in q[..i]
    ensures Without(q, c) == q[..i] + q[i + 1..]
  {
    if i > 0 {
      assert q[0] in q[..i];
      assert q[1..][..i - 1] == q[1..i];
      assert forall x :: x in q[1..i] ==> x in q[..i];
      WithoutAt(q[1..], c, i - 1);
      assert [q[0]] + (q[1..i] + q[i + 1..]) == q[..i] + q[i + 1..];
    }
  }

  lemma {:induction false} WithoutNothing(q: seq<ConnID>, c: ConnID)
    requires c !in q
    ensures Without(q, c) == q
  {
    if q != [] {
      WithoutNothing(q[1..], c);
    }
  }

  lemma NothingToSearch(s: State, k: Key, stale: set<ConnID>)
    requires k !in s.idle
    ensures Trim(s.conns, IdleOf(s, k), stale) == [] && Skipped(s.conns, IdleOf(s, k), stale) == {} && Store(s.idle, k, []) == s.idle
  {
  }

  lemma StoreOne<T>(m: map<Key, seq<T>>, k: Key, q: seq<T>)
    requires q != []
    ensures Store(m, k, q) == m[k := q]
  {
  }

  lemma StoreTwice<T>(m: map<Key, seq<T>>, k: Key, q: seq<T>, r: seq<T>)
    ensures Store(Store(m, k, q), k, r) == Store(m, k, r)
  {
  }

  lemma FoundIdle(cfg: Config, s: State, t: State, w: WantID, stale: set<ConnID>, delivered: bool)
    requires w in s.wants && !cfg.disableKeepAlives && s.wants[w].key in s.idle
    requires var k := s.wants[w].key;
             var kept := Trim(s.conns, s.idle[k], stale);
             && kept != []
             && delivered == IsWaiting(s.wants, w)
             && t == s.(closeIdle := false, reaping := s.reaping + Skipped(s.conns, s.idle[k], stale),
                        idle := Store(s.idle, k, if delivered then kept[..|kept| - 1] else kept),
                        lru := if delivered then Without(s.lru, kept[|kept| - 1]) else s.lru,
                        wants := if delivered then s.wants[w := s.wants[w].(status := HasConn(kept[|kept| - 1]))] else s.wants)
    ensures (t, delivered) == QueueForIdle(cfg, s, w, stale)
  {
    var k := s.wants[w].key;
    var kept := Trim(s.conns, s.idle[k], stale);
    StoreTwice(s.idle, k, kept, kept[..|kept| - 1]);
    hide Trim, Store, Skipped, Without, DropDone;
  }

  lemma NoneIdle(cfg: Config, s: State, u: State, t: State, w: WantID, stale: set<ConnID>)
    requires w in s.wants && !cfg.disableKeepAlives
    requires var k := s.wants[w].key;
             && Trim(s.conns, IdleOf(s, k), stale) == []
             && u == s.(closeIdle := false, reaping := s.reaping + Skipped(s.conns, IdleOf(s, k), stale), idle := Store(s.idle, k, []))
             && t == u.(idleWait := u.idleWait[k := DropDone(s.wants, IdleWaitOf(s, k)) + [w]])
    ensures (t, false) == QueueForIdle(cfg, s, w, stale)
  {
    StoreOne(s.idleWait, s.wants[w].key, DropDone(s.wants, IdleWaitOf(s, s.wants[w].key)) + [w]);
    hide Trim, Store, Skipped, Without, DropDone, IdleOf, IdleWaitOf;
  }

  lemma NoTail(list: seq<ConnID>)
    ensures TailSet(list, |list|) == {}
  {
  }

  lemma TailSetGrows(list: seq<ConnID>, n: nat)
    requires 0 < n <= |list|
    ensures TailSet(list, n - 1) == TailSet(list, n) + {list[n - 1]}
  {
    assert list[n - 1..] == [list[n - 1]] + list[n..];
  }

  lemma SlotHandedOver(cfg: Config, s: State, t: State, key: Key)
    requires cfg.maxConnsPerHost > 0 && CountOf(s, key) > 0
    requires var q := DropDone(s.wants, DialWaitOf(s, key));
             q != [] && t == s.(dialWait := Store(s.dialWait, key, q[1..]), dials := s.dials[q[0] := Started])
    ensures t == Dec(cfg, s, key)
  {
    hide DropDone, Store;
  }

  lemma SlotGivenUp(cfg: Config, s: State, t: State, key: Key)
    requires cfg.maxConnsPerHost > 0 && CountOf(s, key) > 0 && DropDone(s.wants, DialWaitOf(s, key)) == []
    requires t == s.(dialWait := if DialWaitOf(s, key) == [] then s.dialWait else s.dialWait - {key},
                     count := if CountOf(s, key) == 1 then s.count - {key} else s.count[key := CountOf(s, key) - 1])
    ensures t == Dec(cfg, s, key)
  {
    hide DropDone;
  }

  datatype PutError = KeepAlivesDisabled | ConnBroken | CloseIdleCalled | TooManyIdleHost

  class Transport {
    const cfg: Config
    var wants: map<WantID, Want>
    var conns: map<ConnID, Conn>
    var idleConn: map<Key, seq<ConnID>>
    var idleLRU: seq<ConnID>
    var closeIdle: bool
    var idleConnWait: map<Key, seq<WantID>>
    var connsPerHostWait: map<Key, seq<WantID>>
    var connsPerHost: map<Key, nat>
    var toDial: set<WantID>
    var dials: map<WantID, Phase>
    var inUse: set<ConnID>
    var returning: set<ConnID>
    var checked: set<ConnID>
    var closing: set<ConnID>
    var reaping: set<ConnID>
    var panicked: bool

    constructor (cfg: Config)
      ensures this.cfg == cfg && View() == EMPTY
    {
      this.cfg := cfg;
      wants, conns, idleConn, idleLRU, closeIdle := map[], map[], map[], [], false;
      idleConnWait, connsPerHostWait, connsPerHost, toDial, dials := map[], map[], map[], {}, map[];
      inUse, returning, checked, closing, reaping, panicked := {}, {}, {}, {}, {}, false;
    }

    ghost function View(): State
      reads this
    {
      State(wants, conns, idleConn, idleLRU, closeIdle, idleConnWait, connsPerHostWait, connsPerHost, toDial, dials,
            inUse, returning, checked, closing, reaping, panicked)
    }

    /** wantConn.tryDeliver. */
    method TryDeliver(w: WantID, c: ConnID) returns (delivered: bool)
      requires w in wants
      modifies this`wants
      ensures delivered == IsWaiting(old(wants), w)
      ensures View() == if delivered then SetStatus(old(View()), w, HasConn(c)) else old(View())
    {
      if wants[w].status != Waiting {
        return false;
      }
      wants := wants[w := wants[w].(status := HasConn(c))];
      return true;
    }

    /** wantConnQueue.cleanFrontNotWaiting. */
    method CleanFrontNotWaiting(q: seq<WantID>) returns (r: seq<WantID>)
      ensures r == DropDone(wants, q)
    {
      r := q;
      while |r| > 0 && !IsWaiting(wants, r[0])
        invariant DropDone(wants, r) == DropDone(wants, q)
      {
        r := r[1..];
      }
    }

    method StartDialConnForLocked(w: WantID)
      modifies this`dials
      ensures View() == StartDial(old(View()), w)
    {
      dials := dials[w := Started];
    }

    /** The first request in the queue that still waits gets to dial. */
    method StartFirstWaiting(queue: seq<WantID>) returns (q: seq<WantID>, done: bool)
      modifies this`dials
      ensures var first := DropDone(wants, queue);
              && done == (first != []) && q == (if done then first[1..] else [])
              && dials == if done then old(dials)[first[0] := Started] else old(dials)
    {
      q, done := queue, false;
      ghost var first := DropDone(wants, queue);
      while |q| > 0 && !done
        invariant if done then first != [] && q == first[1..] && dials == old(dials)[first[0] := Started]
                  else DropDone(wants, q) == first && dials == old(dials)
        decreases |q|, !done
      {
        var w := q[0];
        q := q[1..];
        if IsWaiting(wants, w) {
          StartDialConnForLocked(w);
          done := true;
        }
      }
    }

    method DecConnsPerHost(key: Key)
      modifies this`connsPerHostWait, this`connsPerHost, this`dials, this`panicked
      ensures View() == Dec(cfg, old(View()), key)
    {
      if cfg.maxConnsPerHost <= 0 {
        return;
      }
      var n := if key in connsPerHost then connsPerHost[key] else 0;
      if n == 0 {
        panicked := true;
        return;
      }
      var q := if key in connsPerHostWait then connsPerHostWait[key] else [];
      ghost var first := DropDone(wants, q);
      if |q| > 0 {
        var done;
        q, done := StartFirstWaiting(q);
        if |q| == 0 {
          connsPerHostWait := connsPerHostWait - {key};
        } else {
          connsPerHostWait := connsPerHostWait[key := q];
        }
        if done {
          hide DropDone, Dec;
          SlotHandedOver(cfg, old(View()), View(), key);
          return;
        }
      }
      assert first == [];
      if n == 1 {
        connsPerHost := connsPerHost - {key};
      } else {
        connsPerHost := connsPerHost[key := n - 1];
      }
      hide DropDone, Dec;
      SlotGivenUp(cfg, old(View()), View(), key);
    }

    /** persistConn.closeLocked. */
    method CloseLocked(c: ConnID)
      requires c in conns
      modifies this`conns, this`connsPerHostWait, this`connsPerHost, this`dials, this`panicked
      ensures View() == CloseConn(cfg, old(View()), c)
    {
      if !conns[c].closed {
        conns := conns[c := conns[c].(closed := true)];
        DecConnsPerHost(conns[c].key);
      }
    }

    method QueueForDial(w: WantID)
      requires w in wants
      modifies this`connsPerHostWait, this`connsPerHost, this`dials
      ensures View() == Pool.QueueForDial(cfg, old(View()), w)
    {
      if cfg.maxConnsPerHost <= 0 {
        StartDialConnForLocked(w);
        return;
      }
      var key := wants[w].key;
      var n := if key in connsPerHost then connsPerHost[key] else 0;
      if n < cfg.maxConnsPerHost {
        connsPerHost := connsPerHost[key := n + 1];
        StartDialConnForLocked(w);
        return;
      }
      var q := if key in connsPerHostWait then connsPerHostWait[key] else [];
      q := CleanFrontNotWaiting(q);
      q := q + [w];
      connsPerHostWait := connsPerHostWait[key := q];
    }

    /** connLRU.remove. */
    method RemoveFromLRU(c: ConnID)
      modifies this`idleLRU
      ensures idleLRU == Without(old(idleLRU), c)
    {
      var i := 0;
      while i < |idleLRU| && idleLRU[i] != c
        invariant i <= |idleLRU| && c !in idleLRU[..i]
      {
        i := i + 1;
      }
      if i < |idleLRU| {
        WithoutAt(idleLRU, c, i);
        idleLRU := idleLRU[..i] + idleLRU[i + 1..];
      } else {
        assert idleLRU[..i] == idleLRU;
        WithoutNothing(idleLRU, c);
      }
    }

    method RemoveIdleConnLocked(c: ConnID) returns (removed: bool)
      requires c in conns
      modifies this`idleLRU, this`idleConn
      ensures View() == RemoveIdle(old(View()), c)
      ensures removed == (c in IdleOf(old(View()), conns[c].key))
    {
      RemoveFromLRU(c);
      var key := conns[c].key;
      var pconns := if key in idleConn then idleConn[key] else [];
      removed := false;
      if |pconns| == 0 {
        // the host keeps no idle connection
      } else if |pconns| == 1 {
        if pconns[0] == c {
          idleConn := idleConn - {key};
          removed := true;
        } else {
          WithoutNothing(pconns, c);
          assert idleConn[key := pconns] == idleConn;
        }
      } else {
        var i := 0;
        while i < |pconns| && pconns[i] != c
          invariant i <= |pconns| && c !in pconns[..i]
        {
          i := i + 1;
        }
        if i < |pconns| {
          WithoutAt(pconns, c, i);
          idleConn := idleConn[key := pconns[..i] + pconns[i + 1..]];
          removed := true;
        } else {
          assert pconns[..i] == pconns;
          WithoutNothing(pconns, c);
          assert idleConn[key := pconns] == idleConn;
        }
      }
    }

    method CloseConnIfStillIdle(c: ConnID)
      requires c in conns
      modifies this
      ensures View() == Reap(cfg, old(View()), c)
    {
      if c !in idleLRU {
        return;
      }
      var _ := RemoveIdleConnLocked(c);
      CloseLocked(c);
    }

    /** The search of queueForIdleConn through the idle list of key, from its most recently used end. */
    method SearchIdleList(key: Key, w: WantID, stale: set<ConnID>) returns (stop: bool, delivered: bool)
      requires w in wants && key in idleConn
      modifies this`wants, this`idleConn, this`idleLRU, this`reaping
      ensures var kept := Trim(conns, old(idleConn)[key], stale);
              && stop == (kept != [])
              && delivered == (stop && IsWaiting(old(wants), w))
              && reaping == old(reaping) + Skipped(conns, old(idleConn)[key], stale)
              && idleConn == Store(old(idleConn), key, if delivered then kept[..|kept| - 1] else kept)
              && idleLRU == (if delivered then Without(old(idleLRU), kept[|kept| - 1]) else old(idleLRU))
              && wants == (if delivered then old(wants)[w := old(wants)[w].(status := HasConn(kept[|kept| - 1]))] else old(wants))
    {
      hide TailSet, Without;
      var list := idleConn[key];
      ghost var all := list;
      ghost var kept := Trim(conns, all, stale);
      NoTail(all);
      stop, delivered := false, false;
      while |list| > 0 && !stop
        invariant kept <= list <= all && idleConn == old(idleConn)
        invariant !stop ==> Trim(conns, list, stale) == kept && !delivered
        invariant stop ==> list == kept && kept != [] && delivered == IsWaiting(old(wants), w)
        invariant reaping == old(reaping) + TailSet(all, |list|) * stale
        invariant idleLRU == (if delivered then Without(old(idleLRU), kept[|kept| - 1]) else old(idleLRU))
        invariant wants == (if delivered then old(wants)[w := old(wants)[w].(status := HasConn(kept[|kept| - 1]))] else old(wants))
        decreases |list|, !stop
      {
        var c := list[|list| - 1];
        var tooOld := c in stale;
        if tooOld {
          reaping := reaping + {c};
        }
        if (c in conns && conns[c].closed) || tooOld {
          TailSetGrows(all, |list|);
          list := list[..|list| - 1];
          continue;
        }
        delivered := TryDeliver(w, c);
        if delivered {
          RemoveFromLRU(c);
        }
        stop := true;
      }
      if delivered {
        list := list[..|list| - 1];
      }
      if |list| > 0 {
        idleConn := idleConn[key := list];
      } else {
        idleConn := idleConn - {key};
      }
    }

    /** The idle list of the request's key is searched, if there is one. */
    method SearchIdle(w: WantID, stale: set<ConnID>) returns (stop: bool, delivered: bool)
      requires w in wants && !cfg.disableKeepAlives
      modifies this`wants, this`idleConn, this`idleLRU, this`reaping, this`closeIdle
      ensures var s, k := old(View()), old(wants)[w].key;
              if stop then (View(), delivered) == QueueForIdle(cfg, s, w, stale)
              else (Trim(s.conns, IdleOf(s, k), stale) == []
                 && View() == s.(closeIdle := false, reaping := s.reaping + Skipped(s.conns, IdleOf(s, k), stale), idle := Store(s.idle, k, [])))
    {
      hide Trim, TailSet, Without, DropDone, Store, Skipped;
      closeIdle := false;
      var key := wants[w].key;
      if key in idleConn {
        stop, delivered := SearchIdleList(key, w, stale);
        if stop {
          FoundIdle(cfg, old(View()), View(), w, stale, delivered);
        }
        hide QueueForIdle;
      } else {
        NothingToSearch(old(View()), key, stale);
        assert reaping == reaping + {};
        hide QueueForIdle;
        stop, delivered := false, false;
      }
    }

    /** queueForIdleConn: the most recently used connection that is neither broken nor too old, or a place in the
        queue for the next one. */
    method QueueForIdleConn(w: WantID, stale: set<ConnID>) returns (delivered: bool)
      requires w in wants
      modifies this
      ensures (View(), delivered) == QueueForIdle(cfg, old(View()), w, stale)
    {
      hide Trim, DropDone, Store, Skipped, IdleOf;
      if cfg.disableKeepAlives {
        return false;
      }
      hide QueueForIdle;
      var stop;
      stop, delivered := SearchIdle(w, stale);
      if stop {
        return;
      }
      ghost var searched := View();
      RegisterToReceive(wants[w].key, w);
      NoneIdle(cfg, old(View()), searched, View(), w, stale);
      return false;
    }

    /** The request is queued for the next idle connection. */
    method RegisterToReceive(key: Key, w: WantID)
      modifies this`idleConnWait
      ensures idleConnWait == old(idleConnWait)[key := DropDone(wants, IdleWaitOf(old(View()), key)) + [w]]
    {
      var q := if key in idleConnWait then idleConnWait[key] else [];
      q := CleanFrontNotWaiting(q);
      q := q + [w];
      idleConnWait := idleConnWait[key := q];
    }

    method CloseIdleConnections()
      modifies this`idleConn, this`closeIdle, this`idleLRU, this`closing
      ensures View() == CloseIdle(old(View()))
    {
      var m := idleConn;
      idleConn, closeIdle, idleLRU := map[], true, [];
      closing := closing + AllListed(m);
    }

    /** tryPutIdleConn: why the connection was not taken, if it was not. */
    method TryPutIdleConn(c: ConnID) returns (err: Option<PutError>)
      requires c in conns
      modifies this
      ensures if cfg.disableKeepAlives || cfg.maxIdleConnsPerHost < 0 then err == Some(KeepAlivesDisabled) && View() == old(View())
              else if old(conns)[c].closed then err == Some(ConnBroken) && View() == old(View())
              else (View(), err == None) == PutLocked(cfg, old(View()), c)
    {
      if cfg.disableKeepAlives || cfg.maxIdleConnsPerHost < 0 {
        return Some(KeepAlivesDisabled);
      }
      if conns[c].closed {
        return Some(ConnBroken);
      }
      hide DropDone, StoreIdle, Store;
      var key := conns[c].key;
      var done := DeliverToWaiting(key, c);
      if done {
        return None;
      }
      if closeIdle {
        return Some(CloseIdleCalled);
      }
      var idles := if key in idleConn then idleConn[key] else [];
      if |idles| >= cfg.MaxIdlePerHost() {
        return Some(TooManyIdleHost);
      }
      for i := 0 to |idles|
        invariant c !in idles[..i]
        invariant View() == old(View()).(idleWait := idleConnWait)
      {
        if idles[i] == c {
          panicked := true;
          return None;
        }
      }
      assert idles[..|idles|] == idles;
      if c in idleLRU {
        panicked := true;
        return None;
      }
      AddIdle(c);
      return None;
    }

    /** The connection is listed as idle; the oldest one gives way. */
    method AddIdle(c: ConnID)
      requires c in conns
      modifies this
      ensures View() == StoreIdle(cfg, old(View()), c)
    {
      var key := conns[c].key;
      var idles := if key in idleConn then idleConn[key] else [];
      idleConn := idleConn[key := idles + [c]];
      idleLRU := idleLRU + [c];
      assert View() == Listing(old(View()), c);
      hide Listing;
      if cfg.maxIdleConns != 0 && |idleLRU| > cfg.maxIdleConns && idleLRU[0] in conns {
        EvictOldest();
      }
    }

    /** Pops requests off the queue of key until one takes the connection. */
    method DeliverToWaiting(key: Key, c: ConnID) returns (done: bool)
      modifies this`wants, this`idleConnWait
      ensures var q := DropDone(old(wants), IdleWaitOf(old(View()), key));
              && done == (q != [])
              && idleConnWait == Store(old(idleConnWait), key, if done then q[1..] else [])
              && wants == if done then old(wants)[q[0] := old(wants)[q[0]].(status := HasConn(c))] else old(wants)
    {
      done := false;
      if key !in idleConnWait {
        assert idleConnWait - {key} == idleConnWait;
        return;
      }
      var q := idleConnWait[key];
      ghost var first := DropDone(wants, q);
      while |q| > 0 && !done
        invariant idleConnWait == old(idleConnWait)
        invariant if done then first != [] && q == first[1..] && wants == old(wants)[first[0] := old(wants)[first[0]].(status := HasConn(c))]
                  else DropDone(wants, q) == first && wants == old(wants)
        decreases |q|, !done
      {
        var w := q[0];
        q := q[1..];
        if w in wants {
          done := TryDeliver(w, c);
        }
      }
      if |q| == 0 {
        idleConnWait := idleConnWait - {key};
      } else {
        idleConnWait := idleConnWait[key := q];
      }
    }

    method EvictOldest()
      requires idleLRU != [] && idleLRU[0] in conns
      modifies this
      ensures View() == Evict(cfg, old(View()))
    {
      hide Dec, Without, CloseConn, RemoveIdle;
      var oldest := idleLRU[0];
      idleLRU := idleLRU[1..];
      CloseLocked(oldest);
      var _ := RemoveIdleConnLocked(oldest);
    }
  }
}
