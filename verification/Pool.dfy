/** The HTTP/1 connection pool (transport.go): idle lists, LRU, two wait queues, per-host counts, and the race of
    dialling, delivery and cancellation. Each section under a lock is one step; connections and requests are
    names, and what the source keeps in their objects is in two tables. HTTP/2 entries are left out. */
module Pool {
  import opened Base

  type Key = nat
  type ConnID = nat
  type WantID = nat

  const DEFAULT_MAX_IDLE_CONNS_PER_HOST := 2

  datatype Config = Config(maxConnsPerHost: int, maxIdleConns: int, maxIdleConnsPerHost: int,
                           disableKeepAlives: bool, idleConnTimeout: nat) {
    function MaxIdlePerHost(): int {
      if maxIdleConnsPerHost != 0 then maxIdleConnsPerHost else DEFAULT_MAX_IDLE_CONNS_PER_HOST
    }
  }

  /** A wantConn: whether it is done, and what its result channel holds. */
  datatype Status = Waiting | HasConn(pc: ConnID) | HasError | Finished

  datatype Want = Want(key: Key, status: Status)

  /** A persistConn, open until something closes it. */
  datatype Conn = Conn(key: Key, closed: bool)

  /** Where the goroutine that dials for a request is: not yet begun, dialling, holding a new connection, or about
      to give its slot back after a failure. */
  datatype Phase = Started | Dialling | Connected(pc: ConnID) | Failed

  datatype State = State(
    wants: map<WantID, Want>,
    conns: map<ConnID, Conn>,
    idle: map<Key, seq<ConnID>>,     // idleConn: most recently used last
    lru: seq<ConnID>,                // idleLRU: oldest first
    closeIdle: bool,
    idleWait: map<Key, seq<WantID>>, // idleConnWait
    dialWait: map<Key, seq<WantID>>, // connsPerHostWait
    count: map<Key, nat>,            // connsPerHost
    toDial: set<WantID>,             // between queueForIdleConn and queueForDial
    dials: map<WantID, Phase>,
    inUse: set<ConnID>,              // received by a request
    returning: set<ConnID>,          // on the way to tryPutIdleConn
    checked: set<ConnID>,            // past its first checks, before its lock
    closing: set<ConnID>,            // about to be closed
    reaping: set<ConnID>,            // closeConnIfStillIdle launched
    panicked: bool)

  const EMPTY := State(map[], map[], map[], [], false, map[], map[], map[], {}, map[], {}, {}, {}, {}, {}, false)

  function IdleOf(s: State, k: Key): seq<ConnID> {
    if k in s.idle then s.idle[k] else []
  }

  function IdleWaitOf(s: State, k: Key): seq<WantID> {
    if k in s.idleWait then s.idleWait[k] else []
  }

  function DialWaitOf(s: State, k: Key): seq<WantID> {
    if k in s.dialWait then s.dialWait[k] else []
  }

  function CountOf(s: State, k: Key): nat {
    if k in s.count then s.count[k] else 0
  }

  /** Storing a list under a key; an empty one is deleted. */
  function Store<T>(m: map<Key, seq<T>>, k: Key, q: seq<T>): map<Key, seq<T>> {
    if q == [] then m - {k} else m[k := q]
  }

  predicate IsWaiting(wants: map<WantID, Want>, w: WantID) {
    w in wants && wants[w].status == Waiting
  }

  /** What is left of a queue after its longest prefix of requests that wait no more. */
  function DropDone(wants: map<WantID, Want>, q: seq<WantID>): (r: seq<WantID>)
    ensures r != [] ==> IsWaiting(wants, r[0])
  {
    if q == [] || IsWaiting(wants, q[0]) then q else DropDone(wants, q[1..])
  }

  /** A list without the first occurrence of c. */
  function Without(q: seq<ConnID>, c: ConnID): (r: seq<ConnID>)
    ensures |r| <= |q|
  {
    if q == [] then []
    else if q[0] == c then q[1..]
    else [q[0]] + Without(q[1..], c)
  }

  /** Connections keep their keys, and none reopens. */
  ghost predicate OnlyCloses(before: map<ConnID, Conn>, after: map<ConnID, Conn>) {
    && before.Keys == after.Keys
    && forall c :: c in before ==> after[c].key == before[c].key && (before[c].closed ==> after[c].closed)
  }

  /** Requests keep their keys, a result once given stays until it is taken or given back, and nothing follows it. */
  ghost predicate Answers(before: map<WantID, Want>, after: map<WantID, Want>) {
    forall w :: w in before ==>
      && w in after
      && after[w].key == before[w].key
      && (before[w].status == Waiting || after[w].status == before[w].status || after[w].status == Finished)
  }

  // ----- The sections under the locks -----

  function SetStatus(s: State, w: WantID, st: Status): (t: State)
    requires w in s.wants
    ensures t.lru == s.lru && t.conns == s.conns
  {
    s.(wants := s.wants[w := s.wants[w].(status := st)])
  }

  function StartDial(s: State, w: WantID): (t: State)
    ensures t.lru == s.lru && t.conns == s.conns && t.wants == s.wants
  {
    s.(dials := s.dials[w := Started])
  }

  function SetCount(s: State, k: Key, n: nat): (t: State)
    ensures t.lru == s.lru && t.conns == s.conns && t.wants == s.wants
  {
    s.(count := if n == 0 then s.count - {k} else s.count[k := n])
  }

  /** What decConnsPerHost works on, and whether it met a count of zero. */
  datatype Hosts = Hosts(dialWait: map<Key, seq<WantID>>, dials: map<WantID, Phase>, count: map<Key, nat>, underflow: bool)

  /** decConnsPerHost: hand the slot to the first request still waiting to dial, else count one less. */
  function Release(cfg: Config, wants: map<WantID, Want>, h: Hosts, k: Key): Hosts {
    if cfg.maxConnsPerHost <= 0 then h
    else if k !in h.count || h.count[k] == 0 then h.(underflow := true)
    else
      var all := if k in h.dialWait then h.dialWait[k] else [];
      var q := DropDone(wants, all);
      if q != [] then h.(dialWait := Store(h.dialWait, k, q[1..]), dials := h.dials[q[0] := Started])
      else h.(dialWait := if all == [] then h.dialWait else Store(h.dialWait, k, []), count := if h.count[k] == 1 then h.count - {k} else h.count[k := h.count[k] - 1])
  }

  function Dec(cfg: Config, s: State, k: Key): (t: State)
    ensures t.conns == s.conns && t.lru == s.lru && t.wants == s.wants
  {
    var h := Release(cfg, s.wants, Hosts(s.dialWait, s.dials, s.count, s.panicked), k);
    s.(dialWait := h.dialWait, dials := h.dials, count := h.count, panicked := h.underflow)
  }

  /** closeLocked: only the first close counts. */
  function CloseConn(cfg: Config, s: State, c: ConnID): (t: State)
    requires c in s.conns
    ensures t.conns == s.conns[c := s.conns[c].(closed := true)] && t.lru == s.lru && t.wants == s.wants
  {
    if s.conns[c].closed then s
    else Dec(cfg, s.(conns := s.conns[c := s.conns[c].(closed := true)]), s.conns[c].key)
  }

  /** queueForDial. */
  function QueueForDial(cfg: Config, s: State, w: WantID): (t: State)
    requires w in s.wants
    ensures t.lru == s.lru && t.conns == s.conns && t.wants == s.wants
  {
    var k := s.wants[w].key;
    if cfg.maxConnsPerHost <= 0 then StartDial(s, w)
    else if CountOf(s, k) < cfg.maxConnsPerHost then StartDial(SetCount(s, k, CountOf(s, k) + 1), w)
    else s.(dialWait := Store(s.dialWait, k, DropDone(s.wants, DialWaitOf(s, k)) + [w]))
  }

  /** The most recently used part of an idle list that is neither broken nor too old ends the result. */
  function Trim(conns: map<ConnID, Conn>, list: seq<ConnID>, stale: set<ConnID>): (kept: seq<ConnID>)
    ensures kept <= list
  {
    if list == [] then []
    else
      var c := list[|list| - 1];
      if c in stale || (c in conns && conns[c].closed) then Trim(conns, list[..|list| - 1], stale) else list
  }

  function TailSet(list: seq<ConnID>, n: nat): set<ConnID>
    requires n <= |list|
  {
    set c | c in list[n..]
  }

  /** The skipped connections that queueForIdleConn sends closeConnIfStillIdle after. */
  function Skipped(conns: map<ConnID, Conn>, list: seq<ConnID>, stale: set<ConnID>): set<ConnID> {
    TailSet(list, |Trim(conns, list, stale)|) * stale
  }

  /** queueForIdleConn for request w; `stale` are the connections idle for too long. */
  function QueueForIdle(cfg: Config, s: State, w: WantID, stale: set<ConnID>): (r: (State, bool))
    requires w in s.wants
    ensures r.0.conns == s.conns && |r.0.lru| <= |s.lru|
  {
    if cfg.disableKeepAlives then (s, false)
    else
      var k := s.wants[w].key;
      var list := IdleOf(s, k);
      var kept := Trim(s.conns, list, stale);
      var s1 := s.(closeIdle := false, reaping := s.reaping + Skipped(s.conns, list, stale), idle := Store(s.idle, k, kept));
      if kept != [] then
        if !IsWaiting(s.wants, w) then (s1, false)
        else
          var c := kept[|kept| - 1];
          (SetStatus(s1, w, HasConn(c)).(idle := Store(s1.idle, k, kept[..|kept| - 1]), lru := Without(s1.lru, c)), true)
      else (s1.(idleWait := Store(s1.idleWait, k, DropDone(s.wants, IdleWaitOf(s, k)) + [w])), false)
  }

  /** removeIdleConnLocked. */
  function RemoveIdle(s: State, c: ConnID): (t: State)
    requires c in s.conns
    ensures |t.lru| <= |s.lru| && t.conns == s.conns && t.wants == s.wants
  {
    var k := s.conns[c].key;
    s.(lru := Without(s.lru, c), idle := if IdleOf(s, k) == [] then s.idle else Store(s.idle, k, Without(IdleOf(s, k), c)))
  }

  /** The oldest idle connection leaves the LRU, is closed, and leaves its list. */
  function Evict(cfg: Config, s: State): (t: State)
    requires s.lru != [] && s.lru[0] in s.conns
    ensures |t.lru| < |s.lru| && OnlyCloses(s.conns, t.conns) && t.wants == s.wants
  {
    var oldest := s.lru[0];
    RemoveIdle(CloseConn(cfg, s.(lru := s.lru[1..]), oldest), oldest)
  }

  /** The connection goes to the end of its list and the front of the LRU, which may then be over its limit. */
  function StoreIdle(cfg: Config, s: State, c: ConnID): (t: State)
    requires c in s.conns
    ensures OnlyCloses(s.conns, t.conns) && t.wants == s.wants
    ensures |t.lru| <= |s.lru| || cfg.maxIdleConns == 0 || |t.lru| <= cfg.maxIdleConns || (s.lru + [c])[0] !in s.conns
  {
    var t := Listing(s, c);
    if cfg.maxIdleConns != 0 && |t.lru| > cfg.maxIdleConns && t.lru[0] in t.conns then Evict(cfg, t) else t
  }

  function Listing(s: State, c: ConnID): (t: State)
    requires c in s.conns
    ensures t.conns == s.conns && t.lru == s.lru + [c] && t.wants == s.wants
  {
    s.(idle := s.idle[s.conns[c].key := IdleOf(s, s.conns[c].key) + [c]], lru := s.lru + [c])
  }

  /** The part of tryPutIdleConn under its lock, for a connection that passed the checks before it; true when the
      connection was delivered or stored. */
  function PutLocked(cfg: Config, s: State, c: ConnID): (r: (State, bool))
    requires c in s.conns
    ensures OnlyCloses(s.conns, r.0.conns) && Answers(s.wants, r.0.wants)
    ensures |r.0.lru| <= |s.lru| || cfg.maxIdleConns == 0 || |r.0.lru| <= cfg.maxIdleConns || (s.lru + [c])[0] !in s.conns
  {
    var k := s.conns[c].key;
    var q := DropDone(s.wants, IdleWaitOf(s, k));
    var s1 := s.(idleWait := Store(s.idleWait, k, if q == [] then [] else q[1..]));
    if q != [] then (SetStatus(s1, q[0], HasConn(c)), true)
    else if s.closeIdle then (s1, false)
    else if |IdleOf(s, k)| >= cfg.MaxIdlePerHost() then (s1, false)
    else if c in IdleOf(s, k) || c in s.lru then (s1.(panicked := true), true)
    else (StoreIdle(cfg, s1, c), true)
  }

  function AllListed(idle: map<Key, seq<ConnID>>): set<ConnID> {
    set k, i | k in idle && 0 <= i < |idle[k]| :: idle[k][i]
  }

  /** CloseIdleConnections under its lock; the connections it took are then closed one by one. */
  function CloseIdle(s: State): State {
    s.(closing := s.closing + AllListed(s.idle), idle := map[], closeIdle := true, lru := [])
  }

  /** closeConnIfStillIdle. */
  function Reap(cfg: Config, s: State, c: ConnID): State
    requires c in s.conns
  {
    if c in s.lru then CloseConn(cfg, RemoveIdle(s, c), c) else s
  }

  // ----- Steps -----

  datatype Step =
    | GetConn(w: WantID, k: Key, stale: set<ConnID>)
    | QueueDial(w: WantID)
    | DialBegin(w: WantID)
    | DialConnected(w: WantID, c: ConnID)
    | DialFailed(w: WantID)
    | DialDeliver(w: WantID)
    | DialGiveBack(w: WantID)
    | Receive(w: WantID)
    | Cancel(w: WantID)
    | EndUse(c: ConnID, reusable: bool)
    | PutCheck(c: ConnID)
    | PutIdle(c: ConnID)
    | FinishClose(c: ConnID)
    | CloseAny(c: ConnID)     // the server hangs up, a write fails, a request is cancelled
    | DropClosed(c: ConnID)   // removeIdleConn when the read loop of a closed connection ends
    | ReapIdle(c: ConnID)     // an idle timer, or the clean-up of a connection that was too old
    | CloseIdleConns

  predicate Enabled(cfg: Config, s: State, step: Step) {
    match step
    case GetConn(w, k, stale) => w !in s.wants && (cfg.idleConnTimeout == 0 ==> stale == {})
    case QueueDial(w) => w in s.toDial && w in s.wants
    case DialBegin(w) => w in s.dials && s.dials[w] == Started && w in s.wants
    case DialConnected(w, c) => w in s.dials && s.dials[w] == Dialling && w in s.wants && c !in s.conns
    case DialFailed(w) => w in s.dials && s.dials[w] == Dialling && w in s.wants
    case DialDeliver(w) => w in s.dials && s.dials[w].Connected? && w in s.wants
    case DialGiveBack(w) => w in s.dials && s.dials[w] == Failed && w in s.wants
    case Receive(w) => w in s.wants && w !in s.toDial && (s.wants[w].status.HasConn? || s.wants[w].status == HasError)
    case Cancel(w) => w in s.wants && w !in s.toDial
    case EndUse(c, _) => c in s.inUse
    case PutCheck(c) => c in s.returning && c in s.conns
    case PutIdle(c) => c in s.checked && c in s.conns
    case FinishClose(c) => c in s.closing && c in s.conns
    case CloseAny(c) => c in s.conns
    case DropClosed(c) => c in s.conns && s.conns[c].closed
    case ReapIdle(c) => c in s.conns && cfg.idleConnTimeout > 0
    case CloseIdleConns => true
  }

  /** A request begins: queueForIdleConn, and queueForDial is due unless a connection was delivered. */
  function AfterGetConn(cfg: Config, s: State, w: WantID, k: Key, stale: set<ConnID>): (t: State)
    ensures t.conns == s.conns && |t.lru| <= |s.lru|
  {
    var (s1, delivered) := QueueForIdle(cfg, s.(wants := s.wants[w := Want(k, Waiting)]), w, stale);
    if delivered then s1 else s1.(toDial := s1.toDial + {w})
  }

  function AfterDialBegin(cfg: Config, s: State, w: WantID): (t: State)
    requires w in s.wants
    ensures t.lru == s.lru && t.conns == s.conns && t.wants == s.wants
  {
    if IsWaiting(s.wants, w) then s.(dials := s.dials[w := Dialling])
    else Dec(cfg, s.(dials := s.dials - {w}), s.wants[w].key)
  }

  function AfterDialFailed(s: State, w: WantID): (t: State)
    requires w in s.wants
    ensures t.lru == s.lru && t.conns == s.conns && Answers(s.wants, t.wants)
  {
    var s1 := s.(dials := s.dials[w := Failed]);
    if IsWaiting(s.wants, w) then SetStatus(s1, w, HasError) else s1
  }

  function AfterDialDeliver(s: State, w: WantID): (t: State)
    requires w in s.wants && w in s.dials && s.dials[w].Connected?
    ensures t.lru == s.lru && t.conns == s.conns && Answers(s.wants, t.wants)
  {
    var s1 := s.(dials := s.dials - {w});
    if IsWaiting(s.wants, w) then SetStatus(s1, w, HasConn(s.dials[w].pc)) else s1.(returning := s1.returning + {s.dials[w].pc})
  }

  function AfterReceive(s: State, w: WantID): (t: State)
    requires w in s.wants
    ensures t.lru == s.lru && t.conns == s.conns && Answers(s.wants, t.wants)
  {
    var s1 := SetStatus(s, w, Finished);
    if s.wants[w].status.HasConn? then s1.(inUse := s1.inUse + {s.wants[w].status.pc}) else s1
  }

  /** wantConn.cancel: a connection that was delivered meanwhile goes back to the pool. */
  function AfterCancel(s: State, w: WantID): (t: State)
    requires w in s.wants
    ensures t.lru == s.lru && t.conns == s.conns && Answers(s.wants, t.wants)
  {
    var s1 := SetStatus(s, w, Finished);
    if s.wants[w].status.HasConn? then s1.(returning := s1.returning + {s.wants[w].status.pc}) else s1
  }

  function AfterEndUse(s: State, c: ConnID, reusable: bool): (t: State)
    ensures t.lru == s.lru && t.conns == s.conns && t.wants == s.wants
  {
    if reusable then s.(inUse := s.inUse - {c}, returning := s.returning + {c})
    else s.(inUse := s.inUse - {c}, closing := s.closing + {c})
  }

  function AfterPutCheck(cfg: Config, s: State, c: ConnID): (t: State)
    requires c in s.conns
    ensures t.lru == s.lru && t.conns == s.conns && t.wants == s.wants
  {
    var s1 := s.(returning := s.returning - {c});
    if cfg.disableKeepAlives || cfg.maxIdleConnsPerHost < 0 || s.conns[c].closed then s1.(closing := s1.closing + {c})
    else s1.(checked := s1.checked + {c})
  }

  function AfterPutIdle(cfg: Config, s: State, c: ConnID): (t: State)
    requires c in s.conns
    ensures OnlyCloses(s.conns, t.conns) && Answers(s.wants, t.wants)
    ensures |t.lru| <= |s.lru| || cfg.maxIdleConns == 0 || |t.lru| <= cfg.maxIdleConns || (s.lru + [c])[0] !in s.conns
  {
    var (s1, ok) := PutLocked(cfg, s.(checked := s.checked - {c}), c);
    if ok then s1 else s1.(closing := s1.closing + {c})
  }

  function Apply(cfg: Config, s: State, step: Step): State
    requires Enabled(cfg, s, step)
  {
    match step
    case GetConn(w, k, stale) => AfterGetConn(cfg, s, w, k, stale)
    case QueueDial(w) => QueueForDial(cfg, s.(toDial := s.toDial - {w}), w)
    case DialBegin(w) => AfterDialBegin(cfg, s, w)
    case DialConnected(w, c) =>
      s.(dials := s.dials[w := Connected(c)], conns := s.conns[c := Conn(s.wants[w].key, false)])
    case DialFailed(w) => AfterDialFailed(s, w)
    case DialDeliver(w) => AfterDialDeliver(s, w)
    case DialGiveBack(w) => Dec(cfg, s.(dials := s.dials - {w}), s.wants[w].key)
    case Receive(w) => AfterReceive(s, w)
    case Cancel(w) => AfterCancel(s, w)
    case EndUse(c, reusable) => AfterEndUse(s, c, reusable)
    case PutCheck(c) => AfterPutCheck(cfg, s, c)
    case PutIdle(c) => AfterPutIdle(cfg, s, c)
    case FinishClose(c) => CloseConn(cfg, s.(closing := s.closing - {c}), c)
    case CloseAny(c) => CloseConn(cfg, s, c)
    case DropClosed(c) => RemoveIdle(s, c)
    case ReapIdle(c) => Reap(cfg, s.(reaping := s.reaping - {c}), c)
    case CloseIdleConns => CloseIdle(s)
  }
}
