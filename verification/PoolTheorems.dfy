/** What holds after every run of the connection pool, whatever the interleaving. */
module PoolTheorems {
  import opened Base
  import opened Pool
  import opened PoolInvariant
  import opened PoolSteps
  import opened PoolDelivery

  // ----- Runs -----

  ghost predicate Allowed(cfg: Config, steps: seq<Step>)
    decreases |steps|, 0
  {
    steps == [] || (Allowed(cfg, steps[..|steps| - 1]) && Enabled(cfg, Run(cfg, steps[..|steps| - 1]), steps[|steps| - 1]))
  }

  ghost function Run(cfg: Config, steps: seq<Step>): State
    requires Allowed(cfg, steps)
    decreases |steps|, 1
  {
    if steps == [] then EMPTY else Apply(cfg, Run(cfg, steps[..|steps| - 1]), steps[|steps| - 1])
  }

  lemma StepKeepsCore(cfg: Config, s: State, step: Step)
    requires Core(cfg, s) && Enabled(cfg, s, step)
    ensures Core(cfg, Apply(cfg, s, step))
  {
    hide Core;
    match step
    case GetConn(w, k, stale) => GetConnKeeps(cfg, s, w, k, stale);
    case QueueDial(w) => QueueDialKeeps(cfg, s, w);
    case DialBegin(w) => DialBeginKeeps(cfg, s, w);
    case DialConnected(w, c) => ConnectedKeeps(cfg, s, w, c);
    case DialFailed(w) => DialFailedKeeps(cfg, s, w);
    case DialDeliver(w) => DialDeliverKeeps(cfg, s, w);
    case DialGiveBack(w) => GiveBackKeeps(cfg, s, w);
    case Receive(w) => ReceiveKeeps(cfg, s, w);
    case Cancel(w) => CancelKeeps(cfg, s, w);
    case EndUse(c, reusable) => EndUseKeeps(cfg, s, c, reusable);
    case PutCheck(c) => PutCheckKeeps(cfg, s, c);
    case PutIdle(c) => PutIdleKeeps(cfg, s, c);
    case FinishClose(c) =>
      LetGo(cfg, s, s.(closing := s.closing - {c}));
      CloseKeeps(cfg, s.(closing := s.closing - {c}), c);
    case CloseAny(c) => CloseKeeps(cfg, s, c);
    case DropClosed(c) => RemoveKeeps(cfg, s, c);
    case ReapIdle(c) => ReapKeeps(cfg, s, c);
    case CloseIdleConns => CloseIdleKeeps(cfg, s);
  }

  lemma GiveBackKeeps(cfg: Config, s: State, w: WantID)
    requires Core(cfg, s) && w in s.dials && w in s.wants && s.dials[w] == Failed
    ensures Core(cfg, Dec(cfg, s.(dials := s.dials - {w}), s.wants[w].key))
  {
    FailedIsAnswered(cfg, s, w);
    SlotReleased(cfg, s, w);
    hide Dec;
  }

  /** The LRU only grows in tryPutIdleConn, which evicts what goes over the limit. */
  lemma StepKeepsLru(cfg: Config, s: State, step: Step)
    requires Core(cfg, s) && Enabled(cfg, s, step) && LruWithinLimit(cfg, s)
    ensures LruWithinLimit(cfg, Apply(cfg, s, step))
  {
    hide Core, Dec, AfterGetConn, AfterPutIdle, RemoveIdle;
    match step
    case GetConn(_, _, _) =>
    case PutIdle(c) => PutIdleKeepsLru(cfg, s, c);
    case DropClosed(c) =>
    case ReapIdle(c) => hide CloseConn;
    case CloseIdleConns => assert CloseIdle(s).lru == [];
    case _ => OthersKeepLru(cfg, s, step);
  }

  lemma OthersKeepLru(cfg: Config, s: State, step: Step)
    requires Enabled(cfg, s, step)
    requires !step.GetConn? && !step.PutIdle? && !step.DropClosed? && !step.ReapIdle? && !step.CloseIdleConns?
    ensures Apply(cfg, s, step).lru == s.lru
  {
    hide Dec, CloseConn, QueueForDial, AfterGetConn, AfterPutIdle, RemoveIdle, CloseIdle, Reap, IsWaiting;
    hide AfterDialBegin, AfterDialFailed, AfterDialDeliver, AfterReceive, AfterCancel, AfterPutCheck, AfterEndUse;
    match step
    case QueueDial(_) =>
    case DialBegin(_) =>
    case DialConnected(_, _) =>
    case DialFailed(_) =>
    case DialDeliver(_) =>
    case DialGiveBack(_) =>
    case Receive(_) =>
    case Cancel(_) =>
    case EndUse(_, _) =>
    case PutCheck(_) =>
    case FinishClose(_) =>
    case CloseAny(_) =>
  }

  lemma ReadyForList(cfg: Config, s: State, c: ConnID)
    requires Core(cfg, s) && c in s.checked && c in s.conns
    ensures c !in s.lru && c !in IdleOf(s, s.conns[c].key)
    ensures Distinct(s.lru + [c]) && (s.lru + [c])[0] in s.conns
  {
    CheckedIsFree(cfg, s, c);
    LruFacts(cfg, s);
    assert IdleOf(s.(checked := s.checked - {c}), s.conns[c].key) == IdleOf(s, s.conns[c].key);
    hide Core;
  }

  lemma PutIdleKeepsLru(cfg: Config, s: State, c: ConnID)
    requires Core(cfg, s) && c in s.checked && c in s.conns && LruWithinLimit(cfg, s)
    ensures LruWithinLimit(cfg, AfterPutIdle(cfg, s, c))
  {
    hide Core, AfterPutIdle;
    ReadyForList(cfg, s, c);
  }

  lemma {:induction false} RunKeepsInvariant(cfg: Config, steps: seq<Step>)
    requires Allowed(cfg, steps)
    ensures Inv(cfg, Run(cfg, steps))
    decreases |steps|
  {
    if steps == [] {
      assert forall h, c :: !Holds(EMPTY, h, c);
      assert forall k :: DialSlots(EMPTY.wants, EMPTY.dials, k) == {} && ConnSlots(EMPTY.conns, k) == {};
    } else {
      var front := steps[..|steps| - 1];
      RunKeepsInvariant(cfg, front);
      StepKeepsCore(cfg, Run(cfg, front), steps[|steps| - 1]);
      StepKeepsLru(cfg, Run(cfg, front), steps[|steps| - 1]);
      hide Core, LruWithinLimit, Apply, Enabled;
    }
  }

  // ----- Ownership -----

  /** No connection ever has two holders: it waits in one request's result channel, or sits in one idle list, or is
      used, returned, closed or cleaned up by one goroutine. */
  lemma OneHolder(cfg: Config, steps: seq<Step>, c: ConnID, h1: Holder, h2: Holder)
    requires Allowed(cfg, steps) && Holds(Run(cfg, steps), h1, c) && Holds(Run(cfg, steps), h2, c)
    ensures h1 == h2
  {
    RunKeepsInvariant(cfg, steps);
  }

  // ----- Slots -----

  /** With a limit, the count of each host is exactly its dials in progress plus its open connections, and never over
      the limit; a request parked for a slot means that all slots are taken. */
  lemma SlotsAreExact(cfg: Config, steps: seq<Step>, k: Key)
    requires Allowed(cfg, steps)
    ensures var s := Run(cfg, steps);
            && (cfg.maxConnsPerHost > 0 ==> CountOf(s, k) == Slots(s, k) <= cfg.maxConnsPerHost)
            && forall w :: w in DialWaitOf(s, k) && IsWaiting(s.wants, w) ==> cfg.maxConnsPerHost > 0 && Slots(s, k) == cfg.maxConnsPerHost
  {
    RunKeepsInvariant(cfg, steps);
    CountFacts(cfg, Run(cfg, steps), k);
    ParkedFacts(cfg, Run(cfg, steps), k);
    hide *;
  }

  lemma CountFacts(cfg: Config, s: State, k: Key)
    requires Counted(cfg, s, 0, 0)
    ensures cfg.maxConnsPerHost > 0 ==> CountOf(s, k) == Slots(s, k) <= cfg.maxConnsPerHost
  {
    hide Slots, CountOf;
  }

  lemma ParkedFacts(cfg: Config, s: State, k: Key)
    requires DialServed(cfg, s)
    ensures forall w :: w in DialWaitOf(s, k) && IsWaiting(s.wants, w) ==> cfg.maxConnsPerHost > 0 && CountOf(s, k) == cfg.maxConnsPerHost
  {
    hide CountOf, DialWaitOf, IsWaiting;
  }

  /** The source's panics cannot happen: no duplicate in an idle list or the LRU, no count below zero. */
  lemma NeverPanics(cfg: Config, steps: seq<Step>)
    requires Allowed(cfg, steps)
    ensures !Run(cfg, steps).panicked
  {
    RunKeepsInvariant(cfg, steps);
  }

  /** The two indexes agree and respect their limits. */
  lemma IndexesAlwaysAgree(cfg: Config, steps: seq<Step>)
    requires Allowed(cfg, steps)
    ensures var s := Run(cfg, steps);
            IndexesAgree(s) && WithinLimits(cfg, s) && LruWithinLimit(cfg, s)
  {
    RunKeepsInvariant(cfg, steps);
    hide IndexesAgree, WithinLimits, LruWithinLimit;
  }

  /** A request that waits is never forgotten: its dial is due or under way or queued for a slot, and when it is queued
      every slot of its host is held by a dial in progress or an open connection. It is not parked beside an idle
      connection that it could have. */
  lemma NoRequestForgotten(cfg: Config, steps: seq<Step>, w: WantID)
    requires Allowed(cfg, steps) && IsWaiting(Run(cfg, steps).wants, w)
    ensures var s := Run(cfg, steps);
            var k := s.wants[w].key;
            && PendingFor(s, w)
            && (w in DialWaitOf(s, k) ==> cfg.maxConnsPerHost > 0 && Slots(s, k) == cfg.maxConnsPerHost)
            && (w in IdleWaitOf(s, k) ==> IdleOf(s, k) == [])
  {
    RunKeepsInvariant(cfg, steps);
    RequestLooksAhead(cfg, Run(cfg, steps), w);
    SlotsAreExact(cfg, steps, Run(cfg, steps).wants[w].key);
    hide *;
  }

  lemma RequestLooksAhead(cfg: Config, s: State, w: WantID)
    requires WantSide(cfg, s) && IsWaiting(s.wants, w)
    ensures PendingFor(s, w)
    ensures w in IdleWaitOf(s, s.wants[w].key) ==> IdleOf(s, s.wants[w].key) == []
    ensures w in DialWaitOf(s, s.wants[w].key) ==> cfg.maxConnsPerHost > 0
  {
    hide PendingFor, IdleWaitOf, IdleOf, DialWaitOf, CountOf;
  }

  // ----- Results -----

  lemma GetConnAnswers(cfg: Config, s: State, w: WantID, k: Key, stale: set<ConnID>)
    requires w !in s.wants
    ensures Answers(s.wants, AfterGetConn(cfg, s, w, k, stale).wants)
  {
    hide Store, IdleOf, IdleWaitOf, DropDone, Trim, Skipped, Without;
  }

  lemma StepAnswers(cfg: Config, s: State, step: Step)
    requires Enabled(cfg, s, step)
    ensures Answers(s.wants, Apply(cfg, s, step).wants)
  {
    hide Dec, CloseConn, QueueForDial, AfterGetConn, AfterPutIdle, RemoveIdle, AfterDialBegin, AfterPutCheck, AfterEndUse;
    hide AfterDialFailed, AfterDialDeliver, AfterReceive, AfterCancel, Reap;
    match step
    case GetConn(w, k, stale) => GetConnAnswers(cfg, s, w, k, stale);
    case QueueDial(_) =>
    case DialBegin(_) =>
    case DialConnected(_, _) =>
    case DialFailed(_) =>
    case DialDeliver(_) =>
    case DialGiveBack(_) =>
    case Receive(_) =>
    case Cancel(_) =>
    case EndUse(_, _) =>
    case PutCheck(_) =>
    case PutIdle(_) =>
    case FinishClose(_) =>
    case CloseAny(_) =>
    case DropClosed(_) =>
    case ReapIdle(c) => ReapAnswers(cfg, s.(reaping := s.reaping - {c}), c);
    case CloseIdleConns => assert CloseIdle(s).wants == s.wants;
  }

  lemma ReapAnswers(cfg: Config, s: State, c: ConnID)
    requires c in s.conns
    ensures Reap(cfg, s, c).wants == s.wants
  {
    hide CloseConn, RemoveIdle;
  }

  /** A request gets at most one result: whatever happens after it was answered, it is that answer or none. */
  lemma {:induction false} OneResult(cfg: Config, steps: seq<Step>, n: nat, w: WantID)
    requires Allowed(cfg, steps) && n <= |steps| && Allowed(cfg, steps[..n])
    requires w in Run(cfg, steps[..n]).wants && Run(cfg, steps[..n]).wants[w].status != Waiting
    ensures w in Run(cfg, steps).wants
    ensures var status := Run(cfg, steps).wants[w].status;
            status == Run(cfg, steps[..n]).wants[w].status || status == Finished
    decreases |steps|
  {
    hide Apply, Enabled;
    if n == |steps| {
      assert steps[..n] == steps;
    } else {
      var front := steps[..|steps| - 1];
      assert front[..n] == steps[..n];
      OneResult(cfg, front, n, w);
      StepAnswers(cfg, Run(cfg, front), steps[|steps| - 1]);
    }
  }
}
