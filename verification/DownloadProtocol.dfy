/** The goroutines of a parallel download (parallel_download.go): the main loop that hands out tasks, the workers, the
    merge, a map of completed tasks and a channel of notifications that are often superfluous. Each channel
    operation and each section under the lock is one step; a range reply is the requested range or an error. */
module DownloadProtocol {
  import opened Base
  import opened Download

  datatype Config = Config(content: bytes, segmentSize: nat, concurrency: nat) {
    ghost predicate Valid() {
      content != [] && segmentSize > 0 && concurrency > 0
    }

    function Tasks(): nat
      requires segmentSize > 0
    {
      Segments(|content|, segmentSize)
    }
  }

  /** A worker waits for a task, has received one but not yet joined the wait group, downloads it, sends its
      notification (blocking), or has ended. */
  datatype Worker = Idle | Received(i: nat) | Fetching(i: nat) | Sending(i: nat) | Exited

  /** The merge is about to look into the map for segment i, waits for its notification, copies it, or is over. */
  datatype Merge = Looking(i: nat) | Listening(i: nat) | Copying(i: nat) | Over

  /** Do hands out tasks, waits, has taken an error and waits for the goroutines, or has returned. */
  datatype Main = Dispatching | Awaiting | Failing | Returned(ok: bool)

  datatype State = State(
    next: nat,              // the task that is offered next
    workers: seq<Worker>,
    taskMap: set<nat>,
    notify: seq<nat>,       // taskNotifyCh
    merge: Merge,
    output: bytes,
    failed: bool,           // errCh holds an error
    stopped: bool,          // doneCh is closed
    wgDone: bool,           // wgDoneCh is closed
    main: Main)

  function Init(cfg: Config): State {
    State(0, AllIdle(cfg), {}, [], Looking(0), [], false, false, false, Dispatching)
  }

  datatype Step =
    | Dispatch(w: nat)
    | DispatchStopped
    | Join(w: nat)
    | FetchOk(w: nat)
    | FetchFail(w: nat)
    | Notify(w: nat)
    | NotifyStopped(w: nat)
    | WorkerExit(w: nat)
    | OutputFail
    | Look
    | Listen
    | ListenStopped
    | Copy(clean: bool)
    | CopyFail(n: nat)
    | GroupDone
    | ReturnDone
    | TakeError
    | ReturnError

  /** The worker has a task. */
  predicate Busy(w: Worker) {
    w.Received? || Counted(w)
  }

  /** The worker has joined the wait group. */
  predicate Counted(w: Worker) {
    w.Fetching? || w.Sending?
  }

  predicate Enabled(cfg: Config, s: State, step: Step)
    requires cfg.segmentSize > 0
  {
    match step
    case Dispatch(w) => s.main == Dispatching && s.next < cfg.Tasks() && w < |s.workers| && s.workers[w] == Idle
    case DispatchStopped => s.main == Dispatching && s.stopped
    case Join(w) => w < |s.workers| && s.workers[w].Received?
    case FetchOk(w) => w < |s.workers| && s.workers[w].Fetching?
    case FetchFail(w) => w < |s.workers| && s.workers[w].Fetching?
    case Notify(w) => w < |s.workers| && s.workers[w].Sending? && |s.notify| < cfg.concurrency
    case NotifyStopped(w) => w < |s.workers| && s.workers[w].Sending? && s.stopped
    case WorkerExit(w) => w < |s.workers| && s.workers[w] == Idle && s.stopped
    case OutputFail => s.merge == Looking(0)
    case Look => s.merge.Looking?
    case Listen => s.merge.Listening? && s.notify != []
    case ListenStopped => s.merge.Listening? && s.stopped
    case Copy(_) => s.merge.Copying? && s.merge.i < cfg.Tasks()
    case CopyFail(n) => s.merge.Copying?
    case GroupDone => s.merge == Over && !s.wgDone && forall w :: 0 <= w < |s.workers| ==> !Counted(s.workers[w])
    case ReturnDone => s.main == Awaiting && s.wgDone
    case TakeError => s.main == Awaiting && s.failed
    case ReturnError => s.main == Failing && s.wgDone
  }

  /** reportError: the first error is kept, and everybody is told to stop. */
  function Report(s: State): State {
    s.(failed := true, stopped := true)
  }

  function Apply(cfg: Config, s: State, step: Step): State
    requires cfg.segmentSize > 0 && Enabled(cfg, s, step)
  {
    match step
    case Dispatch(w) =>
      s.(next := s.next + 1, workers := s.workers[w := Received(s.next)], main := if s.next + 1 == cfg.Tasks() then Awaiting else Dispatching)
    case Join(w) => s.(workers := s.workers[w := Fetching(s.workers[w].i)])
    case DispatchStopped => s.(main := Returned(false))
    case FetchOk(w) => s.(workers := s.workers[w := Sending(s.workers[w].i)], taskMap := s.taskMap + {s.workers[w].i})
    case FetchFail(w) => Report(s.(workers := s.workers[w := Idle]))
    case Notify(w) => s.(workers := s.workers[w := Idle], notify := s.notify + [s.workers[w].i])
    case NotifyStopped(w) => s.(workers := s.workers[w := Idle])
    case WorkerExit(w) => s.(workers := s.workers[w := Exited])
    case OutputFail => Report(s.(merge := Over)) // the output file could not be opened
    case Look =>
      var i := s.merge.i;
      if i in s.taskMap then s.(taskMap := s.taskMap - {i}, merge := Copying(i)) else s.(merge := Listening(i))
    case Listen =>
      var i := s.merge.i;
      var s1 := s.(notify := s.notify[1..]);
      if s.notify[0] == i then s1.(taskMap := s.taskMap - {i}, merge := Copying(i)) else s1
    case ListenStopped => s.(merge := Over)
    case Copy(clean) =>
      SegmentsAreThoseInside(|cfg.content|, cfg.segmentSize, s.merge.i);
      var s1 := s.(output := s.output + Piece(cfg.content, cfg.segmentSize, s.merge.i));
      if s.merge.i + 1 < cfg.Tasks() then s1.(merge := Looking(s.merge.i + 1))
      else if clean then s1.(merge := Over)
      else Report(s1.(merge := Over)) // the temporary files could not be removed
    case CopyFail(n) => Report(s.(merge := Over, output := s.output + PartOf(cfg, s.merge.i, n)))
    case GroupDone => s.(wgDone := true)
    case ReturnDone => s.(main := Returned(!s.failed), stopped := true)
    case TakeError => s.(main := Failing, failed := false, stopped := true)
    case ReturnError => s.(main := Returned(false))
  }

  /** What a failing copy of segment i may leave in the output. */
  function PartOf(cfg: Config, i: nat, n: nat): bytes
    requires cfg.segmentSize > 0
  {
    if i * cfg.segmentSize < |cfg.content| && n <= |Piece(cfg.content, cfg.segmentSize, i)|
    then Piece(cfg.content, cfg.segmentSize, i)[..n] else []
  }

  // ----- Runs -----

  ghost predicate Reachable(cfg: Config, s: State)
    requires cfg.segmentSize > 0
  {
    exists steps :: Leads(cfg, Init(cfg), steps, s)
  }

  ghost predicate Leads(cfg: Config, s: State, steps: seq<Step>, t: State)
    requires cfg.segmentSize > 0
    decreases |steps|
  {
    if steps == [] then s == t
    else Enabled(cfg, s, steps[0]) && Leads(cfg, Apply(cfg, s, steps[0]), steps[1..], t)
  }

  lemma {:induction false} LeadsOn(cfg: Config, s: State, steps: seq<Step>, t: State, step: Step)
    requires cfg.segmentSize > 0 && Leads(cfg, s, steps, t) && Enabled(cfg, t, step)
    ensures Leads(cfg, s, steps + [step], Apply(cfg, t, step))
    decreases |steps|
  {
    hide Enabled, Apply;
    if steps == [] {
      assert ([] + [step])[1..] == [];
    } else {
      LeadsOn(cfg, Apply(cfg, s, steps[0]), steps[1..], t, step);
      assert (steps + [step])[1..] == steps[1..] + [step];
    }
  }

  lemma ReachableOn(cfg: Config, s: State, step: Step)
    requires cfg.segmentSize > 0 && Reachable(cfg, s) && Enabled(cfg, s, step)
    ensures Reachable(cfg, Apply(cfg, s, step))
  {
    var steps :| Leads(cfg, Init(cfg), steps, s);
    LeadsOn(cfg, Init(cfg), steps, s, step);
    hide Enabled, Apply, Init;
  }

  // ----- The invariant -----

  predicate WorksOn(w: Worker, j: nat) {
    w == Received(j) || w == Fetching(j)
  }

  /** A task in progress, or done and not yet merged, is known to somebody. */
  ghost predicate Tracked(s: State, j: nat) {
    j in s.taskMap || exists w :: 0 <= w < |s.workers| && WorksOn(s.workers[w], j)
  }

  /** No wake-up is lost: once the merge listens for a segment that is complete, its notification is in the channel or
      about to be sent. */
  ghost predicate Announced(s: State, j: nat) {
    j in s.notify || exists w :: 0 <= w < |s.workers| && s.workers[w] == Sending(j)
  }

  function Load(workers: seq<Worker>): nat {
    if workers == [] then 0 else Load(workers[..|workers| - 1]) + (if Busy(workers[|workers| - 1]) then 1 else 0)
  }

  lemma {:induction false} LoadUpdate(workers: seq<Worker>, w: nat, x: Worker)
    requires w < |workers|
    ensures Load(workers[w := x]) == Load(workers) - (if Busy(workers[w]) then 1 else 0) + (if Busy(x) then 1 else 0)
  {
    var n := |workers| - 1;
    if w < n {
      LoadUpdate(workers[..n], w, x);
      assert workers[w := x][..n] == workers[..n][w := x];
    } else {
      assert workers[w := x][..n] == workers[..n];
    }
  }

  lemma {:induction false} LoadWitness(workers: seq<Worker>, w: nat)
    requires w < |workers| && Busy(workers[w])
    ensures Load(workers) >= 1
  {
    var n := |workers| - 1;
    if w < n {
      LoadWitness(workers[..n], w);
    }
  }

  /** What the merge has written: whole segments in order, and everything once it ended without an error. */
  ghost predicate OutputRight(cfg: Config, s: State)
    requires cfg.segmentSize > 0
  {
    if s.merge == Over then s.stopped || (s.output == cfg.content && s.next == cfg.Tasks())
    else s.merge.i < cfg.Tasks() && s.output == Merged(cfg.content, cfg.segmentSize, s.merge.i)
  }

  ghost predicate TasksTracked(s: State) {
    && (s.merge.Copying? ==> s.merge.i < s.next)
    && (s.merge != Over && !s.stopped ==> forall j :: s.merge.i + (if s.merge.Copying? then 1 else 0) <= j < s.next ==> Tracked(s, j))
    && (s.merge.Listening? && !s.stopped && s.merge.i in s.taskMap ==> Announced(s, s.merge.i))
    && (forall j :: j in s.taskMap ==> j < s.next)
    && (forall j :: j in s.notify ==> j < s.next)
  }

  ghost predicate WorkersRight(cfg: Config, s: State) {
    && |s.workers| == cfg.concurrency
    && (forall w :: 0 <= w < |s.workers| && Busy(s.workers[w]) ==> s.workers[w].i < s.next)
    && (forall w :: 0 <= w < |s.workers| && s.workers[w] == Exited ==> s.stopped)
    && |s.notify| + Load(s.workers) <= s.next
    && |s.notify| <= cfg.concurrency
  }

  /** An error that was reported is waiting for Do, or Do has it. */
  ghost predicate ErrorsKept(cfg: Config, s: State)
    requires cfg.segmentSize > 0
  {
    && (s.stopped ==> s.failed || s.main == Failing || s.main.Returned?)
    && (s.failed ==> s.stopped)
    && (s.main == Failing || s.main.Returned? ==> s.stopped)
    && (s.main == Dispatching ==> s.next < cfg.Tasks())
    && (s.main == Awaiting ==> s.next == cfg.Tasks())
    && s.next <= cfg.Tasks()
    && (s.wgDone ==> s.merge == Over)
    && (s.main == Returned(true) ==> s.merge == Over && s.output == cfg.content)
  }

  ghost predicate Inv(cfg: Config, s: State)
    requires cfg.segmentSize > 0
  {
    OutputRight(cfg, s) && TasksTracked(s) && WorkersRight(cfg, s) && ErrorsKept(cfg, s)
  }

  lemma StepKeepsOutput(cfg: Config, s: State, step: Step)
    requires cfg.Valid() && Inv(cfg, s) && Enabled(cfg, s, step)
    ensures OutputRight(cfg, Apply(cfg, s, step))
  {
    if step.Copy? {
      PiecesPartition(cfg.content, cfg.segmentSize, s.merge.i);
    }
    hide Load, Tracked, Announced, Segments, Piece, Merged;
  }

  lemma StepKeepsWorkers(cfg: Config, s: State, step: Step)
    requires cfg.Valid() && Inv(cfg, s) && Enabled(cfg, s, step)
    ensures WorkersRight(cfg, Apply(cfg, s, step))
  {
    hide Tracked, Announced, OutputRight, Segments, Piece, PartOf, Load;
    match step
    case Dispatch(w) => LoadUpdate(s.workers, w, Received(s.next));
    case Join(w) => LoadUpdate(s.workers, w, Fetching(s.workers[w].i));
    case FetchOk(w) => LoadUpdate(s.workers, w, Sending(s.workers[w].i));
    case FetchFail(w) => LoadUpdate(s.workers, w, Idle);
    case Notify(w) => LoadUpdate(s.workers, w, Idle);
    case NotifyStopped(w) => LoadUpdate(s.workers, w, Idle);
    case WorkerExit(w) => LoadUpdate(s.workers, w, Exited);
    case _ =>
  }

  lemma StepKeepsErrors(cfg: Config, s: State, step: Step)
    requires cfg.Valid() && Inv(cfg, s) && Enabled(cfg, s, step)
    ensures ErrorsKept(cfg, Apply(cfg, s, step))
  {
    hide Load, Tracked, Announced, Segments, Piece, PartOf, WorkersRight, TasksTracked;
  }

  lemma StepKeepsTasks(cfg: Config, s: State, step: Step)
    requires cfg.Valid() && Inv(cfg, s) && Enabled(cfg, s, step)
    ensures TasksTracked(Apply(cfg, s, step))
  {
    var t := Apply(cfg, s, step);
    match step
    case Dispatch(w) =>
      StillTracked(s, t, w);
      assert WorksOn(t.workers[w], s.next);
      assert Tracked(t, s.next);
      hide Load, Segments, Tracked, Announced;
    case Join(w) =>
      StillTracked(s, t, w);
      hide Load, Segments, Tracked, Announced;
    case FetchOk(w) =>
      StillTracked(s, t, w);
      assert t.workers[w] == Sending(s.workers[w].i);
      assert Announced(t, s.workers[w].i);
      hide Load, Segments, Tracked, Announced;
    case Notify(w) =>
      StillTracked(s, t, w);
      hide Load, Segments, Tracked, Announced;
    case WorkerExit(w) => hide Load, Segments, Tracked, Announced;
    case FetchFail(w) => hide Load, Segments, Tracked, Announced;
    case NotifyStopped(w) => hide Load, Segments, Tracked, Announced;
    case Look =>
      MergeStepTracks(s, t);
      hide Load, Segments, Tracked, Announced;
    case Listen => ListenTracks(cfg, s);
    case Copy(_) =>
      MergeStepTracks(s, t);
      hide Load, Segments, Tracked, Announced, Piece;
    case _ =>
      MergeStepTracks(s, t);
      hide Load, Segments, Tracked, Announced, Piece, PartOf;
  }

  lemma ListenTracks(cfg: Config, s: State)
    requires cfg.segmentSize > 0 && TasksTracked(s) && Enabled(cfg, s, Listen)
    ensures TasksTracked(Apply(cfg, s, Listen))
  {
    var t := Apply(cfg, s, Listen);
    assert forall j :: j in s.notify ==> j == s.notify[0] || j in t.notify;
    assert forall j :: j in t.notify ==> j in s.notify;
    assert s.notify[0] in s.notify;
    MergeStepTracks(s, t);
    hide Tracked, Announced;
    if s.notify[0] != s.merge.i {
      assert t.merge == s.merge && t.taskMap == s.taskMap;
      assert forall j :: Tracked(s, j) ==> Tracked(t, j);
    }
  }

  /** A step of the merge or of Do leaves the workers alone and takes at most the current segment from the map. */
  lemma MergeStepTracks(s: State, t: State)
    requires t.workers == s.workers
    ensures forall j :: Tracked(s, j) && (j in s.taskMap ==> j in t.taskMap) ==> Tracked(t, j)
    ensures forall j :: Announced(s, j) && (j in s.notify ==> j in t.notify) ==> Announced(t, j)
  {
  }

  lemma StillTracked(s: State, t: State, w: nat)
    requires w < |s.workers| == |t.workers| && t.workers == s.workers[w := t.workers[w]]
    requires s.workers[w].Fetching? ==> s.workers[w].i in t.taskMap
    requires s.workers[w].Received? ==> t.workers[w] == Fetching(s.workers[w].i)
    requires s.workers[w].Sending? ==> s.workers[w].i in t.notify
    requires s.taskMap <= t.taskMap && s.notify <= t.notify
    ensures forall j :: Tracked(s, j) ==> Tracked(t, j)
    ensures forall j :: Announced(s, j) ==> Announced(t, j)
  {
    forall j | Tracked(s, j)
      ensures Tracked(t, j)
    {
      if j !in s.taskMap {
        var v :| 0 <= v < |s.workers| && WorksOn(s.workers[v], j);
        assert WorksOn(t.workers[v], j) || j in t.taskMap;
      }
    }
    forall j | Announced(s, j)
      ensures Announced(t, j)
    {
      if j !in s.notify {
        var v :| 0 <= v < |s.workers| && s.workers[v] == Sending(j);
        assert v != w ==> t.workers[v] == Sending(j);
      }
    }
  }

  lemma StepKeeps(cfg: Config, s: State, step: Step)
    requires cfg.Valid() && Inv(cfg, s) && Enabled(cfg, s, step)
    ensures Inv(cfg, Apply(cfg, s, step))
  {
    StepKeepsOutput(cfg, s, step);
    StepKeepsTasks(cfg, s, step);
    StepKeepsWorkers(cfg, s, step);
    StepKeepsErrors(cfg, s, step);
    hide *;
  }

  lemma {:induction false} LeadsKeeps(cfg: Config, s: State, steps: seq<Step>, t: State)
    requires cfg.Valid() && Inv(cfg, s) && Leads(cfg, s, steps, t)
    ensures Inv(cfg, t)
    decreases |steps|
  {
    hide Inv, Enabled, Apply;
    if steps != [] {
      StepKeeps(cfg, s, steps[0]);
      LeadsKeeps(cfg, Apply(cfg, s, steps[0]), steps[1..], t);
    }
  }

  lemma {:induction false} NobodyBusy(workers: seq<Worker>)
    requires forall w :: 0 <= w < |workers| ==> workers[w] == Idle
    ensures Load(workers) == 0
  {
    if workers != [] {
      NobodyBusy(workers[..|workers| - 1]);
    }
  }

  lemma AlwaysInv(cfg: Config, s: State)
    requires cfg.Valid() && Reachable(cfg, s)
    ensures Inv(cfg, s)
  {
    NobodyBusy(Init(cfg).workers);
    SegmentsAreThoseInside(|cfg.content|, cfg.segmentSize, 0);
    assert Inv(cfg, Init(cfg)) by {
      assert Merged(cfg.content, cfg.segmentSize, 0) == [];
    }
    hide Init, Inv;
    var steps :| Leads(cfg, Init(cfg), steps, s);
    LeadsKeeps(cfg, Init(cfg), steps, s);
  }

  // ----- Safety -----

  /** Do reports success only when the output is exactly the content, for every interleaving of workers, merge,
      failures and stops. */
  lemma SuccessMeansAllBytes(cfg: Config, s: State)
    requires cfg.Valid() && Reachable(cfg, s) && s.main == Returned(true)
    ensures s.output == cfg.content
  {
    AlwaysInv(cfg, s);
    hide Load, Tracked, Announced, Segments;
  }

  /** Whatever happens, what was merged so far is a prefix of the content, unless something failed. */
  lemma MergeIsInOrder(cfg: Config, s: State)
    requires cfg.Valid() && Reachable(cfg, s) && !s.stopped
    ensures s.output <= cfg.content
  {
    AlwaysInv(cfg, s);
    hide Load, Tracked, Announced, Segments;
  }

  /** No wake-up is lost: while the merge listens for a segment, that segment is not yet handed out, or being
      downloaded, or its notification is in the channel or being sent. */
  lemma NoLostWakeUp(cfg: Config, s: State)
    requires cfg.Valid() && Reachable(cfg, s) && !s.stopped && s.merge.Listening?
    ensures s.merge.i >= s.next || Announced(s, s.merge.i) || exists w :: 0 <= w < |s.workers| && WorksOn(s.workers[w], s.merge.i)
  {
    AlwaysInv(cfg, s);
    if s.merge.i < s.next {
      assert Tracked(s, s.merge.i);
    }
    hide Load, Announced, Segments;
  }

  // ----- Progress -----

  /** The one way to get stuck: everything is merged and nothing failed, but a worker still waits to send a
      notification that nobody will read, so the wait group never empties. */
  ghost predicate Hangs(cfg: Config, s: State) {
    && s.main == Awaiting && s.merge == Over && !s.failed && !s.stopped && !s.wgDone
    && |s.notify| >= cfg.concurrency
    && (forall w :: 0 <= w < |s.workers| ==> s.workers[w] == Idle || s.workers[w].Sending?)
    && (exists w :: 0 <= w < |s.workers| && s.workers[w].Sending?)
  }

  ghost predicate Stuck(cfg: Config, s: State)
    requires cfg.segmentSize > 0
  {
    !s.main.Returned? && forall step :: !Enabled(cfg, s, step)
  }

  lemma StuckMeansHang(cfg: Config, s: State)
    requires cfg.Valid() && Reachable(cfg, s) && Stuck(cfg, s)
    ensures Hangs(cfg, s)
  {
    AlwaysInv(cfg, s);
    forall w | 0 <= w < |s.workers|
      ensures s.workers[w] == Idle || s.workers[w].Sending? || s.workers[w] == Exited
    {
      assert !Enabled(cfg, s, Join(w)) && !Enabled(cfg, s, FetchOk(w));
    }
    assert !s.stopped && s.merge == Over by {
      NotBeforeTheEnd(cfg, s);
    }
    assert !Enabled(cfg, s, TakeError) && !Enabled(cfg, s, ReturnDone) && !Enabled(cfg, s, ReturnError) && !Enabled(cfg, s, GroupDone);
    var w :| 0 <= w < |s.workers| && Counted(s.workers[w]);
    assert !Enabled(cfg, s, Notify(w));
    hide Load, Tracked, Announced, Segments;
  }

  /** Nothing is ever stuck while Do hands out tasks or the merge works. */
  lemma NotBeforeTheEnd(cfg: Config, s: State)
    requires cfg.Valid() && Inv(cfg, s) && Stuck(cfg, s)
    ensures !s.stopped && s.merge == Over
  {
    hide Load, Segments, OutputRight, TasksTracked;
    WorkersStuck(cfg, s);
    assert !Enabled(cfg, s, Look) && !Enabled(cfg, s, Listen) && !Enabled(cfg, s, ListenStopped) && !Enabled(cfg, s, CopyFail(0));
    assert !Enabled(cfg, s, TakeError) && !Enabled(cfg, s, DispatchStopped) && !Enabled(cfg, s, GroupDone);
    assert !Enabled(cfg, s, ReturnError) && !Enabled(cfg, s, ReturnDone);
    assert s.workers[0] == s.workers[0];
    hide Enabled;
    if s.merge.Listening? {
      ListenerServed(cfg, s);
    }
  }

  lemma WorkersStuck(cfg: Config, s: State)
    requires cfg.Valid() && Inv(cfg, s) && Stuck(cfg, s)
    ensures |s.workers| > 0
    ensures forall w :: 0 <= w < |s.workers| ==>
      !s.workers[w].Received? && !s.workers[w].Fetching? && (s.workers[w].Sending? ==> !s.stopped && |s.notify| == cfg.concurrency) && (s.workers[w] == Idle ==> s.main != Dispatching)
  {
    hide Load, Segments, OutputRight, TasksTracked;
    forall w | 0 <= w < |s.workers|
      ensures !s.workers[w].Received? && !s.workers[w].Fetching? && (s.workers[w].Sending? ==> !s.stopped && |s.notify| == cfg.concurrency) && (s.workers[w] == Idle ==> s.main != Dispatching)
    {
      assert !Enabled(cfg, s, Join(w)) && !Enabled(cfg, s, FetchOk(w)) && !Enabled(cfg, s, Notify(w)) && !Enabled(cfg, s, NotifyStopped(w)) && !Enabled(cfg, s, Dispatch(w));
    }
  }

  /** A merge that listens in vain means that its segment is still to be handed out. */
  lemma ListenerServed(cfg: Config, s: State)
    requires cfg.Valid() && Inv(cfg, s) && s.merge.Listening? && !s.stopped && s.notify == []
    requires forall w :: 0 <= w < |s.workers| ==> s.workers[w] == Idle
    ensures s.main == Dispatching
  {
    hide Load, Segments;
    if s.merge.i < s.next {
      assert Tracked(s, s.merge.i);
    }
    assert !Announced(s, s.merge.i);
  }

  /** A state is stuck exactly when it hangs in this way. */
  lemma StuckIffHangs(cfg: Config, s: State)
    requires cfg.Valid() && Reachable(cfg, s)
    ensures Stuck(cfg, s) <==> Hangs(cfg, s)
  {
    hide Reachable;
    if Stuck(cfg, s) {
      StuckMeansHang(cfg, s);
    }
    if Hangs(cfg, s) {
      forall step
        ensures !Enabled(cfg, s, step)
      {
      }
    }
  }

  // ----- Every run ends -----

  function Weight(w: Worker): nat {
    match w
    case Idle => 1
    case Received(_) => 6
    case Fetching(_) => 5
    case Sending(_) => 4
    case Exited => 0
  }

  function Weights(workers: seq<Worker>): nat {
    if workers == [] then 0 else Weights(workers[..|workers| - 1]) + Weight(workers[|workers| - 1])
  }

  lemma {:induction false} WeightsUpdate(workers: seq<Worker>, w: nat, x: Worker)
    requires w < |workers|
    ensures Weights(workers[w := x]) == Weights(workers) - Weight(workers[w]) + Weight(x)
  {
    var n := |workers| - 1;
    if w < n {
      WeightsUpdate(workers[..n], w, x);
      assert workers[w := x][..n] == workers[..n][w := x];
    } else {
      assert workers[w := x][..n] == workers[..n];
    }
  }

  /** How much a run can still do. */
  function Remaining(cfg: Config, s: State): int
    requires cfg.segmentSize > 0
  {
    7 * (cfg.Tasks() - s.next) + Weights(s.workers) + |s.notify| + MergeLeft(cfg, s.merge)
    + (if s.wgDone then 0 else 1)
    + (match s.main case Dispatching => 3 case Awaiting => 2 case Failing => 1 case Returned(_) => 0)
  }

  function MergeLeft(cfg: Config, m: Merge): int
    requires cfg.segmentSize > 0
  {
    match m
    case Looking(i) => 3 * (cfg.Tasks() - i) + 3
    case Listening(i) => 3 * (cfg.Tasks() - i) + 2
    case Copying(i) => 3 * (cfg.Tasks() - i) + 1
    case Over => 0
  }

  /** Every step uses up some of what a run can do, and that is never negative: all runs are finite, so each one ends
      with Do returned, or hanging. */
  lemma StepsRunOut(cfg: Config, s: State, step: Step)
    requires cfg.Valid() && Reachable(cfg, s) && Enabled(cfg, s, step)
    ensures 0 <= Remaining(cfg, Apply(cfg, s, step)) < Remaining(cfg, s)
  {
    AlwaysInv(cfg, s);
    StepKeeps(cfg, s, step);
    WithinBounds(cfg, s);
    WithinBounds(cfg, Apply(cfg, s, step));
    hide Inv, Segments, Reachable, Weights, Enabled, Apply;
    if step.Dispatch? || step.Join? || step.FetchOk? || step.FetchFail? || step.Notify? || step.NotifyStopped? || step.WorkerExit? {
      WorkerStepUses(cfg, s, step);
    } else {
      OtherStepUses(cfg, s, step);
    }
  }

  lemma WorkerStepUses(cfg: Config, s: State, step: Step)
    requires cfg.Valid() && Enabled(cfg, s, step)
    requires step.Dispatch? || step.Join? || step.FetchOk? || step.FetchFail? || step.Notify? || step.NotifyStopped? || step.WorkerExit?
    ensures Remaining(cfg, Apply(cfg, s, step)) < Remaining(cfg, s)
  {
    hide Segments, Weights, MergeLeft;
    match step
    case Dispatch(w) => WeightsUpdate(s.workers, w, Received(s.next));
    case Join(w) => WeightsUpdate(s.workers, w, Fetching(s.workers[w].i));
    case FetchOk(w) => WeightsUpdate(s.workers, w, Sending(s.workers[w].i));
    case FetchFail(w) => WeightsUpdate(s.workers, w, Idle);
    case Notify(w) => WeightsUpdate(s.workers, w, Idle);
    case NotifyStopped(w) => WeightsUpdate(s.workers, w, Idle);
    case WorkerExit(w) => WeightsUpdate(s.workers, w, Exited);
  }

  lemma OtherStepUses(cfg: Config, s: State, step: Step)
    requires cfg.Valid() && Enabled(cfg, s, step) && MergeLeft(cfg, s.merge) >= 0
    requires s.merge == Over || s.merge.i < cfg.Tasks()
    requires !step.Dispatch? && !step.Join? && !step.FetchOk? && !step.FetchFail? && !step.Notify? && !step.NotifyStopped? && !step.WorkerExit?
    ensures Remaining(cfg, Apply(cfg, s, step)) < Remaining(cfg, s)
  {
    hide Segments, Weights, Piece, PartOf;
    match step
    case Listen => ListenUses(cfg, s); hide MergeLeft;
    case _ =>
  }

  lemma WithinBounds(cfg: Config, s: State)
    requires cfg.Valid() && Inv(cfg, s)
    ensures s.next <= cfg.Tasks() && MergeLeft(cfg, s.merge) >= 0 && (s.merge == Over || s.merge.i < cfg.Tasks())
  {
    hide TasksTracked, WorkersRight, Segments;
  }

  lemma ListenUses(cfg: Config, s: State)
    requires cfg.segmentSize > 0 && Enabled(cfg, s, Listen)
    ensures MergeLeft(cfg, Apply(cfg, s, Listen).merge) <= MergeLeft(cfg, s.merge)
  {
    hide Segments;
  }

  // ----- Which downloads can hang -----

  /** With no more segments than workers the channel never fills, and Do cannot hang. */
  lemma FewSegmentsNeverHang(cfg: Config, s: State)
    requires cfg.Valid() && Reachable(cfg, s) && cfg.Tasks() <= cfg.concurrency
    ensures !Stuck(cfg, s)
  {
    AlwaysInv(cfg, s);
    StuckIffHangs(cfg, s);
    if Hangs(cfg, s) {
      var w :| 0 <= w < |s.workers| && s.workers[w].Sending?;
      LoadWitness(s.workers, w);
    }
    hide Load, Segments, Stuck, TasksTracked, OutputRight;
  }

  function AllIdle(cfg: Config): (r: seq<Worker>)
    ensures |r| == cfg.concurrency
  {
    seq(cfg.concurrency, i => Idle)
  }

  /** The indices from a up to b. */
  function From(a: nat, b: nat): set<nat> {
    if a >= b then {} else From(a, b - 1) + {b - 1}
  }

  lemma {:induction false} FromMembers(a: nat, b: nat)
    ensures forall j :: j in From(a, b) <==> a <= j < b
  {
    if a < b {
      FromMembers(a, b - 1);
    }
  }

  lemma FromWithoutFirst(a: nat, b: nat)
    requires a < b
    ensures a in From(a, b) && From(a, b) - {a} == From(a + 1, b)
  {
    FromMembers(a, b);
    FromMembers(a + 1, b);
  }

  /** One worker does everything. After i segments, each merged as soon as it was announced: */
  function OneByOne(cfg: Config, i: nat): State
    requires cfg.segmentSize > 0
  {
    State(i, AllIdle(cfg), {}, [], Looking(i), Merged(cfg.content, cfg.segmentSize, i), false, false, false, Dispatching)
  }

  /** The merge pauses before segment k while the worker completes the segments up to n. */
  function Ahead(cfg: Config, k: nat, n: nat): State
    requires cfg.segmentSize > 0 && k <= n
  {
    OneByOne(cfg, k).(next := n, taskMap := From(k, n), notify := seq(n - k, i requires 0 <= i => k + i),
                      main := if n == cfg.Tasks() then Awaiting else Dispatching)
  }

  /** Worker 0 takes the next segment and completes it; its notification is still to be sent. */
  lemma Complete(cfg: Config, s: State)
    requires cfg.Valid() && Reachable(cfg, s) && s.main == Dispatching && s.next < cfg.Tasks() && s.workers == AllIdle(cfg)
    ensures Reachable(cfg, s.(next := s.next + 1, workers := AllIdle(cfg)[0 := Sending(s.next)], taskMap := s.taskMap + {s.next},
                              main := if s.next + 1 == cfg.Tasks() then Awaiting else Dispatching))
  {
    hide Reachable, Segments;
    var main := if s.next + 1 == cfg.Tasks() then Awaiting else Dispatching;
    var s1 := s.(next := s.next + 1, workers := AllIdle(cfg)[0 := Received(s.next)], main := main);
    ReachableOn(cfg, s, Dispatch(0));
    var s2 := s1.(workers := AllIdle(cfg)[0 := Fetching(s.next)]);
    assert s1.workers[0 := Fetching(s.next)] == s2.workers;
    ReachableOn(cfg, s1, Join(0));
    assert s2.workers[0 := Sending(s.next)] == AllIdle(cfg)[0 := Sending(s.next)];
    ReachableOn(cfg, s2, FetchOk(0));
  }

  lemma Announce(cfg: Config, s: State, i: nat)
    requires cfg.Valid() && Reachable(cfg, s) && s.workers == AllIdle(cfg)[0 := Sending(i)] && |s.notify| < cfg.concurrency
    ensures Reachable(cfg, s.(workers := AllIdle(cfg), notify := s.notify + [i]))
  {
    hide Reachable;
    assert s.workers[0 := Idle] == AllIdle(cfg);
    ReachableOn(cfg, s, Notify(0));
  }

  lemma OneMore(cfg: Config, i: nat)
    requires cfg.Valid() && Reachable(cfg, OneByOne(cfg, i)) && i + 1 < cfg.Tasks()
    ensures Reachable(cfg, OneByOne(cfg, i + 1))
  {
    hide Reachable, Segments, Piece, Merged, AllIdle;
    var s := OneByOne(cfg, i);
    var s1 := s.(merge := Listening(i));
    ReachableOn(cfg, s, Look);
    Complete(cfg, s1);
    var s2 := s1.(next := i + 1, workers := AllIdle(cfg)[0 := Sending(i)], taskMap := {} + {i});
    Announce(cfg, s2, i);
    assert {} + {i} == {i} && [] + [i] == [i];
    OneMerged(cfg, i);
  }

  lemma OneMerged(cfg: Config, i: nat)
    requires cfg.Valid() && i + 1 < cfg.Tasks()
    requires Reachable(cfg, OneByOne(cfg, i).(next := i + 1, taskMap := {i}, notify := [i], merge := Listening(i)))
    ensures Reachable(cfg, OneByOne(cfg, i + 1))
  {
    PiecesPartition(cfg.content, cfg.segmentSize, i);
    hide Reachable, Segments, Piece, Merged, AllIdle;
    var s3 := OneByOne(cfg, i).(next := i + 1, taskMap := {i}, notify := [i], merge := Listening(i));
    assert [i][1..] == [] && {i} - {i} == {};
    var s4 := s3.(notify := [], taskMap := {}, merge := Copying(i));
    ReachableOn(cfg, s3, Listen);
    ReachableOn(cfg, s4, Copy(true));
  }

  lemma {:induction false} OneByOneReachable(cfg: Config, i: nat)
    requires cfg.Valid() && i < cfg.Tasks()
    ensures Reachable(cfg, OneByOne(cfg, i))
  {
    if i == 0 {
      assert Leads(cfg, Init(cfg), [], Init(cfg));
      assert Merged(cfg.content, cfg.segmentSize, 0) == [];
      assert OneByOne(cfg, 0) == Init(cfg);
    } else {
      OneByOneReachable(cfg, i - 1);
      OneMore(cfg, i - 1);
    }
  }

  lemma {:induction false} AheadReachable(cfg: Config, k: nat, n: nat)
    requires cfg.Valid() && k <= n < cfg.Tasks() && n - k <= cfg.concurrency
    ensures Reachable(cfg, Ahead(cfg, k, n))
    decreases n
  {
    hide Reachable, Segments, AllIdle;
    if n == k {
      OneByOneReachable(cfg, k);
      assert Ahead(cfg, k, k) == OneByOne(cfg, k);
    } else {
      AheadReachable(cfg, k, n - 1);
      var s := Ahead(cfg, k, n - 1);
      Complete(cfg, s);
      var s1 := s.(next := n, workers := AllIdle(cfg)[0 := Sending(n - 1)], taskMap := s.taskMap + {n - 1});
      Announce(cfg, s1, n - 1);
      assert Ahead(cfg, k, n).notify == s.notify + [n - 1];
      assert Ahead(cfg, k, n) == s1.(workers := AllIdle(cfg), notify := s.notify + [n - 1]);
    }
  }

  /** The channel is full of notifications for segments that the merge finds in the map, and the worker waits with the
      last one; the merge has come to segment i. */
  function Clogged(cfg: Config, k: nat, i: nat): State
    requires cfg.Valid() && k <= i < cfg.Tasks()
  {
    var n := cfg.Tasks();
    Ahead(cfg, k, n - 1).(next := n, workers := AllIdle(cfg)[0 := Sending(n - 1)], taskMap := From(i, n), main := Awaiting,
                          merge := Looking(i), output := Merged(cfg.content, cfg.segmentSize, i))
  }

  lemma {:induction false} CloggedReachable(cfg: Config, k: nat, i: nat)
    requires cfg.Valid() && k <= i < cfg.Tasks() && cfg.Tasks() - 1 - k == cfg.concurrency
    ensures Reachable(cfg, Clogged(cfg, k, i))
    decreases i
  {
    hide Reachable, Segments, AllIdle, Merged, Piece;
    var n := cfg.Tasks();
    if i == k {
      AheadReachable(cfg, k, n - 1);
      Complete(cfg, Ahead(cfg, k, n - 1));
    } else {
      CloggedReachable(cfg, k, i - 1);
      PiecesPartition(cfg.content, cfg.segmentSize, i - 1);
      var s := Clogged(cfg, k, i - 1);
      FromWithoutFirst(i - 1, n);
      var s1 := s.(taskMap := From(i, n), merge := Copying(i - 1));
      ReachableOn(cfg, s, Look);
      ReachableOn(cfg, s1, Copy(true));
    }
  }

  /** With more segments than workers, some run leaves Do waiting forever. */
  lemma ManySegmentsCanHang(cfg: Config) returns (s: State)
    requires cfg.Valid() && cfg.Tasks() > cfg.concurrency
    ensures Reachable(cfg, s) && Stuck(cfg, s)
  {
    var n := cfg.Tasks();
    var k := n - 1 - cfg.concurrency;
    CloggedReachable(cfg, k, n - 1);
    PiecesPartition(cfg.content, cfg.segmentSize, n - 1);
    FromWithoutFirst(n - 1, n);
    var s0 := Clogged(cfg, k, n - 1);
    hide Reachable, Segments, Merged, Piece;
    var s1 := s0.(taskMap := From(n, n), merge := Copying(n - 1));
    ReachableOn(cfg, s0, Look);
    s := s1.(output := Merged(cfg.content, cfg.segmentSize, n), merge := Over);
    ReachableOn(cfg, s1, Copy(true));
    assert s.workers[0] == Sending(n - 1);
    StuckIffHangs(cfg, s);
    hide Stuck;
  }

  /** Do returns in every run exactly when there are no more segments than workers: only then can no run end with Do
      waiting. */
  lemma AlwaysReturnsExactlyWhen(cfg: Config)
    requires cfg.Valid()
    ensures (forall s :: Reachable(cfg, s) ==> !Stuck(cfg, s)) <==> cfg.Tasks() <= cfg.concurrency
  {
    hide Reachable, Stuck, Segments;
    if cfg.Tasks() <= cfg.concurrency {
      forall s | Reachable(cfg, s)
        ensures !Stuck(cfg, s)
      {
        FewSegmentsNeverHang(cfg, s);
      }
    } else {
      var s := ManySegmentsCanHang(cfg);
    }
  }

  // ----- What Do returns -----

  /** The steps in which something goes wrong. */
  predicate Fails(cfg: Config, s: State, step: Step)
    requires cfg.segmentSize > 0
  {
    step.OutputFail? || step.FetchFail? || step.CopyFail?
    || (step.Copy? && !step.clean && s.merge.Copying? && s.merge.i + 1 >= cfg.Tasks())
  }

  /** Nothing went wrong before Do returned. */
  ghost predicate Smooth(cfg: Config, s: State, steps: seq<Step>)
    requires cfg.segmentSize > 0
    decreases |steps|
  {
    steps == [] || (Enabled(cfg, s, steps[0]) && (s.main.Returned? || (!Fails(cfg, s, steps[0]) && Smooth(cfg, Apply(cfg, s, steps[0]), steps[1..]))))
  }

  /** No error has been reported. */
  predicate Untroubled(s: State) {
    !s.failed && !s.main.Failing? && s.main != Returned(false) && (s.stopped ==> s.main == Returned(true))
  }

  /** An error has been reported, and Do has not returned nil. */
  predicate Troubled(s: State) {
    s.main != Returned(true) && (s.failed || s.main.Failing? || s.main == Returned(false))
  }

  lemma UntroubledStep(cfg: Config, s: State, step: Step)
    requires cfg.segmentSize > 0 && Enabled(cfg, s, step) && Untroubled(s) && !s.main.Returned? && !Fails(cfg, s, step)
    ensures Untroubled(Apply(cfg, s, step))
  {
    hide Segments, Piece, PartOf;
  }

  lemma ReturnedStays(cfg: Config, s: State, step: Step)
    requires cfg.segmentSize > 0 && Enabled(cfg, s, step) && s.main.Returned?
    ensures Apply(cfg, s, step).main == s.main
  {
    hide Segments, Piece, PartOf;
  }

  lemma TroubleStep(cfg: Config, s: State, step: Step)
    requires cfg.segmentSize > 0 && Enabled(cfg, s, step) && (Troubled(s) || (Fails(cfg, s, step) && !s.main.Returned?))
    ensures Troubled(Apply(cfg, s, step))
  {
    hide Segments, Piece, PartOf;
  }

  lemma {:induction false} TroubledRun(cfg: Config, s: State, steps: seq<Step>, t: State)
    requires cfg.segmentSize > 0 && Troubled(s) && Leads(cfg, s, steps, t)
    ensures Troubled(t)
    decreases |steps|
  {
    if steps != [] {
      TroubleStep(cfg, s, steps[0]);
      hide Enabled, Apply, Troubled;
      TroubledRun(cfg, Apply(cfg, s, steps[0]), steps[1..], t);
    }
  }

  lemma {:induction false} ReturnedRun(cfg: Config, s: State, steps: seq<Step>, t: State)
    requires cfg.segmentSize > 0 && s.main.Returned? && Leads(cfg, s, steps, t)
    ensures t.main == s.main
    decreases |steps|
  {
    if steps != [] {
      ReturnedStays(cfg, s, steps[0]);
      hide Enabled, Apply;
      ReturnedRun(cfg, Apply(cfg, s, steps[0]), steps[1..], t);
    }
  }

  lemma {:induction false} SmoothOrTroubled(cfg: Config, s: State, steps: seq<Step>, t: State)
    requires cfg.segmentSize > 0 && Untroubled(s) && !s.main.Returned? && Leads(cfg, s, steps, t)
    ensures if Smooth(cfg, s, steps) then Untroubled(t) || t.main == Returned(true) else Troubled(t)
    decreases |steps|
  {
    if steps != [] {
      var step, s1 := steps[0], Apply(cfg, s, steps[0]);
      if Fails(cfg, s, step) {
        TroubleStep(cfg, s, step);
        TroubledRun(cfg, s1, steps[1..], t);
      } else {
        UntroubledStep(cfg, s, step);
        if s1.main.Returned? {
          ReturnedRun(cfg, s1, steps[1..], t);
          SmoothBehindReturn(cfg, s1, steps[1..], t);
        } else {
          SmoothOrTroubled(cfg, s1, steps[1..], t);
        }
      }
      hide Enabled, Apply, Fails, Troubled;
    }
  }

  lemma SmoothBehindReturn(cfg: Config, s: State, steps: seq<Step>, t: State)
    requires cfg.segmentSize > 0 && s.main.Returned? && Leads(cfg, s, steps, t)
    ensures Smooth(cfg, s, steps)
  {
    hide Enabled, Apply;
  }

  /** A run in which Do has returned: it returned nil exactly when nothing had gone wrong, and then wrote all of the content. */
  lemma ReturnsNilExactlyWhenSmooth(cfg: Config, steps: seq<Step>, s: State)
    requires cfg.Valid() && Leads(cfg, Init(cfg), steps, s) && s.main.Returned?
    ensures s.main == Returned(true) <==> Smooth(cfg, Init(cfg), steps)
    ensures Smooth(cfg, Init(cfg), steps) ==> s.output == cfg.content
  {
    SmoothOrTroubled(cfg, Init(cfg), steps, s);
    if s.main == Returned(true) {
      SuccessMeansAllBytes(cfg, s);
    }
    hide Leads, Smooth, Init;
  }

  /** Everything is downloaded, one by one, and the merge has been told of the last segment. */
  function LastTold(cfg: Config): State
    requires cfg.segmentSize > 0 && cfg.Tasks() > 0
  {
    var n := cfg.Tasks();
    OneByOne(cfg, n - 1).(next := n, taskMap := {n - 1}, notify := [n - 1], merge := Listening(n - 1), main := Awaiting)
  }

  lemma LastIsTold(cfg: Config)
    requires cfg.Valid() && cfg.Tasks() > 0
    ensures Reachable(cfg, LastTold(cfg))
  {
    var i := cfg.Tasks() - 1;
    OneByOneReachable(cfg, i);
    hide Reachable, Segments, Piece, Merged, AllIdle;
    var s0 := OneByOne(cfg, i);
    var s1 := s0.(merge := Listening(i));
    ReachableOn(cfg, s0, Look);
    Complete(cfg, s1);
    var s2 := s1.(next := i + 1, workers := AllIdle(cfg)[0 := Sending(i)], taskMap := {} + {i}, main := Awaiting);
    Announce(cfg, s2, i);
    assert {} + {i} == {i} && [] + [i] == [i];
  }

  /** Everything is merged, and nobody works any more. */
  function AllMerged(cfg: Config): State
    requires cfg.segmentSize > 0
  {
    State(cfg.Tasks(), AllIdle(cfg), {}, [], Over, Merged(cfg.content, cfg.segmentSize, cfg.Tasks()), false, false, false, Awaiting)
  }

  lemma AllIsMerged(cfg: Config)
    requires cfg.Valid() && cfg.Tasks() > 0
    ensures Reachable(cfg, AllMerged(cfg))
  {
    var i := cfg.Tasks() - 1;
    LastIsTold(cfg);
    PiecesPartition(cfg.content, cfg.segmentSize, i);
    hide Reachable, Segments, Piece, Merged, AllIdle;
    var s3 := LastTold(cfg);
    assert [i][1..] == [] && {i} - {i} == {};
    var s4 := s3.(notify := [], taskMap := {}, merge := Copying(i));
    ReachableOn(cfg, s3, Listen);
    ReachableOn(cfg, s4, Copy(true));
  }

  /** Every download can succeed. */
  lemma CanSucceed(cfg: Config) returns (s: State)
    requires cfg.Valid()
    ensures Reachable(cfg, s) && s.main == Returned(true) && s.output == cfg.content
  {
    SegmentsAreThoseInside(|cfg.content|, cfg.segmentSize, 0);
    AllIsMerged(cfg);
    IdleAll(cfg);
    hide Reachable, Segments, Merged;
    var s5 := AllMerged(cfg);
    ReachableOn(cfg, s5, GroupDone);
    ReachableOn(cfg, s5.(wgDone := true), ReturnDone);
    s := Apply(cfg, s5.(wgDone := true), ReturnDone);
    assert s.main == Returned(true);
    SuccessMeansAllBytes(cfg, s);
  }

  lemma IdleAll(cfg: Config)
    ensures forall w :: 0 <= w < |AllIdle(cfg)| ==> AllIdle(cfg)[w] == Idle
  {
  }
}
