/** The merge goroutine of a parallel download (popTask and mergeFile in parallel_download.go) as loops among the other
    goroutines: all it does is a run of the protocol, whatever the others do in between. */
module DownloadMerge {
  import opened Base
  import opened Download
  import opened DownloadProtocol

  /** The steps that are the merge's own. */
  predicate Merges(step: Step) {
    step.OutputFail? || step.Look? || step.Listen? || step.ListenStopped? || step.Copy? || step.CopyFail?
  }

  datatype Popped = Found(i: nat) | Nil | Blocked

  class Merger {
    const cfg: Config
    var s: State

    ghost predicate Valid()
      reads this
    {
      cfg.Valid() && Reachable(cfg, s)
    }

    constructor (cfg: Config)
      requires cfg.Valid()
      ensures Valid() && this.cfg == cfg && s == Init(cfg)
    {
      this.cfg, s := cfg, Init(cfg);
      new;
      assert Leads(cfg, s, [], s);
    }

    method Take(step: Step)
      requires Valid() && Enabled(cfg, s, step)
      modifies this
      ensures Valid() && s == Apply(cfg, old(s), step)
    {
      ReachableOn(cfg, s, step);
      s := Apply(cfg, s, step);
    }

    /** Whatever the other goroutines do before the merge goes on. */
    method Others()
      requires Valid()
      modifies this
      ensures Valid() && s.merge == old(s).merge && s.output == old(s).output
    {
      hide Reachable;
      var rounds: nat := *;
      while rounds > 0
        invariant Valid() && s.merge == old(s).merge && s.output == old(s).output
      {
        var step: Step := *;
        if !Merges(step) && Enabled(cfg, s, step) {
          OthersLeaveMerge(cfg, s, step);
          Take(step);
        }
        rounds := rounds - 1;
      }
    }

    /** Looks into the map once, then listens until the notification for i arrives or everything stops. */
    method PopTask(i: nat) returns (p: Popped)
      requires Valid() && s.merge == Looking(i)
      modifies this
      ensures Valid() && s.output == old(s).output
      ensures p.Found? ==> p.i == i && s.merge == Copying(i)
      ensures p == Nil ==> s.merge == Over && s.stopped
    {
      hide Reachable, Apply;
      Others();
      LookLeaves(cfg, s);
      Take(Look);
      if s.merge == Copying(i) {
        return Found(i);
      }
      var passes: nat := *;
      while passes > 0
        invariant Valid() && s.merge == Listening(i) && s.output == old(s).output
      {
        Others();
        if s.notify != [] {
          ListenLeaves(cfg, s);
          Take(Listen);
          if s.merge == Copying(i) {
            return Found(i);
          }
        } else if s.stopped {
          ListenLeaves(cfg, s);
          Take(ListenStopped);
          return Nil;
        }
        passes := passes - 1;
      }
      return Blocked;
    }

    /** The merge loop: one segment after the other until the last. Unless it is blocked or something failed, the
        output is then the whole content. */
    method MergeFile() returns (finished: bool)
      requires Valid() && s.merge == Looking(0)
      modifies this
      ensures Valid()
      ensures finished ==> s.merge == Over && (s.stopped || s.output == cfg.content)
    {
      hide Reachable, Apply;
      var i := 0;
      LookInside(cfg, s);
      while true
        invariant Valid() && s.merge == Looking(i) && i < cfg.Tasks()
        decreases cfg.Tasks() - i
      {
        var p := PopTask(i);
        if !p.Found? {
          MergeOver(cfg, s);
          return p == Nil;
        }
        var clean: bool, failed: bool := *, *;
        if failed {
          CopyLeaves(cfg, s, clean);
          Take(CopyFail(0));
          return true;
        }
        CopyLeaves(cfg, s, clean);
        Take(Copy(clean));
        if i < cfg.Tasks() - 1 {
          i := i + 1;
          continue;
        }
        MergeOver(cfg, s);
        return true;
      }
    }
  }

  lemma OthersLeaveMerge(cfg: Config, s: State, step: Step)
    requires cfg.segmentSize > 0 && !Merges(step) && Enabled(cfg, s, step)
    ensures Apply(cfg, s, step).merge == s.merge && Apply(cfg, s, step).output == s.output
  {
    hide Segments;
  }

  lemma LookLeaves(cfg: Config, s: State)
    requires cfg.segmentSize > 0 && s.merge.Looking?
    ensures var t := Apply(cfg, s, Look); t.output == s.output && t.merge in {Copying(s.merge.i), Listening(s.merge.i)}
  {
  }

  lemma ListenLeaves(cfg: Config, s: State)
    requires cfg.segmentSize > 0 && s.merge.Listening?
    ensures s.notify != [] ==> var t := Apply(cfg, s, Listen); t.output == s.output && t.merge in {Copying(s.merge.i), s.merge}
    ensures s.stopped ==> Apply(cfg, s, ListenStopped) == s.(merge := Over)
  {
  }

  lemma CopyLeaves(cfg: Config, s: State, clean: bool)
    requires cfg.Valid() && Reachable(cfg, s) && s.merge.Copying?
    ensures s.merge.i < cfg.Tasks()
    ensures Apply(cfg, s, Copy(clean)).merge == if s.merge.i + 1 < cfg.Tasks() then Looking(s.merge.i + 1) else Over
    ensures Apply(cfg, s, CopyFail(0)).merge == Over && Apply(cfg, s, CopyFail(0)).stopped
  {
    AlwaysInv(cfg, s);
    hide Reachable, Segments, Piece, PartOf, TasksTracked, WorkersRight;
  }

  lemma LookInside(cfg: Config, s: State)
    requires cfg.Valid() && Reachable(cfg, s) && s.merge != Over
    ensures s.merge.i < cfg.Tasks()
  {
    AlwaysInv(cfg, s);
    hide Reachable, Segments, TasksTracked, WorkersRight;
  }

  lemma MergeOver(cfg: Config, s: State)
    requires cfg.Valid() && Reachable(cfg, s)
    ensures s.merge == Over ==> s.stopped || s.output == cfg.content
  {
    AlwaysInv(cfg, s);
    hide Reachable, Segments, TasksTracked, WorkersRight;
  }
}
