/**
 The flags of handles in the recycle bin of the CLOCK cache: in-cache bit and count are clear, the usage bit may not be.
 */
module ClockBin {
  import opened Basics
  import opened ClockModel
  import opened ClockInvariant
  import opened ClockProofs
  import opened ClockProofsInside
  import opened ClockAccounting
  import opened ClockTheorems
  import opened ClockEdges
  import opened ClockLife
  import opened ClockPinned

  /** A handle in the bin is neither in cache nor referenced. */
  lemma BinFlags(threads: nat, schedule: Schedule, j: nat)
    requires j < |Run(Init(threads), schedule).recycle|
    ensures var s := Run(Init(threads), schedule);
      s.recycle[j] < |s.handles|
          && s.handles[s.recycle[j]].flags == Flags(false, s.handles[s.recycle[j]].flags.usage, 0)
  {
    var s := Run(Init(threads), schedule);
    Reachable(threads, schedule);
    AtRest(s);
    AtHandle(s, s.recycle[j]);
  }

  // ---- a thread outside the mutex

  lemma StartLeaves(s: State, t: Tid, call: Call, i: nat)
    requires t < |s.threads| && Callable(s, call) && i < |s.handles|
    ensures var s' := Start(s, t, call); |s'.handles| == |s.handles| && s'.handles[i].flags == s.handles[i].flags
  {}

  lemma RefLeaves(s: State, t: Tid, i: nat)
    requires Inv(s) && t < |s.threads| && InRange(s, s.threads[t].pc) && i < |s.handles| && !s.handles[i].flags.inCache
    requires var pc := s.threads[t].pc; pc.RefLoad? || pc.RefCas? || pc.PinAdd? || pc.Check?
    ensures |Act(s, t).handles| == |s.handles| && Act(s, t).handles[i].flags == s.handles[i].flags
  {
    AtThread(s, t);
    var pc := s.threads[t].pc;
    if pc.RefLoad? {} else if pc.RefCas? {} else if pc.PinAdd? {} else {}
  }

  lemma UnrefLeaves(s: State, t: Tid, i: nat)
    requires Inv(s) && t < |s.threads| && InRange(s, s.threads[t].pc) && i < |s.handles| && s.handles[i].flags.refs == 0
    requires var pc := s.threads[t].pc; pc.SetUsage? || pc.Drop? || pc.PinSub? || pc.ReadHash? || pc.Lock?
    ensures |Act(s, t).handles| == |s.handles| && Act(s, t).handles[i].flags == s.handles[i].flags
  {
    AtThread(s, t);
    var pc := s.threads[t].pc;
    if pc.SetUsage? { HeldIsLive(s, pc.i, Op(t)); }
    else if pc.Drop? { HeldIsLive(s, pc.i, Op(t)); }
    else if pc.PinSub? {} else if pc.ReadHash? {} else {}
  }

  /** A thread outside the mutex does not touch the flags of a handle that is neither in cache nor referenced. */
  lemma OutsideLeaves(s: State, t: Tid, call: Call, i: nat)
    requires Inv(s) && t < |s.threads| && s.mutex != Some(t)
    requires i < |s.handles| && !s.handles[i].flags.inCache && s.handles[i].flags.refs == 0
    ensures var s' := Step(s, t, call); |s'.handles| == |s.handles| && s'.handles[i].flags == s.handles[i].flags
  {
    AtThread(s, t);
    var pc := s.threads[t].pc;
    if pc.Idle? {
      if Callable(s, call) { StartLeaves(s, t, call, i); }
    } else if InRange(s, pc) {
      if pc.RefLoad? || pc.RefCas? || pc.PinAdd? || pc.Check? { RefLeaves(s, t, i); } else { UnrefLeaves(s, t, i); }
    }
  }

  // ---- what becomes of the flags in the bin

  lemma EvictClears(s: State, t: Tid, i: nat)
    requires Inv(s) && t < |s.threads| && InRange(s, s.threads[t].pc) && i < |s.handles| && s.handles[i].own.Free?
    requires var pc := s.threads[t].pc; pc.EvictStart? || pc.EvictTest? || pc.EvictClear?
    ensures i < |Act(s, t).handles|
    ensures var f, f' := s.handles[i].flags, Act(s, t).handles[i].flags; f' == f || f' == f.(usage := false)
  {
    AtHandle(s, i);
    var pc := s.threads[t].pc;
    if pc.EvictStart? {} else if pc.EvictTest? {} else {}
  }

  lemma EvictLeaves(s: State, t: Tid, i: nat)
    requires Inv(s) && t < |s.threads| && InRange(s, s.threads[t].pc) && i < |s.handles| && s.handles[i].own.Free?
    requires var pc := s.threads[t].pc; pc.EvictCas? || pc.EvictErase? || pc.Evicted?
    ensures i < |Act(s, t).handles|
    ensures var f, f' := s.handles[i].flags, Act(s, t).handles[i].flags; f' == f || f' == f.(usage := false)
  {
    AtHandle(s, i);
    var pc := s.threads[t].pc;
    if pc.EvictCas? {} else if pc.EvictErase? {} else {}
  }

  lemma FillLeaves(s: State, t: Tid, i: nat)
    requires Inv(s) && t < |s.threads| && InRange(s, s.threads[t].pc) && i < |s.handles| && s.handles[i].own.Free?
    requires var pc := s.threads[t].pc; pc.Fill? || pc.Publish? || pc.FindOld?
    ensures i < |Act(s, t).handles| && Act(s, t).handles[i].flags == s.handles[i].flags
  {
    AtThread(s, t);
    var pc := s.threads[t].pc;
    if pc.Fill? {} else if pc.Publish? {} else {}
  }

  lemma FileLeaves(s: State, t: Tid, i: nat)
    requires Inv(s) && t < |s.threads| && InRange(s, s.threads[t].pc) && i < |s.handles| && s.handles[i].own.Free?
    requires var pc := s.threads[t].pc; pc.TableInsert? || pc.PinInsert? || pc.AddUsage? || pc.InsertDone?
    ensures i < |Act(s, t).handles| && Act(s, t).handles[i].flags == s.handles[i].flags
  {
    AtThread(s, t);
    var pc := s.threads[t].pc;
    if pc.TableInsert? {} else if pc.PinInsert? {} else if pc.AddUsage? {} else {}
  }

  lemma EraseLeaves(s: State, t: Tid, i: nat)
    requires Inv(s) && t < |s.threads| && InRange(s, s.threads[t].pc) && i < |s.handles| && s.handles[i].own.Free?
    requires var pc := s.threads[t].pc; pc.EraseFind? || pc.ClearLoop? || pc.Unset? || pc.Recycle? || pc.Unlock?
    ensures i < |Act(s, t).handles| && Act(s, t).handles[i].flags == s.handles[i].flags
  {
    AtHandle(s, i);
    var pc := s.threads[t].pc;
    if pc.EraseFind? {} else if pc.ClearLoop? {} else if pc.Unset? {} else if pc.Recycle? {} else {}
  }

  lemma FreeFlags(s: State, t: Tid, call: Call, i: nat)
    requires Inv(s) && i < |s.handles| && s.handles[i].own.Free?
    ensures i < |Step(s, t, call).handles|
    ensures var f, f' := s.handles[i].flags, Step(s, t, call).handles[i].flags; f' == f || f' == f.(usage := false)
  {
    AtHandle(s, i);
    if t < |s.threads| {
      AtThread(s, t);
      CanGoOn(s, t);
      var pc := s.threads[t].pc;
      if s.mutex != Some(t) { OutsideLeaves(s, t, call, i); }
      else if pc.Fill? || pc.Publish? || pc.FindOld? { FillLeaves(s, t, i); }
      else if Filing(pc) { FileLeaves(s, t, i); }
      else if pc.EraseFind? || pc.ClearLoop? || pc.Unset? || pc.Recycle? || pc.Unlock? { EraseLeaves(s, t, i); }
      else if pc.EvictStart? || pc.EvictTest? || pc.EvictClear? { EvictClears(s, t, i); }
      else { EvictLeaves(s, t, i); }
    }
  }

  lemma BinnedByRecycling(s: State, t: Tid, call: Call, i: nat)
    requires Inv(s) && i < |s.handles| && !s.handles[i].own.Free?
    requires i < |Step(s, t, call).handles| && Step(s, t, call).handles[i].own.Free?
    ensures Step(s, t, call).handles[i].flags == s.handles[i].flags
  {
    LifeCycle(s, t, call);
    assert LifeStep(s.handles[i], Step(s, t, call).handles[i], t);
    AtHandle(s, i);
    AtThread(s, t);
    if s.threads[t].pc.Recycle? { CanGoOn(s, t); } else { DueLeaves(s, t, call, i); }
  }

  /**
   In every interleaving, a step that puts a handle in the bin takes its flags as they are, and as long as the handle is
   in the bin its usage bit can be cleared but not set.
   */
  lemma BinnedFlags(threads: nat, schedule: Schedule, t: Tid, call: Call, i: nat)
    requires i < |Run(Init(threads), schedule).handles|
    requires i in Step(Run(Init(threads), schedule), t, call).recycle
    ensures var s := Run(Init(threads), schedule);
      var s' := Step(s, t, call);
      i < |s'.handles| &&
      var f, f' := s.handles[i].flags, s'.handles[i].flags;
      f' == f || (i in s.recycle && f' == f.(usage := false))
  {
    var s := Run(Init(threads), schedule);
    var s' := Step(s, t, call);
    Reachable(threads, schedule);
    InvStep(s, t, call);
    AtRest(s);
    AtRest(s');
    if s.handles[i].own.Free? { FreeFlags(s, t, call, i); } else { BinnedByRecycling(s, t, call, i); }
  }

  // ---- what TryEvict recycles has all flags clear

  const Clear := Flags(false, false, 0)

  /** The handle that TryEvict has taken out of the cache and not recycled yet has no flag set. */
  ghost predicate CleanAt(s: State, u: Tid)
    requires u < |s.threads|
  {
    var pc := s.threads[u].pc;
    && (pc.EvictErase? ==> pc.at < |s.handles| && s.handles[pc.at].flags == Clear)
    && (pc.Recycle? && pc.after.ThenEvict? ==> pc.i < |s.handles| && s.handles[pc.i].flags == Clear)
  }

  ghost predicate Clean(s: State) { forall u :: 0 <= u < |s.threads| ==> CleanAt(s, u) }

  /** The points that lead on to EvictErase or Recycle are few. */
  predicate Leading(pc: Pc) { pc.EvictErase? || (pc.Recycle? && pc.after.ThenEvict?) }

  lemma LeadsFrom(pc: Pc, next: Pc)
    requires Edge(pc, next) && Leading(next) && !(pc.Unset? && pc.after.ThenEvict?)
    ensures pc.EvictCas? || pc.EvictErase?
  {}

  /** How a thread comes to recycle for TryEvict. */
  lemma OwnClean(s: State, t: Tid, call: Call)
    requires Inv(s) && t < |s.threads| && CleanAt(s, t)
    ensures |Step(s, t, call).threads| == |s.threads| && CleanAt(Step(s, t, call), t)
  {
    AtThread(s, t);
    StepMoves(s, t, call);
    var pc, next := s.threads[t].pc, Step(s, t, call).threads[t].pc;
    if next == pc {
      if Leading(pc) { NoStutter(s, t, call); }
    } else if Leading(next) {
      LeadsFrom(pc, next);
      OwnTaking(s, t);
    }
  }

  /** A thread that is about to recycle for TryEvict moves on. */
  lemma NoStutter(s: State, t: Tid, call: Call)
    requires t < |s.threads| && Leading(s.threads[t].pc) && Step(s, t, call).threads[t].pc == s.threads[t].pc
    requires |Step(s, t, call).threads| == |s.threads|
    ensures Step(s, t, call) == s
  {
    if InRange(s, s.threads[t].pc) { ActMoves(s, t); }
  }

  lemma OwnTaking(s: State, t: Tid)
    requires t < |s.threads| && InRange(s, s.threads[t].pc) && PcOk(s, t) && CleanAt(s, t)
    requires var pc := s.threads[t].pc; pc.EvictCas? || pc.EvictErase?
    ensures t < |Act(s, t).threads| && CleanAt(Act(s, t), t)
  {
    var pc := s.threads[t].pc;
    if pc.EvictCas? {} else {}
  }

  lemma CleanStep(s: State, t: Tid, call: Call)
    requires Inv(s) && Clean(s)
    ensures Clean(Step(s, t, call))
  {
    var s' := Step(s, t, call);
    if t < |s.threads| {
      assert CleanAt(s, t);
      OwnClean(s, t, call);
      forall u | 0 <= u < |s.threads| && u != t ensures |s'.threads| == |s.threads| && CleanAt(s', u) {
        StepMoves(s, t, call);
        assert CleanAt(s, u);
        OtherClean(s, t, call, u);
      }
    }
  }

  lemma OtherClean(s: State, t: Tid, call: Call, u: Tid)
    requires Inv(s) && t < |s.threads| && u < |s.threads| && u != t && CleanAt(s, u)
    requires |Step(s, t, call).threads| == |s.threads| && Step(s, t, call).threads[u] == s.threads[u]
    ensures CleanAt(Step(s, t, call), u)
  {
    var pc := s.threads[u].pc;
    AtThread(s, u);
    if pc.EvictErase? { OutsideLeaves(s, t, call, pc.at); }
    else if pc.Recycle? && pc.after.ThenEvict? { OutsideLeaves(s, t, call, pc.i); }
  }

  lemma {:induction false} CleanRun(threads: nat, schedule: Schedule)
    ensures Clean(Run(Init(threads), schedule))
  {
    if |schedule| > 0 {
      var n := |schedule| - 1;
      CleanRun(threads, schedule[..n]);
      Reachable(threads, schedule[..n]);
      CleanStep(Run(Init(threads), schedule[..n]), schedule[n].0, schedule[n].1);
    }
  }

  /** What TryEvict puts in the bin has no flag set, in every interleaving. */
  lemma EvictedFlagsAreClear(threads: nat, schedule: Schedule, t: Tid)
    requires t < |Run(Init(threads), schedule).threads|
    requires var pc := Run(Init(threads), schedule).threads[t].pc; pc.Recycle? && pc.after.ThenEvict?
    ensures Run(Init(threads), schedule).threads[t].pc.i < |Run(Init(threads), schedule).handles|
    ensures var s := Run(Init(threads), schedule);
      var i := s.threads[t].pc.i;
      var s' := DoRecycle(s, t, i, s.threads[t].pc.after);
      Step(s, t, EraseUnRefEntries) == s' && s'.handles[i].flags == Clear && s'.handles[i].own.Free?
  {
    var s := Run(Init(threads), schedule);
    NeverStuck(threads, schedule, t);
    CleanRun(threads, schedule);
    assert CleanAt(s, t);
  }
}
