/** The invariant over whole runs, and what it says to users of the CLOCK cache. */
module ClockTheorems {
  import opened Basics
  import opened Sums
  import opened ClockModel
  import opened ClockInvariant
  import opened ClockProofs
  import opened ClockProofsInside
  import opened ClockAccounting

  lemma ShapeActOutside(s: State, t: Tid)
    requires Shape(s) && t < |s.threads| && InRange(s, s.threads[t].pc) && Outer(s.threads[t].pc)
    ensures Shape(Act(s, t))
  {
    var pc := s.threads[t].pc;
    if pc.RefLoad? { ShapeRefLoad(s, t, pc.i, pc.want); }
    else if pc.RefCas? { ShapeRefCas(s, t, pc.i, pc.seen, pc.want); }
    else if pc.PinAdd? { ShapePinAdd(s, t, pc.i, pc.charge, pc.want); }
    else if pc.Check? { ShapeCheck(s, t, pc.i, pc.want); }
    else if pc.SetUsage? { ShapeSetUsage(s, t, pc.i, pc.forceErase); }
    else if pc.Drop? { ShapeDrop(s, t, pc.i, pc.caller); }
    else if pc.PinSub? { ShapePinSub(s, t, pc.i, pc.charge, pc.dead, pc.caller); }
    else if pc.ReadHash? { ShapeReadHash(s, t, pc.i); }
    else if s.mutex.None? { ShapeLock(s, t, pc.job); }
  }

  lemma ShapeActFiling(s: State, t: Tid)
    requires Shape(s) && t < |s.threads| && InRange(s, s.threads[t].pc) && Filing(s.threads[t].pc)
    ensures Shape(Act(s, t))
  {
    var pc := s.threads[t].pc;
    if pc.Fill? { ShapeFill(s, t, pc.n, pc.e, pc.hold, pc.keyed); }
    else if pc.Publish? { ShapePublish(s, t, pc.n, pc.hold); }
    else if pc.FindOld? { ShapeFindOld(s, t, pc.n, pc.hold); }
    else if pc.TableInsert? { ShapeTableInsert(s, t, pc.n, pc.hold); }
    else if pc.PinInsert? { ShapePinInsert(s, t, pc.n); }
    else if pc.AddUsage? { ShapeAddUsage(s, t, pc.n, pc.hold); }
    else { ShapeInsertDone(s, t, pc.n, pc.hold); }
  }

  lemma ShapeActEvicting(s: State, t: Tid)
    requires Shape(s) && t < |s.threads| && InRange(s, s.threads[t].pc)
    requires var pc := s.threads[t].pc;
      pc.EvictStart? || pc.EvictTest? || pc.EvictCas? || pc.EvictClear? || pc.EvictErase? || pc.Evicted?
    ensures Shape(Act(s, t))
  {
    var pc := s.threads[t].pc;
    if pc.EvictStart? { ShapeEvictStart(s, t, pc.ev); }
    else if pc.EvictTest? { ShapeEvictTest(s, t, pc.ev, pc.at, pc.second, pc.usage); }
    else if pc.EvictCas? { ShapeEvictCas(s, t, pc.ev, pc.at, pc.second, pc.usage); }
    else if pc.EvictClear? { ShapeEvictClear(s, t, pc.ev, pc.at, pc.second, pc.usage); }
    else if pc.EvictErase? { ShapeEvictErase(s, t, pc.ev, pc.at, pc.second); }
    else { ShapeEvicted(s, t, pc.ev, pc.ok); }
  }

  lemma ShapeActErasing(s: State, t: Tid)
    requires Shape(s) && t < |s.threads| && InRange(s, s.threads[t].pc)
    requires var pc := s.threads[t].pc; pc.EraseFind? || pc.ClearLoop? || pc.Unset? || pc.Recycle? || pc.Unlock?
    ensures Shape(Act(s, t))
  {
    var pc := s.threads[t].pc;
    if pc.EraseFind? { ShapeEraseFind(s, t, pc.id); }
    else if pc.ClearLoop? { ShapeClearLoop(s, t, pc.next); }
    else if pc.Unset? { ShapeUnset(s, t, pc.i, pc.after); }
    else if pc.Recycle? { ShapeRecycle(s, t, pc.i, pc.after); }
    else { ShapeUnlock(s, t); }
  }

  lemma ShapeAct(s: State, t: Tid)
    requires Shape(s) && t < |s.threads| && InRange(s, s.threads[t].pc) && !s.threads[t].pc.Idle?
    ensures Shape(Act(s, t))
  {
    var pc := s.threads[t].pc;
    if Outer(pc) { ShapeActOutside(s, t); }
    else if Filing(pc) { ShapeActFiling(s, t); }
    else if pc.EvictStart? || pc.EvictTest? || pc.EvictCas? || pc.EvictClear? || pc.EvictErase? || pc.Evicted? {
      ShapeActEvicting(s, t);
    }
    else { ShapeActErasing(s, t); }
  }

  lemma ShapeStep(s: State, t: Tid, call: Call)
    requires Shape(s)
    ensures Shape(Step(s, t, call))
  {
    if t < |s.threads| {
      if s.threads[t].pc.Idle? {
        if Callable(s, call) { ShapeStart(s, t, call); }
      } else if InRange(s, s.threads[t].pc) {
        ShapeAct(s, t);
      }
    }
  }

  // ---- every reachable state

  lemma {:induction false} IdleOwesNothing(threads: seq<Thread>)
    requires forall t :: 0 <= t < |threads| ==> threads[t] == Thread(Idle, Nothing)
    ensures SumBy(Owed, threads) == 0
  {
    if |threads| > 0 { IdleOwesNothing(threads[..|threads| - 1]); }
  }

  lemma ShapeInit(threads: nat)
    ensures Shape(Init(threads))
  {
    var s := Init(threads);
    forall t | 0 <= t < |s.threads| ensures ThreadOk(s, t) && PcOk(s, t) {
      assert s.threads[t] == Thread(Idle, Nothing);
    }
    assert TableInv(s.handles, s.table, NoDebt);
    assert BinOk(s) && HistoryInv(s.handles, s.recycled);
    FromClauses(s);
  }

  lemma InvInit(threads: nat)
    ensures Inv(Init(threads))
  {
    var s := Init(threads);
    ShapeInit(threads);
    IdleOwesNothing(s.threads);
    assert UsageOwed(s) == 0 && PinOwed(s) == 0;
    assert SumBy(Charged, s.handles) == 0 && SumBy(Pinned, s.handles) == 0;
  }

  lemma InvStep(s: State, t: Tid, call: Call)
    requires Inv(s)
    ensures Inv(Step(s, t, call))
  {
    ShapeStep(s, t, call);
    if t < |s.threads| {
      if s.threads[t].pc.Idle? {
        if Callable(s, call) { AccountStart(s, t, call); }
      } else if InRange(s, s.threads[t].pc) {
        AccountAct(s, t);
      }
    }
  }

  lemma {:induction false} InvRun(s: State, schedule: Schedule)
    requires Inv(s)
    ensures Inv(Run(s, schedule))
  {
    if |schedule| > 0 {
      var n := |schedule| - 1;
      InvRun(s, schedule[..n]);
      InvStep(Run(s, schedule[..n]), schedule[n].0, schedule[n].1);
    }
  }

  /** Every state that any interleaving reaches satisfies the invariant. */
  lemma Reachable(threads: nat, schedule: Schedule)
    ensures Inv(Run(Init(threads), schedule))
  {
    InvInit(threads);
    InvRun(Init(threads), schedule);
  }

  lemma DropInRange(s: State, t: Tid)
    requires Shape(s) && t < |s.threads| && s.threads[t].pc.Drop?
    ensures InRange(s, s.threads[t].pc)
  {
    AtThread(s, t);
    HeldIsLive(s, s.threads[t].pc.i, Op(t));
  }

  lemma EvictStartInRange(s: State, t: Tid)
    requires Inv(s) && t < |s.threads| && s.threads[t].pc.EvictStart?
    ensures InRange(s, s.threads[t].pc)
  {
    AtRest(s);
  }

  lemma EvictedInRange(s: State, t: Tid)
    requires Shape(s) && t < |s.threads| && s.threads[t].pc.Evicted?
    ensures InRange(s, s.threads[t].pc)
  {
    AtRest(s);
  }

  lemma RecycleInRange(s: State, t: Tid)
    requires Shape(s) && t < |s.threads| && s.threads[t].pc.Recycle?
    ensures InRange(s, s.threads[t].pc)
  {
    AtThread(s, t);
    AtHandle(s, s.threads[t].pc.i);
  }

  lemma EvictEraseInRange(s: State, t: Tid)
    requires Shape(s) && t < |s.threads| && s.threads[t].pc.EvictErase?
    ensures InRange(s, s.threads[t].pc)
  {
    InsideIs(s, t);
  }

  /** Wherever a thread is, it can go on. */
  lemma CanGoOn(s: State, t: Tid)
    requires Inv(s) && t < |s.threads|
    ensures InRange(s, s.threads[t].pc)
  {
    var pc := s.threads[t].pc;
    if pc.Drop? { DropInRange(s, t); }
    else if pc.EvictStart? { EvictStartInRange(s, t); }
    else if pc.Evicted? { EvictedInRange(s, t); }
    else if pc.Recycle? { RecycleInRange(s, t); }
    else if pc.EvictErase? { EvictEraseInRange(s, t); }
    else { AtThread(s, t); }
  }

  /** In no interleaving does an action index out of range or fail an assertion of the source. */
  lemma NeverStuck(threads: nat, schedule: Schedule, t: Tid)
    requires t < |Run(Init(threads), schedule).threads|
    ensures var s := Run(Init(threads), schedule); InRange(s, s.threads[t].pc)
  {
    Reachable(threads, schedule);
    CanGoOn(Run(Init(threads), schedule), t);
  }

  // ---- each occupancy of a handle is recycled at most once

  lemma RecycledAtMostOnce(threads: nat, schedule: Schedule)
    ensures var log := Run(Init(threads), schedule).recycled;
      forall j, k :: 0 <= j < k < |log| ==> log[j] != log[k]
  {
    Reachable(threads, schedule);
    AtRest(Run(Init(threads), schedule));
  }

  // ---- the table and the usage when the mutex is free

  /** The charge of the first `n` handles, those in the recycle bin excepted. */
  function OutOfBin(s: State, n: nat): int
    requires n <= |s.handles|
  {
    if n == 0 then 0 else OutOfBin(s, n - 1) + if n - 1 in s.recycle then 0 else s.handles[n - 1].entry.Total()
  }

  lemma ChargedUnlessBinned(s: State, i: nat)
    requires Shape(s) && s.mutex == None && i < |s.handles|
    ensures Charged(s.handles[i]) == if i in s.recycle then 0 else s.handles[i].entry.Total()
  {
    AtRest(s);
    AtHandle(s, i);
    if s.handles[i].own.Filling? { AtThread(s, s.handles[i].own.tid); }
  }

  lemma {:induction false} ChargedOutOfBin(s: State, n: nat)
    requires Shape(s) && s.mutex == None && n <= |s.handles|
    ensures OutOfBin(s, n) == SumBy(Charged, s.handles[..n])
  {
    if n > 0 {
      ChargedOutOfBin(s, n - 1);
      assert s.handles[..n][..n - 1] == s.handles[..n - 1];
      ChargedUnlessBinned(s, n - 1);
    }
  }

  /**
   Whenever the mutex is free, the hash map sends a key to a handle exactly when that handle has its in-cache bit
   set and carries that key, and `usage_` is the total charge of the handles that are not in the recycle bin.
   */
  lemma WhenMutexIsFree(threads: nat, schedule: Schedule)
    requires Run(Init(threads), schedule).mutex == None
    ensures var s := Run(Init(threads), schedule);
      && (forall id, i :: (id in s.table && s.table[id] == i) <==>
            (0 <= i < |s.handles| && s.handles[i].flags.inCache && s.handles[i].entry.Id() == id))
      && s.usage == OutOfBin(s, |s.handles|)
  {
    var s := Run(Init(threads), schedule);
    Reachable(threads, schedule);
    AtRest(s);
    ChargedOutOfBin(s, |s.handles|);
    assert s.handles[..|s.handles|] == s.handles;
    forall id, i
      ensures (id in s.table && s.table[id] == i) <==>
              (0 <= i < |s.handles| && s.handles[i].flags.inCache && s.handles[i].entry.Id() == id)
    {
      if 0 <= i < |s.handles| { assert s.handles[i].flags.inCache <==> Mapped(s.handles, s.table, i); }
      if id in s.table && s.table[id] == i { assert s.handles[i].entry.Id() == id; }
    }
  }
}
