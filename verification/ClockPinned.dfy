/** When `pinned_usage_` of the CLOCK cache stays right although operations overlap. */
module ClockPinned {
  import opened Basics
  import opened Sums
  import opened ClockModel
  import opened ClockInvariant
  import opened ClockAccounting
  import opened ClockTheorems
  import opened ClockLife
  import opened ClockEdges

  // ---- who changes a total charge

  /** The handle to which the thread is about to give another total charge, and that total. */
  function Retotals(s: State, t: Tid): Option<(nat, nat)>
    requires t < |s.threads|
  {
    match s.threads[t].pc
    case Fill(n, e, _, keyed) =>
      if n >= |s.handles| then None
      else Some((n, if keyed then e.Total() else e.(charge := s.handles[n].entry.charge).Total()))
    case Recycle(i, _) => if i < |s.handles| then Some((i, s.handles[i].entry.charge)) else None
    case _ => None
  }

  /** A thread that has filled a handle is about to publish it. */
  lemma FilledIsPublished(s: State, t: Tid, i: nat)
    requires Inv(s) && t < |s.threads| && i < |s.handles| && s.handles[i].own == Filling(t)
    ensures var pc := s.threads[t].pc; (pc.Fill? && pc.n == i) || (pc.Publish? && pc.n == i)
  {
    AtHandle(s, i);
    AtThread(s, t);
  }

  lemma PublishKeepsEntry(s: State, t: Tid, call: Call)
    requires t < |s.threads| && s.threads[t].pc.Publish? && s.threads[t].pc.n < |s.handles|
    ensures var n := s.threads[t].pc.n;
      n < |Step(s, t, call).handles| && Step(s, t, call).handles[n].entry == s.handles[n].entry
  {}

  /** A thread that is due to recycle a handle leaves all handles alone until it does. */
  lemma DueLeaves(s: State, t: Tid, call: Call, i: nat)
    requires Inv(s) && t < |s.threads| && i < |s.handles| && s.handles[i].own == Dying(t)
    requires !(s.threads[t].pc.Recycle? && s.threads[t].pc.i == i)
    ensures Step(s, t, call).handles == s.handles
  {
    AtHandle(s, i);
    AtThread(s, t);
    CanGoOn(s, t);
    if Outer(s.threads[t].pc) { LifeUntouchedOutside(s, t); } else { LifeUntouchedInside(s, t); }
  }

  /** Only filling and recycling change a total charge. */
  lemma TotalStays(s: State, t: Tid, call: Call, i: nat)
    requires Inv(s) && t < |s.threads| && i < |s.handles|
    requires Retotals(s, t).Some? ==> Retotals(s, t).value.0 != i
    ensures i < |Step(s, t, call).handles| && Step(s, t, call).handles[i].entry.Total() == s.handles[i].entry.Total()
  {
    if s.handles[i].own == Filling(t) {
      FilledIsPublished(s, t, i);
      PublishKeepsEntry(s, t, call);
    } else if s.handles[i].own == Dying(t) {
      DueLeaves(s, t, call, i);
    } else {
      LifeCycle(s, t, call);
      EntryByLife(s, Step(s, t, call), t, i);
    }
  }

  lemma EntryByLife(s: State, s': State, t: Tid, i: nat)
    requires LivesOn(s, s', t) && i < |s.handles| && s.handles[i].own != Filling(t) && s.handles[i].own != Dying(t)
    ensures i < |s'.handles| && s'.handles[i].entry == s.handles[i].entry
  {
    assert LifeStep(s.handles[i], s'.handles[i], t);
  }

  lemma TotalBecomes(s: State, t: Tid, call: Call)
    requires Inv(s) && t < |s.threads| && Retotals(s, t).Some?
    ensures var (i, total) := Retotals(s, t).value;
      i < |Step(s, t, call).handles| && Step(s, t, call).handles[i].entry.Total() == total
  {
    CanGoOn(s, t);
    if s.threads[t].pc.Fill? {} else {}
  }

  // ---- one step

  /**
   If the step gives a handle another total charge, then no thread stands between dropping its last reference to that
   handle and reading the total, unless it dropped the same total.
   */
  ghost predicate Harmless(s: State, t: Tid) {
    t < |s.threads| && Retotals(s, t).Some? ==>
      var (i, total) := Retotals(s, t).value;
      forall u :: 0 <= u < |s.threads| && s.threads[u].pc.PinSub? && s.threads[u].pc.i == i ==>
        s.threads[u].pc.charge == total
  }

  /** The read that is still to come will give the total that the handle had when it was dropped. */
  ghost predicate ReadsRight(s: State, u: Tid)
    requires u < |s.threads|
  {
    var pc := s.threads[u].pc;
    pc.PinSub? ==> pc.i < |s.handles| && pc.charge == s.handles[pc.i].entry.Total()
  }

  /**
   `pinned_usage_`, with the corrections that operations in progress still owe, is the charge of the referenced
   handles; and those operations would correct it by the right amounts now.
   */
  ghost predicate Exact(s: State) {
    && s.pinned + PinOwed(s) + SumBy(Owed, s.threads) == SumBy(Pinned, s.handles)
    && forall u :: 0 <= u < |s.threads| ==> ReadsRight(s, u)
  }

  lemma ExactIs(s: State)
    requires Inv(s)
    ensures Exact(s) <==> NoDrift(s)
  {
    forall u | 0 <= u < |s.threads| && NoDrift(s) ensures ReadsRight(s, u) {}
    forall u | 0 <= u < |s.threads| && s.threads[u].pc.PinSub?
        && (forall v :: 0 <= v < |s.threads| ==> ReadsRight(s, v))
      ensures s.threads[u].pc.i < |s.handles| && s.threads[u].pc.charge == s.handles[s.threads[u].pc.i].entry.Total()
    {
      assert ReadsRight(s, u);
    }
  }

  lemma OtherReads(s: State, t: Tid, call: Call, u: Tid)
    requires Inv(s) && Harmless(s, t) && t < |s.threads| && u < |s.threads| && u != t && ReadsRight(s, u)
    ensures u < |Step(s, t, call).threads| && ReadsRight(Step(s, t, call), u)
  {
    StepMoves(s, t, call);
    var pc := s.threads[u].pc;
    if pc.PinSub? {
      if Retotals(s, t).Some? && Retotals(s, t).value.0 == pc.i { TotalBecomes(s, t, call); }
      else { TotalStays(s, t, call, pc.i); }
    }
  }

  lemma OwnReads(s: State, t: Tid, call: Call)
    requires NoDrift(s) && t < |s.threads|
    ensures t < |Step(s, t, call).threads| && ReadsRight(Step(s, t, call), t) && Step(s, t, call).drift == 0
  {
    var pc := s.threads[t].pc;
    if pc.Idle? {
      if Callable(s, call) { StartReads(s, t, call); }
    } else if InRange(s, pc) {
      if pc.Drop? {} else if pc.PinSub? {} else { DriftIsKept(s, t); }
    }
  }

  lemma StartReads(s: State, t: Tid, call: Call)
    requires t < |s.threads| && s.threads[t].pc.Idle? && Callable(s, call)
    ensures var s' := Start(s, t, call);
      |s'.threads| == |s.threads| && !s'.threads[t].pc.PinSub? && s'.drift == s.drift
  {}

  lemma HarmlessStep(s: State, t: Tid, call: Call)
    requires Inv(s) && Exact(s) && Harmless(s, t)
    ensures Exact(Step(s, t, call))
  {
    var s' := Step(s, t, call);
    InvStep(s, t, call);
    ExactIs(s);
    if t < |s.threads| {
      OwnReads(s, t, call);
      StepMoves(s, t, call);
      forall u | 0 <= u < |s.threads| && u != t ensures ReadsRight(s', u) {
        OtherReads(s, t, call, u);
      }
    }
  }

  lemma HarmfulStep(s: State, t: Tid, call: Call)
    requires Inv(s) && !Harmless(s, t)
    ensures !Exact(Step(s, t, call))
  {
    var (i, total) := Retotals(s, t).value;
    var u :| 0 <= u < |s.threads| && s.threads[u].pc.PinSub? && s.threads[u].pc.i == i
             && s.threads[u].pc.charge != total;
    TotalBecomes(s, t, call);
    StepMoves(s, t, call);
    assert !ReadsRight(Step(s, t, call), u);
  }

  /** A step keeps `pinned_usage_` exact if and only if it is harmless. */
  lemma ExactStep(s: State, t: Tid, call: Call)
    requires Inv(s) && Exact(s)
    ensures Exact(Step(s, t, call)) <==> Harmless(s, t)
  {
    if Harmless(s, t) { HarmlessStep(s, t, call); } else { HarmfulStep(s, t, call); }
  }

  // ---- whole runs

  /** Every step of the run is harmless. */
  ghost predicate AllHarmless(s: State, schedule: Schedule) {
    |schedule| > 0 ==>
      var n := |schedule| - 1;
      AllHarmless(s, schedule[..n]) && Harmless(Run(s, schedule[..n]), schedule[n].0)
  }

  /** `pinned_usage_` is exact after the run and at every earlier point of it. */
  ghost predicate AllExact(s: State, schedule: Schedule) {
    Exact(Run(s, schedule)) && (|schedule| > 0 ==> AllExact(s, schedule[..|schedule| - 1]))
  }

  lemma StartsExact(threads: nat)
    ensures Exact(Init(threads))
  {
    var s := Init(threads);
    Reachable(threads, []);
    assert Run(s, []) == s;
    assert NoDrift(s);
    ExactIs(s);
  }

  /**
   However operations overlap, `pinned_usage_` is exact all through a run if and only if no step fills or recycles a
   handle, and thereby changes its total charge, while a thread is between dropping its last reference to the handle
   and reading the total.
   */
  lemma {:induction false} PinnedUsageStaysExact(threads: nat, schedule: Schedule)
    ensures AllExact(Init(threads), schedule) <==> AllHarmless(Init(threads), schedule)
  {
    if |schedule| == 0 {
      StartsExact(threads);
    } else {
      var n := |schedule| - 1;
      PinnedUsageStaysExact(threads, schedule[..n]);
      if AllExact(Init(threads), schedule[..n]) {
        var s := Run(Init(threads), schedule[..n]);
        Reachable(threads, schedule[..n]);
        ExactStep(s, schedule[n].0, schedule[n].1);
      }
    }
  }

  /** Hence in such a run it is, whenever no operation is in progress, the charge of the referenced handles. */
  lemma PinnedUsageIsExact(threads: nat, schedule: Schedule)
    requires AllHarmless(Init(threads), schedule) && Quiescent(Run(Init(threads), schedule))
    ensures var s := Run(Init(threads), schedule); s.pinned == SumBy(Pinned, s.handles)
  {
    PinnedUsageStaysExact(threads, schedule);
    Reachable(threads, schedule);
    ExactIs(Run(Init(threads), schedule));
    PinnedUsageAtRest(threads, schedule);
  }
}
