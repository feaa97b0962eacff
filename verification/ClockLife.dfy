/** What one action can do to a handle's life, to the references handed out, and to the pinned charge. */
module ClockLife {
  import opened Basics
  import opened Sums
  import opened ClockModel
  import opened ClockInvariant
  import opened ClockProofs
  import opened ClockProofsInside
  import opened ClockAccounting
  import opened ClockTheorems
  import opened ClockEdges

  /**
   The only things an action of thread `t` can do to a handle: leave it in its place in the life cycle, with its
   entry untouched unless `t` is filling it; take it from the bin; publish it; bring its in-cache bit and its
   count both to zero and thereby become the one thread due to recycle it; or recycle it, being that thread.
   */
  predicate LifeStep(h: Handle, h': Handle, t: Tid) {
    || (h'.own == h.own && h'.occupancy == h.occupancy && (h'.entry == h.entry || h.own == Filling(t)))
    || (h.own.Free? && h'.own == Filling(t) && h'.occupancy == h.occupancy + 1 && h'.entry == h.entry)
    || (h.own == Filling(t) && h'.own.Live? && h'.occupancy == h.occupancy && h'.entry == h.entry)
    || (h.own.Live? && h'.own == Dying(t) && h'.occupancy == h.occupancy && h'.entry == h.entry
        && (h.flags.inCache || h.flags.refs > 0) && !h'.flags.inCache && h'.flags.refs == 0)
    || (h.own == Dying(t) && h'.own.Free? && h'.occupancy == h.occupancy && !h.flags.inCache && h.flags.refs == 0
        && h'.entry == h.entry.(key := "", value := 0))
  }

  ghost predicate LivesOn(s: State, s': State, t: Tid) {
    |s.handles| <= |s'.handles| && forall i :: 0 <= i < |s.handles| ==> LifeStep(s.handles[i], s'.handles[i], t)
  }

  /** References that stay handed out keep their record, and a new one gets a new number. */
  ghost predicate GrantsOn(s: State, s': State) {
    && s.nextGrant <= s'.nextGrant
    && forall g :: g in s'.grants ==> (g in s.grants && s'.grants[g] == s.grants[g]) || g == s.nextGrant
  }

  /** One handle changed, by a step of its life; the references handed out are as before or changed as said. */
  lemma LifeAt(s: State, s': State, t: Tid, i: nat)
    requires i < |s.handles| == |s'.handles| && s'.handles == s.handles[i := s'.handles[i]]
    requires LifeStep(s.handles[i], s'.handles[i], t)
    ensures LivesOn(s, s', t)
  {}

  lemma LifeRefCas(s: State, t: Tid, i: nat, seen: Flags, want: Want)
    requires t < |s.threads| && i < |s.handles|
    ensures var s' := DoRefCas(s, t, i, seen, want); LivesOn(s, s', t) && GrantsOn(s, s')
  {
    LifeAt(s, DoRefCas(s, t, i, seen, want), t, i);
  }

  lemma LifeCheck(s: State, t: Tid, i: nat, want: Want)
    requires t < |s.threads| && i < |s.handles|
    ensures var s' := DoCheck(s, t, i, want); LivesOn(s, s', t) && GrantsOn(s, s')
  {
    LifeAt(s, DoCheck(s, t, i, want), t, i);
  }

  lemma LifeSetUsage(s: State, t: Tid, i: nat, force: bool)
    requires t < |s.threads| && i < |s.handles|
    ensures var s' := DoSetUsage(s, t, i, force); LivesOn(s, s', t) && GrantsOn(s, s')
  {
    LifeAt(s, DoSetUsage(s, t, i, force), t, i);
  }

  lemma LifeDrop(s: State, t: Tid, i: nat, caller: Caller)
    requires t < |s.threads| && i < |s.handles| && s.handles[i].own.Live? && s.handles[i].flags.refs > 0
    ensures var s' := DoDrop(s, t, i, caller); LivesOn(s, s', t) && GrantsOn(s, s')
  {
    LifeAt(s, DoDrop(s, t, i, caller), t, i);
  }

  lemma LifeEvictCas(s: State, t: Tid, ev: Evictor, at: nat, second: bool, usage: int)
    requires t < |s.threads| && at < |s.handles| && (s.handles[at].flags.inCache ==> s.handles[at].own.Live?)
    ensures var s' := DoEvictCas(s, t, ev, at, second, usage); LivesOn(s, s', t) && GrantsOn(s, s')
  {
    LifeAt(s, DoEvictCas(s, t, ev, at, second, usage), t, at);
  }

  lemma LifeEvictClear(s: State, t: Tid, ev: Evictor, at: nat, second: bool, usage: int)
    requires t < |s.threads| && at < |s.handles|
    ensures var s' := DoEvictClear(s, t, ev, at, second, usage); LivesOn(s, s', t) && GrantsOn(s, s')
  {
    LifeAt(s, DoEvictClear(s, t, ev, at, second, usage), t, at);
  }

  lemma LifeEvicted(s: State, t: Tid, ev: Evictor, ok: bool)
    requires t < |s.threads|
    requires |s.recycle| > 0 ==>
      s.recycle[|s.recycle| - 1] < |s.handles| && s.handles[s.recycle[|s.recycle| - 1]].own.Free?
    ensures var s' := DoEvicted(s, t, ev, ok); LivesOn(s, s', t) && GrantsOn(s, s')
  {
    if ev.ForInsert? && (ok || (!s.strict && ev.hold)) && |s.recycle| > 0 {
      LifeAt(s, DoGrab(s, t, ev.e, ev.hold), t, s.recycle[|s.recycle| - 1]);
    }
  }

  lemma LifeFill(s: State, t: Tid, n: nat, e: Entry, hold: bool, keyed: bool)
    requires t < |s.threads| && n < |s.handles| && s.handles[n].own == Filling(t)
    ensures var s' := DoFill(s, t, n, e, hold, keyed); LivesOn(s, s', t) && GrantsOn(s, s')
  {
    LifeAt(s, DoFill(s, t, n, e, hold, keyed), t, n);
  }

  lemma LifePublish(s: State, t: Tid, n: nat, hold: bool)
    requires t < |s.threads| && n < |s.handles| && s.handles[n].own == Filling(t)
    ensures var s' := DoPublish(s, t, n, hold); LivesOn(s, s', t) && GrantsOn(s, s')
  {
    LifeAt(s, DoPublish(s, t, n, hold), t, n);
  }

  lemma LifeInsertDone(s: State, t: Tid, n: nat, hold: bool)
    requires t < |s.threads| && n < |s.handles|
    ensures var s' := DoInsertDone(s, t, n, hold); LivesOn(s, s', t) && GrantsOn(s, s')
  {
    LifeAt(s, DoInsertDone(s, t, n, hold), t, n);
  }

  lemma LifeUnset(s: State, t: Tid, i: nat, after: After)
    requires t < |s.threads| && i < |s.handles| && (s.handles[i].flags.inCache ==> s.handles[i].own.Live?)
    ensures var s' := DoUnset(s, t, i, after); LivesOn(s, s', t) && GrantsOn(s, s')
  {
    LifeAt(s, DoUnset(s, t, i, after), t, i);
  }

  lemma LifeRecycle(s: State, t: Tid, i: nat, after: After)
    requires t < |s.threads| && i < |s.handles| && s.handles[i].own == Dying(t) && !s.handles[i].flags.inCache
    requires s.handles[i].flags.refs == 0
    ensures var s' := DoRecycle(s, t, i, after); LivesOn(s, s', t) && GrantsOn(s, s')
  {
    LifeAt(s, DoRecycle(s, t, i, after), t, i);
  }

  lemma LifeRelease(s: State, t: Tid, g: nat, force: bool)
    requires t < |s.threads| && g in s.grants && s.grants[g].idx < |s.handles|
    ensures var s' := DoRelease(s, t, g, force); LivesOn(s, s', t) && GrantsOn(s, s')
  {
    LifeAt(s, DoRelease(s, t, g, force), t, s.grants[g].idx);
  }

  /** Points of the code whose action changes a handle or the references handed out. */
  predicate Touches(pc: Pc) {
    || pc.RefCas? || pc.Check? || pc.SetUsage? || pc.Drop? || pc.EvictCas? || pc.EvictClear? || pc.Evicted?
    || pc.Fill? || pc.Publish? || pc.InsertDone? || pc.Unset? || pc.Recycle?
  }

  ghost predicate Untouched(s: State, s': State) {
    s'.handles == s.handles && s'.grants == s.grants && s'.nextGrant == s.nextGrant
  }

  lemma LifeUntouchedOutside(s: State, t: Tid)
    requires t < |s.threads| && InRange(s, s.threads[t].pc)
    requires var pc := s.threads[t].pc; pc.RefLoad? || pc.PinAdd? || pc.PinSub? || pc.ReadHash? || pc.Lock?
    ensures Untouched(s, Act(s, t))
  {
    var pc := s.threads[t].pc;
    if pc.RefLoad? {} else if pc.PinAdd? {} else if pc.PinSub? {} else if pc.ReadHash? {} else {}
  }

  lemma LifeUntouchedInside(s: State, t: Tid)
    requires t < |s.threads| && InRange(s, s.threads[t].pc) && !s.threads[t].pc.Idle? && !Touches(s.threads[t].pc)
    requires !Outer(s.threads[t].pc)
    ensures Untouched(s, Act(s, t))
  {
    var pc := s.threads[t].pc;
    if pc.EvictStart? {} else if pc.EvictTest? {} else if pc.EvictErase? {} else if pc.FindOld? {}
    else if pc.TableInsert? {} else if pc.PinInsert? {} else if pc.AddUsage? {} else if pc.EraseFind? {}
    else if pc.ClearLoop? {} else {}
  }

  lemma LifeOutside(s: State, t: Tid)
    requires Inv(s) && t < |s.threads| && InRange(s, s.threads[t].pc)
    requires var pc := s.threads[t].pc; pc.RefCas? || pc.Check? || pc.SetUsage? || pc.Drop?
    ensures LivesOn(s, Act(s, t), t) && GrantsOn(s, Act(s, t))
  {
    AtThread(s, t);
    var pc := s.threads[t].pc;
    if pc.RefCas? { LifeRefCas(s, t, pc.i, pc.seen, pc.want); }
    else if pc.Check? { LifeCheck(s, t, pc.i, pc.want); }
    else if pc.SetUsage? { LifeSetUsage(s, t, pc.i, pc.forceErase); }
    else { HeldIsLive(s, pc.i, Op(t)); LifeDrop(s, t, pc.i, pc.caller); }
  }

  lemma LifeInside(s: State, t: Tid)
    requires Inv(s) && t < |s.threads| && InRange(s, s.threads[t].pc)
    requires var pc := s.threads[t].pc; pc.EvictCas? || pc.EvictClear? || pc.Evicted? || pc.Unset? || pc.Recycle?
    ensures LivesOn(s, Act(s, t), t) && GrantsOn(s, Act(s, t))
  {
    InsideIs(s, t);
    var pc := s.threads[t].pc;
    if pc.EvictCas? { AtHandle(s, pc.at); LifeEvictCas(s, t, pc.ev, pc.at, pc.second, pc.usage); }
    else if pc.EvictClear? { LifeEvictClear(s, t, pc.ev, pc.at, pc.second, pc.usage); }
    else if pc.Evicted? { LifeEvicted(s, t, pc.ev, pc.ok); }
    else if pc.Unset? { AtHandle(s, pc.i); LifeUnset(s, t, pc.i, pc.after); }
    else { LifeRecycle(s, t, pc.i, pc.after); }
  }

  lemma LifeInsert(s: State, t: Tid)
    requires Inv(s) && t < |s.threads| && InRange(s, s.threads[t].pc)
    requires var pc := s.threads[t].pc; pc.Fill? || pc.Publish? || pc.InsertDone?
    ensures LivesOn(s, Act(s, t), t) && GrantsOn(s, Act(s, t))
  {
    AtThread(s, t);
    var pc := s.threads[t].pc;
    if pc.Fill? { LifeFill(s, t, pc.n, pc.e, pc.hold, pc.keyed); }
    else if pc.Publish? { LifePublish(s, t, pc.n, pc.hold); }
    else { LifeInsertDone(s, t, pc.n, pc.hold); }
  }

  lemma LifeStart(s: State, t: Tid, call: Call)
    requires t < |s.threads| && Callable(s, call)
    ensures LivesOn(s, Start(s, t, call), t) && GrantsOn(s, Start(s, t, call))
  {
    if call.Release? { LifeRelease(s, t, call.grant, call.forceErase); }
  }

  lemma LifeAct(s: State, t: Tid)
    requires Inv(s) && t < |s.threads| && InRange(s, s.threads[t].pc) && !s.threads[t].pc.Idle?
    ensures LivesOn(s, Act(s, t), t) && GrantsOn(s, Act(s, t))
  {
    var pc := s.threads[t].pc;
    if !Touches(pc) { if Outer(pc) { LifeUntouchedOutside(s, t); } else { LifeUntouchedInside(s, t); } }
    else if pc.RefCas? || pc.Check? || pc.SetUsage? || pc.Drop? { LifeOutside(s, t); }
    else if pc.Fill? || pc.Publish? || pc.InsertDone? { LifeInsert(s, t); }
    else { LifeInside(s, t); }
  }

  /** In every state an interleaving reaches, every action moves every handle only along its life cycle. */
  lemma LifeCycle(s: State, t: Tid, call: Call)
    requires Inv(s)
    ensures LivesOn(s, Step(s, t, call), t) && GrantsOn(s, Step(s, t, call))
  {
    if t < |s.threads| {
      var pc := s.threads[t].pc;
      if pc.Idle? {
        if Callable(s, call) { LifeStart(s, t, call); }
      } else if InRange(s, pc) {
        LifeAct(s, t);
      }
    }
  }

  /** A handle with a positive count is not recycled or refilled: it keeps its occupancy and its entry. */
  lemma ReferencedIsKept(threads: nat, schedule: Schedule, t: Tid, call: Call, i: nat)
    requires var s := Run(Init(threads), schedule); i < |s.handles| && s.handles[i].flags.refs > 0
    ensures var s := Run(Init(threads), schedule);
      var s' := Step(s, t, call);
      && i < |s'.handles| && s'.handles[i].occupancy == s.handles[i].occupancy
      && s'.handles[i].entry == s.handles[i].entry
      && !s'.handles[i].own.Free? && !s'.handles[i].own.Filling?
      && i !in s'.recycle
  {
    var s := Run(Init(threads), schedule);
    Reachable(threads, schedule);
    LifeCycle(s, t, call);
    AtHandle(s, i);
    ShapeStep(s, t, call);
    AtRest(Step(s, t, call));
  }

  /**
   A handle enters the recycle bin only by an action of the thread whose own earlier action brought its in-cache
   bit and its count both to zero, and no other thread can bring it there meanwhile.
   */
  lemma OnlyTheFinisherRecycles(threads: nat, schedule: Schedule, t: Tid, call: Call, i: nat)
    requires i < |Run(Init(threads), schedule).handles|
    ensures var s := Run(Init(threads), schedule);
      var s' := Step(s, t, call);
      i < |s'.handles| &&
      var h, h' := s.handles[i], s'.handles[i];
      && (i !in s.recycle && i in s'.recycle ==> h.own == Dying(t) && !h.flags.inCache && h.flags.refs == 0)
      && ((h.flags.inCache || h.flags.refs > 0) && !(h'.flags.inCache || h'.flags.refs > 0) ==> h'.own == Dying(t))
      && (h.own.Dying? && h'.own != h.own ==> h.own == Dying(t) && i in s'.recycle)
      && (h'.own.Dying? && h'.own != h.own ==> h'.own == Dying(t) && (h.flags.inCache || h.flags.refs > 0))
  {
    var s := Run(Init(threads), schedule);
    var s' := Step(s, t, call);
    Reachable(threads, schedule);
    LifeCycle(s, t, call);
    ShapeStep(s, t, call);
    AtHandle(s, i);
    AtHandle(s', i);
    AtRest(s);
    AtRest(s');
  }

  // ---- references handed out

  lemma {:induction false} RunSplit(s: State, first: Schedule, second: Schedule)
    ensures Run(s, first + second) == Run(Run(s, first), second)
  {
    if |second| == 0 {
      assert first + second == first;
    } else {
      var n := |second| - 1;
      assert (first + second)[..|first| + n] == first + second[..n];
      RunSplit(s, first, second[..n]);
    }
  }

  lemma {:induction false} GrantLasts(s: State, schedule: Schedule, g: nat)
    requires Inv(s) && g < s.nextGrant && g in Run(s, schedule).grants
    ensures g in s.grants && Run(s, schedule).grants[g] == s.grants[g]
    ensures s.nextGrant <= Run(s, schedule).nextGrant
    decreases |schedule|
  {
    if |schedule| > 0 {
      var n := |schedule| - 1;
      var s1 := Run(s, schedule[..n]);
      InvRun(s, schedule[..n]);
      NextGrows(s, schedule[..n]);
      LifeCycle(s1, schedule[n].0, schedule[n].1);
      GrantLasts(s, schedule[..n], g);
    }
  }

  lemma {:induction false} NextGrows(s: State, schedule: Schedule)
    requires Inv(s)
    ensures s.nextGrant <= Run(s, schedule).nextGrant
  {
    if |schedule| > 0 {
      var n := |schedule| - 1;
      NextGrows(s, schedule[..n]);
      InvRun(s, schedule[..n]);
      LifeCycle(Run(s, schedule[..n]), schedule[n].0, schedule[n].1);
    }
  }

  /**
   A handle that Lookup returned holds exactly the requested key and hash, and whatever runs until the caller
   releases it, the handle's key, hash, value and charge are those it had when it was returned.
   */
  lemma LookupResultIsStable(threads: nat, first: Schedule, second: Schedule, g: nat)
    requires g in Run(Init(threads), first).grants && g in Run(Init(threads), first + second).grants
    ensures var s, s' := Run(Init(threads), first), Run(Init(threads), first + second);
      var r := s.grants[g];
      && s'.grants[g] == r && r.idx < |s.handles| && r.idx < |s'.handles|
      && s'.handles[r.idx].entry == s.handles[r.idx].entry == r.entry
      && s'.handles[r.idx].flags.refs > 0 && r.idx !in s'.recycle
      && (r.want.WantKey? ==> s'.handles[r.idx].entry.Id() == r.want.id)
  {
    var s, s' := Run(Init(threads), first), Run(Init(threads), first + second);
    RunSplit(Init(threads), first, second);
    Reachable(threads, first);
    Reachable(threads, first + second);
    AtGrant(s, g);
    AtGrant(s', g);
    GrantLasts(s, second, g);
    HeldIsLive(s', s'.grants[g].idx, Ext(g));
    AtRest(s');
  }

  // ---- the pinned charge

  ghost predicate Quiescent(s: State) {
    forall t :: 0 <= t < |s.threads| ==> s.threads[t].pc.Idle?
  }

  lemma {:induction false} QuietOwesNothing(threads: seq<Thread>)
    requires forall t :: 0 <= t < |threads| ==> threads[t].pc.Idle?
    ensures SumBy(Owed, threads) == 0
  {
    if |threads| > 0 { QuietOwesNothing(threads[..|threads| - 1]); }
  }

  /**
   When no operation is in progress, `pinned_usage_` is the charge of the referenced handles exactly if the differences
   between the charges of dropped handles and the charges read after dropping them add up to zero.
   */
  lemma PinnedUsageAtRest(threads: nat, schedule: Schedule)
    requires Quiescent(Run(Init(threads), schedule))
    ensures var s := Run(Init(threads), schedule); s.pinned == SumBy(Pinned, s.handles) <==> s.drift == 0
  {
    var s := Run(Init(threads), schedule);
    Reachable(threads, schedule);
    AtRest(s);
    QuietOwesNothing(s.threads);
    if s.mutex.Some? { AtThread(s, s.mutex.value); }
  }

  /** Operations run one at a time: a thread moves only while every other one is idle. */
  ghost predicate Serial(s: State, schedule: Schedule) {
    forall n :: 0 <= n < |schedule| ==> AloneAt(Run(s, schedule[..n]), schedule[n].0)
  }

  ghost predicate AloneAt(s: State, t: Tid) {
    forall u :: 0 <= u < |s.threads| && u != t ==> s.threads[u].pc.Idle?
  }

  ghost predicate NoDrift(s: State) {
    && s.drift == 0
    && forall t :: 0 <= t < |s.threads| && s.threads[t].pc.PinSub? ==>
         var pc := s.threads[t].pc; pc.i < |s.handles| && pc.charge == s.handles[pc.i].entry.Total()
  }

  /** Only the read after the last reference is dropped can record drift, and only dropping one leads to that read. */
  ghost predicate DriftKept(s: State, s': State, t: Tid) {
    && t < |s.threads| == |s'.threads| && s'.threads == s.threads[t := s'.threads[t]]
    && s'.drift == s.drift && !s'.threads[t].pc.PinSub?
  }

  lemma DriftIsKept(s: State, t: Tid)
    requires t < |s.threads| && InRange(s, s.threads[t].pc) && !s.threads[t].pc.Idle?
    requires !s.threads[t].pc.Drop? && !s.threads[t].pc.PinSub?
    ensures DriftKept(s, Act(s, t), t)
  {
    ActMoves(s, t);
    OnlyPinSubDrifts(s, t);
    if Act(s, t).threads[t].pc.PinSub? { ToPinSub(s.threads[t].pc, Act(s, t).threads[t].pc); }
  }

  lemma SerialKept(s: State, s': State, t: Tid)
    requires NoDrift(s) && AloneAt(s, t) && DriftKept(s, s', t)
    ensures NoDrift(s')
  {}

  lemma SerialDrop(s: State, t: Tid, i: nat, caller: Caller)
    requires NoDrift(s) && AloneAt(s, t) && t < |s.threads| && i < |s.handles| && s.handles[i].flags.refs > 0
    ensures NoDrift(DoDrop(s, t, i, caller))
  {}

  lemma SerialPinSub(s: State, t: Tid, i: nat, charge: nat, dead: bool, caller: Caller)
    requires NoDrift(s) && AloneAt(s, t) && t < |s.threads| && s.threads[t].pc == PinSub(i, charge, dead, caller)
    requires i < |s.handles|
    ensures NoDrift(DoPinSub(s, t, i, charge, dead, caller))
  {}

  lemma SerialStart(s: State, t: Tid, call: Call)
    requires NoDrift(s) && AloneAt(s, t) && t < |s.threads| && s.threads[t].pc.Idle? && Callable(s, call)
    ensures NoDrift(Start(s, t, call))
  {
    match call
    case SetStrictCapacityLimit(_) =>
    case Lookup(id) => if id in s.table { SerialKept(s, Start(s, t, call), t); }
    case _ => SerialKept(s, Start(s, t, call), t);
  }

  lemma SerialStep(s: State, t: Tid, call: Call)
    requires NoDrift(s) && AloneAt(s, t)
    ensures NoDrift(Step(s, t, call))
  {
    if t < |s.threads| {
      var pc := s.threads[t].pc;
      if pc.Idle? {
        if Callable(s, call) { SerialStart(s, t, call); }
      } else if InRange(s, pc) {
        if pc.Drop? {
          SerialDrop(s, t, pc.i, pc.caller);
        } else if pc.PinSub? {
          SerialPinSub(s, t, pc.i, pc.charge, pc.dead, pc.caller);
        } else {
          DriftIsKept(s, t);
          SerialKept(s, Act(s, t), t);
        }
      }
    }
  }

  lemma {:induction false} SerialRun(s: State, schedule: Schedule)
    requires NoDrift(s) && Serial(s, schedule)
    ensures NoDrift(Run(s, schedule))
  {
    if |schedule| > 0 {
      var n := |schedule| - 1;
      assert AloneAt(Run(s, schedule[..n]), schedule[n].0);
      forall k | 0 <= k < n ensures AloneAt(Run(s, schedule[..n][..k]), schedule[..n][k].0) {
        assert schedule[..n][..k] == schedule[..k];
        assert AloneAt(Run(s, schedule[..k]), schedule[k].0);
      }
      SerialRun(s, schedule[..n]);
      SerialStep(Run(s, schedule[..n]), schedule[n].0, schedule[n].1);
    }
  }

  /** When operations run one at a time, `pinned_usage_` at rest is exactly the charge of the referenced handles. */
  lemma SerialPinnedUsage(threads: nat, schedule: Schedule)
    requires Serial(Init(threads), schedule) && Quiescent(Run(Init(threads), schedule))
    ensures var s := Run(Init(threads), schedule); s.pinned == SumBy(Pinned, s.handles)
  {
    SerialRun(Init(threads), schedule);
    PinnedUsageAtRest(threads, schedule);
  }
}
