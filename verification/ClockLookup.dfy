/**
 What Lookup of the CLOCK cache answers for: the handle it returns was in cache, with the key, at one moment of the
 call; and if it returns none, then the key was not bound to a handle in cache at one moment of the call.
 */
module ClockLookup {
  import opened Basics
  import opened ClockModel
  import opened ClockInvariant
  import opened ClockProofs
  import opened ClockProofsInside
  import opened ClockAccounting
  import opened ClockTheorems
  import opened ClockLife
  import opened ClockEdges

  /** The thread has gained its reference to the handle and not yet compared the key. */
  predicate Gaining(pc: Pc, i: nat, want: Want) {
    (pc.PinAdd? && pc.i == i && pc.want == want) || (pc.Check? && pc.i == i && pc.want == want)
  }

  /** In state `s`, thread `t` is about to gain a reference to a handle that is in cache with this entry. */
  predicate AboutToGain(s: State, t: Tid, i: nat, want: Want, e: Entry) {
    && t < |s.threads| && i < |s.handles| && s.threads[t].pc.RefCas? && s.threads[t].pc.i == i
    && s.threads[t].pc.want == want
    && s.handles[i].flags == s.threads[t].pc.seen && s.handles[i].flags.inCache && s.handles[i].entry == e
  }

  /** A step leaves the entry of a handle in use alone. */
  lemma LiveEntryStays(s: State, t: Tid, call: Call, i: nat)
    requires Inv(s) && i < |s.handles| && s.handles[i].own.Live?
    ensures i < |Step(s, t, call).handles| && Step(s, t, call).handles[i].entry == s.handles[i].entry
  {
    LifeCycle(s, t, call);
    assert LifeStep(s.handles[i], Step(s, t, call).handles[i], t);
  }

  lemma GainingIsLive(s: State, t: Tid, i: nat, want: Want)
    requires Inv(s) && t < |s.threads| && Gaining(s.threads[t].pc, i, want)
    ensures i < |s.handles| && s.handles[i].own.Live?
  {
    AtThread(s, t);
    HeldIsLive(s, i, Op(t));
  }

  /** The points from which a thread gets to compare a key. */
  lemma GainingFrom(s: State, t: Tid, call: Call, i: nat, want: Want)
    requires Inv(s) && t < |s.threads| && |Step(s, t, call).threads| == |s.threads|
    requires Gaining(Step(s, t, call).threads[t].pc, i, want) && !Gaining(s.threads[t].pc, i, want)
    ensures i < |s.handles| && AboutToGain(s, t, i, want, s.handles[i].entry) && s.handles[i].own.Live?
  {
    StepMoves(s, t, call);
    AtThread(s, t);
    var pc, next := s.threads[t].pc, Step(s, t, call).threads[t].pc;
    EdgeToGaining(pc, next, i, want);
    CasGains(s, t, call, i, want);
    AtHandle(s, i);
  }

  lemma EdgeToGaining(pc: Pc, next: Pc, i: nat, want: Want)
    requires Gaining(next, i, want) && !Gaining(pc, i, want)
    requires next == pc || (pc.Idle? && Entrance(next)) || Edge(pc, next)
    ensures pc.RefCas? && pc.i == i && pc.want == want
  {}

  lemma CasGains(s: State, t: Tid, call: Call, i: nat, want: Want)
    requires t < |s.threads| && s.threads[t].pc.RefCas? && s.threads[t].pc.i == i && s.threads[t].pc.want == want
    requires i < |s.handles| && PcOk(s, t) && |Step(s, t, call).threads| == |s.threads|
    requires Gaining(Step(s, t, call).threads[t].pc, i, want)
    ensures AboutToGain(s, t, i, want, s.handles[i].entry)
  {}

  /** Step `m` of the schedule is where the thread gained its reference, and the entry was then what it is now. */
  ghost predicate GainedAt(threads: nat, schedule: Schedule, m: nat, t: Tid, i: nat, want: Want, e: Entry) {
    m < |schedule| && schedule[m].0 == t && AboutToGain(Run(Init(threads), schedule[..m]), t, i, want, e)
  }

  lemma {:induction false} GainedOnce(threads: nat, schedule: Schedule, t: Tid, i: nat, want: Want) returns (m: nat)
    requires var s := Run(Init(threads), schedule);
      t < |s.threads| && i < |s.handles| && Gaining(s.threads[t].pc, i, want)
    ensures GainedAt(threads, schedule, m, t, i, want, Run(Init(threads), schedule).handles[i].entry)
    ensures forall k :: m < k < |schedule| ==>
      var s := Run(Init(threads), schedule[..k]); t < |s.threads| && Gaining(s.threads[t].pc, i, want)
    decreases |schedule|
  {
    var n := |schedule| - 1;
    var front, u, call := schedule[..n], schedule[n].0, schedule[n].1;
    var s, s' := Run(Init(threads), front), Run(Init(threads), schedule);
    Reachable(threads, front);
    if u < |s.threads| { StepMoves(s, u, call); }
    if Gaining(s.threads[t].pc, i, want) {
      GainingIsLive(s, t, i, want);
      LiveEntryStays(s, u, call, i);
      m := GainedOnce(threads, front, t, i, want);
      assert front[..m] == schedule[..m] && front[m] == schedule[m];
      forall k | m < k < |schedule|
        ensures var r := Run(Init(threads), schedule[..k]); t < |r.threads| && Gaining(r.threads[t].pc, i, want)
      {
        if k < n { assert front[..k] == schedule[..k]; } else { assert schedule[..k] == front; }
      }
    } else {
      GainingFrom(s, t, call, i, want);
      LiveEntryStays(s, t, call, i);
      m := n;
    }
  }

  /**
   When Lookup returns a handle, there was a step of this call at which the handle was in cache and carried the
   requested key and hash, and the value and charge that are returned: the one that gained the reference.
   */
  lemma LookupSawItCached(threads: nat, schedule: Schedule, t: Tid, i: nat, id: CacheKey) returns (m: nat)
    requires var s := Run(Init(threads), schedule);
      && t < |s.threads| && i < |s.handles| && s.threads[t].pc == Check(i, WantKey(id)) && s.handles[i].entry.Id() == id
    ensures var e := Run(Init(threads), schedule).handles[i].entry;
      GainedAt(threads, schedule, m, t, i, WantKey(id), e) && e.Id() == id
    ensures forall k :: m < k < |schedule| ==>
      var s := Run(Init(threads), schedule[..k]); t < |s.threads| && Gaining(s.threads[t].pc, i, WantKey(id))
  {
    m := GainedOnce(threads, schedule, t, i, WantKey(id));
  }

  // ---- a Lookup that returns none

  /** The key is bound, to a handle that is in cache. */
  predicate Cached(s: State, id: CacheKey) {
    id in s.table && s.table[id] < |s.handles| && s.handles[s.table[id]].flags.inCache
  }

  /** The thread is in a Lookup of this key, and the table gave it this handle. */
  predicate Looking(pc: Pc, i: nat, id: CacheKey) {
    || (pc.RefLoad? && pc.i == i && pc.want == WantKey(id))
    || (pc.RefCas? && pc.i == i && pc.want == WantKey(id))
    || Gaining(pc, i, WantKey(id))
  }

  predicate LookingIn(s: State, t: Tid, i: nat, id: CacheKey) {
    t < |s.threads| && Looking(s.threads[t].pc, i, id)
  }

  predicate IdleIn(s: State, t: Tid) { t < |s.threads| && s.threads[t].pc.Idle? }

  /** The step gives nothing a new binding. */
  ghost predicate BindsNothing(table: map<CacheKey, nat>, table': map<CacheKey, nat>) {
    forall id :: id in table' ==> id in table && table'[id] == table[id]
  }

  lemma OuterBindsNothing(s: State, t: Tid)
    requires t < |s.threads| && InRange(s, s.threads[t].pc) && Outer(s.threads[t].pc)
    ensures BindsNothing(s.table, Act(s, t).table)
  {
    var pc := s.threads[t].pc;
    if pc.RefLoad? {} else if pc.RefCas? {} else if pc.PinAdd? {} else if pc.Check? {} else if pc.SetUsage? {}
    else if pc.Drop? {} else if pc.PinSub? {} else if pc.ReadHash? {} else {}
  }

  lemma EvictBindsNothing(s: State, t: Tid)
    requires t < |s.threads| && InRange(s, s.threads[t].pc)
    requires var pc := s.threads[t].pc;
      pc.EvictStart? || pc.EvictTest? || pc.EvictCas? || pc.EvictClear? || pc.EvictErase? || pc.Evicted?
    ensures BindsNothing(s.table, Act(s, t).table)
  {
    var pc := s.threads[t].pc;
    if pc.EvictStart? {} else if pc.EvictTest? {} else if pc.EvictCas? {} else if pc.EvictClear? {}
    else if pc.EvictErase? {} else {}
  }

  lemma FileBindsNothing(s: State, t: Tid)
    requires t < |s.threads| && InRange(s, s.threads[t].pc) && Filing(s.threads[t].pc) && !s.threads[t].pc.TableInsert?
    ensures BindsNothing(s.table, Act(s, t).table)
  {
    var pc := s.threads[t].pc;
    if pc.Fill? {} else if pc.Publish? {} else if pc.FindOld? {} else if pc.PinInsert? {} else if pc.AddUsage? {}
    else {}
  }

  lemma EraseBindsNothing(s: State, t: Tid)
    requires t < |s.threads| && InRange(s, s.threads[t].pc)
    requires var pc := s.threads[t].pc; pc.EraseFind? || pc.ClearLoop? || pc.Unset? || pc.Recycle? || pc.Unlock?
    ensures BindsNothing(s.table, Act(s, t).table)
  {
    var pc := s.threads[t].pc;
    if pc.EraseFind? {} else if pc.ClearLoop? {} else if pc.Unset? {} else if pc.Recycle? {} else {}
  }

  lemma StartBindsNothing(s: State, t: Tid, call: Call)
    requires t < |s.threads| && Callable(s, call)
    ensures BindsNothing(s.table, Start(s, t, call).table)
  {}

  /** A key that is inserted was not bound. */
  lemma InsertBindsAbsent(s: State, t: Tid)
    requires Inv(s) && t < |s.threads| && s.threads[t].pc.TableInsert? && InRange(s, s.threads[t].pc)
    ensures forall id :: id in s.table ==> id in Act(s, t).table && Act(s, t).table[id] == s.table[id]
  {
    InsideIs(s, t);
  }

  /** No step binds a key that is bound to another handle: it must be unbound first. */
  lemma BindingStays(s: State, t: Tid, call: Call, id: CacheKey)
    requires Inv(s) && id in s.table && id in Step(s, t, call).table
    ensures Step(s, t, call).table[id] == s.table[id]
  {
    if t < |s.threads| {
      var pc := s.threads[t].pc;
      if pc.Idle? {
        if Callable(s, call) { StartBindsNothing(s, t, call); }
      } else if InRange(s, pc) {
        if Outer(pc) { OuterBindsNothing(s, t); }
        else if pc.TableInsert? { InsertBindsAbsent(s, t); }
        else if Filing(pc) { FileBindsNothing(s, t); }
        else if pc.EraseFind? || pc.ClearLoop? || pc.Unset? || pc.Recycle? || pc.Unlock? { EraseBindsNothing(s, t); }
        else { EvictBindsNothing(s, t); }
      }
    }
  }

  /** How a thread comes to look for a key. */
  lemma LookingFrom(s: State, t: Tid, call: Call, i: nat, id: CacheKey)
    requires t < |s.threads| && |Step(s, t, call).threads| == |s.threads|
    requires Looking(Step(s, t, call).threads[t].pc, i, id) && !Looking(s.threads[t].pc, i, id)
    ensures s.threads[t].pc.Idle? && call == Lookup(id) && id in s.table && s.table[id] == i
    ensures Step(s, t, call).table == s.table && Step(s, t, call).handles == s.handles
  {
    StepMoves(s, t, call);
    EdgeToLooking(s.threads[t].pc, Step(s, t, call).threads[t].pc, i, id);
  }

  lemma EdgeToLooking(pc: Pc, next: Pc, i: nat, id: CacheKey)
    requires Looking(next, i, id) && !Looking(pc, i, id)
    requires next == pc || (pc.Idle? && Entrance(next)) || Edge(pc, next)
    ensures pc.Idle?
  {
    if !pc.Idle? && next != pc { ToRef(pc, next); }
  }

  /** Step `b` of the schedule started the Lookup in which thread `t` is now and has been ever since. */
  ghost predicate LookupSince(threads: nat, schedule: Schedule, b: nat, t: Tid, i: nat, id: CacheKey) {
    && b < |schedule| && LookingIn(Run(Init(threads), schedule), t, i, id)
    && var n := |schedule| - 1;
       if b < n then LookupSince(threads, schedule[..n], b, t, i, id)
       else schedule[b] == (t, Lookup(id)) && IdleIn(Run(Init(threads), schedule[..b]), t)
  }

  /** One step on, the key is still bound to the handle found, or it is not cached now. */
  lemma BoundStep(s: State, t: Tid, call: Call, i: nat, id: CacheKey)
    requires Inv(s) && Cached(s, id) && s.table[id] == i
    ensures var s' := Step(s, t, call); Cached(s', id) ==> s'.table[id] == i
  {
    if Cached(Step(s, t, call), id) { BindingStays(s, t, call, id); }
  }

  /**
   While a Lookup is under way, the key is still bound to the handle it found, or there was a moment `m` since the
   call at which the key was not cached.
   */
  lemma {:induction false} BoundOrGone(threads: nat, schedule: Schedule, t: Tid, i: nat, id: CacheKey)
    returns (b: nat, m: nat)
    requires LookingIn(Run(Init(threads), schedule), t, i, id)
    ensures LookupSince(threads, schedule, b, t, i, id) && b <= m <= |schedule|
    ensures var s := Run(Init(threads), schedule);
      !Cached(Run(Init(threads), schedule[..m]), id) || (Cached(s, id) && s.table[id] == i)
    decreases |schedule|
  {
    var n := |schedule| - 1;
    var front, u, call := schedule[..n], schedule[n].0, schedule[n].1;
    var s := Run(Init(threads), front);
    Reachable(threads, front);
    if u < |s.threads| { StepMoves(s, u, call); }
    if Looking(s.threads[t].pc, i, id) {
      b, m := BoundOrGone(threads, front, t, i, id);
      assert front[..m] == schedule[..m];
      if Cached(Run(Init(threads), front[..m]), id) {
        BoundStep(s, u, call, i, id);
        m := n + 1;
        assert schedule[..m] == schedule;
      }
    } else {
      LookingFrom(s, t, call, i, id);
      b, m := n, n;
    }
  }

  /** The next step of the thread ends its Lookup with none: no entry, a handle not in cache, or another key. */
  predicate Refuses(s: State, t: Tid, i: nat, id: CacheKey) {
    && LookingIn(s, t, i, id) && i < |s.handles|
    && var pc := s.threads[t].pc;
       if pc.Check? then s.handles[i].entry.Id() != id
       else !pc.PinAdd? && !s.handles[i].flags.inCache
  }

  lemma RefusedNext(s: State, t: Tid, call: Call, i: nat, id: CacheKey)
    requires Inv(s) && Refuses(s, t, i, id)
    ensures var s' := Step(s, t, call);
      && t < |s'.threads| && s'.grants == s.grants
      && s'.threads[t].pc == if s.threads[t].pc.Check? then Drop(i, FromLookup) else Idle
  {
    CanGoOn(s, t);
    AtThread(s, t);
    var pc := s.threads[t].pc;
    if pc.Check? {} else if pc.RefCas? {} else {}
  }

  /** A handle that is in cache with a key that is not cached is one that a thread inside the mutex is working on. */
  lemma GoneButForTheInsider(s: State, id: CacheKey, j: nat)
    requires Inv(s) && !Cached(s, id) && j < |s.handles| && s.handles[j].flags.inCache && s.handles[j].entry.Id() == id
    ensures s.mutex.Some? && Loose(Inside(s).debt, j)
  {
    AtRest(s);
  }

  /**
   When Lookup returns none, there was a moment `m` of this call at which the key was not cached: not bound, or bound to
   a handle that is not in cache. Any handle in cache with that key was then being worked on inside the mutex.
   */
  lemma LookupSawItGone(threads: nat, schedule: Schedule, t: Tid, i: nat, id: CacheKey) returns (b: nat, m: nat)
    requires Refuses(Run(Init(threads), schedule), t, i, id)
    ensures LookupSince(threads, schedule, b, t, i, id) && b <= m <= |schedule|
    ensures var s := Run(Init(threads), schedule[..m]);
      && !Cached(s, id)
      && forall j :: 0 <= j < |s.handles| && s.handles[j].flags.inCache && s.handles[j].entry.Id() == id ==>
           s.mutex.Some? && Loose(Inside(s).debt, j)
  {
    b, m := BoundOrGone(threads, schedule, t, i, id);
    Reachable(threads, schedule);
    AtRest(Run(Init(threads), schedule));
    var s := Run(Init(threads), schedule[..m]);
    Reachable(threads, schedule[..m]);
    forall j | 0 <= j < |s.handles| && s.handles[j].flags.inCache && s.handles[j].entry.Id() == id
      ensures s.mutex.Some? && Loose(Inside(s).debt, j)
    {
      GoneButForTheInsider(s, id, j);
    }
  }
}
