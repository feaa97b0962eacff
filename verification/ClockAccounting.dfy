/** Each action keeps the accounts: `usage_` and, up to the recorded drift, `pinned_usage_`. */
module ClockAccounting {
  import opened Basics
  import opened Sums
  import opened ClockModel
  import opened ClockInvariant
  import opened ClockProofsInside

  function ChargedAt(s: State, i: nat): int { if i < |s.handles| then Charged(s.handles[i]) else 0 }
  function PinnedAt(s: State, i: nat): int { if i < |s.handles| then Pinned(s.handles[i]) else 0 }

  /** The accounts balance if they balance at the one handle and the one thread that changed. */
  lemma Balance(s: State, s': State, t: Tid, i: nat)
    requires UsageOk(s) && PinOk(s) && t < |s.threads| == |s'.threads| && |s'.handles| == |s.handles|
    requires s'.threads == s.threads[t := s'.threads[t]]
    requires s'.handles == if i < |s.handles| then s.handles[i := s'.handles[i]] else s.handles
    requires s'.usage + UsageOwed(s') - ChargedAt(s', i) == s.usage + UsageOwed(s) - ChargedAt(s, i)
    requires s'.pinned + PinOwed(s') + Owed(s'.threads[t]) - PinnedAt(s', i) - s'.drift
          == s.pinned + PinOwed(s) + Owed(s.threads[t]) - PinnedAt(s, i) - s.drift
    ensures UsageOk(s') && PinOk(s')
  {
    SumUpdate(Owed, s.threads, t, s'.threads[t]);
    if i < |s.handles| {
      SumUpdate(Charged, s.handles, i, s'.handles[i]);
      SumUpdate(Pinned, s.handles, i, s'.handles[i]);
    }
  }

  /** A thread that is not inside the mutex and touches no entry leaves the insertion in progress alone. */
  lemma SameInside(s: State, s': State, t: Tid, i: nat)
    requires Shape(s) && t < |s.threads| == |s'.threads| && |s'.handles| == |s.handles| && s'.mutex == s.mutex
    requires s'.threads == s.threads[t := s'.threads[t]] && !s.threads[t].claims.inside
    requires s'.handles == if i < |s.handles| then s.handles[i := s'.handles[i]] else s.handles
    requires i < |s.handles| ==> s'.handles[i].entry == s.handles[i].entry
    ensures UsageOwed(s') == UsageOwed(s) && PinOwed(s') == PinOwed(s)
  {
    AtThread(s, t);
  }

  /** The insertion in progress is the moving thread's own. */
  lemma OwnInside(s: State, t: Tid)
    requires t < |s.threads| && (s.mutex == Some(t) <==> s.threads[t].claims.inside)
    requires s.mutex == None || s.mutex == Some(t)
    ensures UsageOwed(s) == if s.threads[t].claims.inside && s.threads[t].claims.usageOwed
      then ChargeAt(s, s.threads[t].claims.newest) else 0
    ensures PinOwed(s) == if s.threads[t].claims.inside && s.threads[t].claims.pinOwed
      then ChargeAt(s, s.threads[t].claims.newest) else 0
  {}

  /** The claims are those of the program counter, and say whether the thread is inside the mutex. */
  lemma ClaimsAre(s: State, t: Tid)
    requires Shape(s) && t < |s.threads|
    ensures s.threads[t].claims == ClaimsOf(s.threads[t].pc) && (s.threads[t].claims.inside <==> s.mutex == Some(t))
  {
    AtThread(s, t);
  }

  // ---- outside the mutex

  lemma AccountStart(s: State, t: Tid, call: Call)
    requires Inv(s) && t < |s.threads| && s.threads[t].pc.Idle? && Callable(s, call)
    ensures UsageOk(Start(s, t, call)) && PinOk(Start(s, t, call))
  {
    AtThread(s, t);
    var s' := Start(s, t, call);
    var i := if call.Release? then s.grants[call.grant].idx else |s.handles|;
    SameInside(s, s', t, i);
    Balance(s, s', t, i);
  }

  lemma AccountMove(s: State, t: Tid, pc': Pc)
    requires Inv(s) && t < |s.threads| && !s.threads[t].claims.inside
    requires Owed(s.threads[t]) == Owed(Thread(pc', ClaimsOf(pc')))
    ensures var s' := Go(s, t, pc'); UsageOk(s') && PinOk(s')
  {
    SameInside(s, Go(s, t, pc'), t, |s.handles|);
    Balance(s, Go(s, t, pc'), t, |s.handles|);
  }

  /** An action outside the mutex on the flags and holders of one handle, between points that owe nothing. */
  lemma AccountFlags(s: State, s': State, t: Tid, i: nat)
    requires Inv(s) && t < |s.threads| == |s'.threads| && i < |s.handles| == |s'.handles| && !s.threads[t].claims.inside
    requires s'.handles == s.handles[i := s'.handles[i]] && s'.threads == s.threads[t := s'.threads[t]]
    requires s'.mutex == s.mutex && s'.usage == s.usage && s'.pinned == s.pinned && s'.drift == s.drift
    requires s'.handles[i].entry == s.handles[i].entry && Charged(s'.handles[i]) == Charged(s.handles[i])
    requires Owed(s'.threads[t]) - Pinned(s'.handles[i]) == Owed(s.threads[t]) - Pinned(s.handles[i])
    ensures UsageOk(s') && PinOk(s')
  {
    SameInside(s, s', t, i);
    Balance(s, s', t, i);
  }

  lemma AccountGain(s: State, t: Tid, i: nat, seen: Flags, want: Want)
    requires Inv(s) && t < |s.threads| && s.threads[t].pc == RefCas(i, seen, want) && i < |s.handles|
    requires s.handles[i].flags == seen
    ensures var s' := DoRefCas(s, t, i, seen, want); UsageOk(s') && PinOk(s')
  {
    AtThread(s, t);
    AccountFlags(s, DoRefCas(s, t, i, seen, want), t, i);
  }

  lemma AccountRefCas(s: State, t: Tid, i: nat, seen: Flags, want: Want)
    requires Inv(s) && t < |s.threads| && s.threads[t].pc == RefCas(i, seen, want) && i < |s.handles|
    ensures var s' := DoRefCas(s, t, i, seen, want); UsageOk(s') && PinOk(s')
  {
    if s.handles[i].flags == seen {
      AccountGain(s, t, i, seen, want);
    } else {
      AtThread(s, t);
      AccountMove(s, t, if s.handles[i].flags.inCache then RefCas(i, s.handles[i].flags, want) else Idle);
    }
  }

  lemma AccountRefLoad(s: State, t: Tid, i: nat, want: Want)
    requires Inv(s) && t < |s.threads| && s.threads[t].pc == RefLoad(i, want) && i < |s.handles|
    ensures var s' := DoRefLoad(s, t, i, want); UsageOk(s') && PinOk(s')
  {
    AtThread(s, t);
    AccountMove(s, t, if s.handles[i].flags.inCache then RefCas(i, s.handles[i].flags, want) else Idle);
  }

  lemma AccountPinAdd(s: State, t: Tid, i: nat, charge: nat, want: Want)
    requires Inv(s) && t < |s.threads| && s.threads[t].pc == PinAdd(i, charge, want) && i < |s.handles|
    ensures var s' := DoPinAdd(s, t, i, want); UsageOk(s') && PinOk(s')
  {
    AtThread(s, t);
    var s' := DoPinAdd(s, t, i, want);
    SameInside(s, s', t, |s.handles|);
    Balance(s, s', t, |s.handles|);
  }

  lemma AccountCheck(s: State, t: Tid, i: nat, want: Want)
    requires Inv(s) && t < |s.threads| && s.threads[t].pc == Check(i, want) && i < |s.handles|
    ensures var s' := DoCheck(s, t, i, want); UsageOk(s') && PinOk(s')
  {
    AtThread(s, t);
    if want.WantKey? && s.handles[i].entry.Id() != want.id {
      AccountMove(s, t, Drop(i, FromLookup));
    } else {
      AccountFlags(s, Give(s, t, i, want), t, i);
    }
  }

  lemma AccountSetUsage(s: State, t: Tid, i: nat, force: bool)
    requires Inv(s) && t < |s.threads| && s.threads[t].pc == SetUsage(i, force) && i < |s.handles|
    ensures var s' := DoSetUsage(s, t, i, force); UsageOk(s') && PinOk(s')
  {
    AtThread(s, t);
    AccountFlags(s, DoSetUsage(s, t, i, force), t, i);
  }

  lemma AccountDrop(s: State, t: Tid, i: nat, caller: Caller)
    requires Inv(s) && t < |s.threads| && s.threads[t].pc == Drop(i, caller) && i < |s.handles|
    requires s.handles[i].flags.refs > 0
    ensures var s' := DoDrop(s, t, i, caller); UsageOk(s') && PinOk(s')
  {
    AtThread(s, t); AtHandle(s, i);
    AccountFlags(s, DoDrop(s, t, i, caller), t, i);
  }

  lemma AccountPinSub(s: State, t: Tid, i: nat, charge: nat, dead: bool, caller: Caller)
    requires Inv(s) && t < |s.threads| && s.threads[t].pc == PinSub(i, charge, dead, caller) && i < |s.handles|
    ensures var s' := DoPinSub(s, t, i, charge, dead, caller); UsageOk(s') && PinOk(s')
  {
    AtThread(s, t);
    var s' := DoPinSub(s, t, i, charge, dead, caller);
    SameInside(s, s', t, |s.handles|);
    Balance(s, s', t, |s.handles|);
  }

  lemma AccountReadHash(s: State, t: Tid, i: nat)
    requires Inv(s) && t < |s.threads| && s.threads[t].pc == ReadHash(i) && i < |s.handles|
    ensures var s' := DoReadHash(s, t, i); UsageOk(s') && PinOk(s')
  {
    AtThread(s, t);
    AccountMove(s, t, Lock(ForceEraseJob(i, s.handles[i].entry.hash)));
  }

  // ---- inside the mutex

  /** The thread inside the mutex, or entering or leaving it, moves no charge. */
  lemma AccountScalar(s: State, s': State, t: Tid)
    requires Inv(s) && t < |s.threads| == |s'.threads| && s'.handles == s.handles
    requires s'.threads == s.threads[t := s'.threads[t]]
    requires s'.usage == s.usage && s'.pinned == s.pinned && s'.drift == s.drift
    requires Owed(s.threads[t]) == Owed(s'.threads[t])
    requires s.mutex == None || s.mutex == Some(t)
    requires s'.mutex == if s'.threads[t].claims.inside then Some(t) else None
    requires var c, c' := s.threads[t].claims, s'.threads[t].claims;
      c.usageOwed == c'.usageOwed && c.pinOwed == c'.pinOwed
          && (c.usageOwed ==> c.newest == c'.newest && c.inside && c'.inside)
      && (c.pinOwed ==> c.usageOwed)
    ensures UsageOk(s') && PinOk(s')
  {
    ClaimsAre(s, t);
    OwnInside(s, t); OwnInside(s', t);
    Balance(s, s', t, |s.handles|);
  }

  /** The thread inside the mutex changes a handle's charge in neither sum. */
  lemma AccountHandle(s: State, s': State, t: Tid, i: nat)
    requires Inv(s) && t < |s.threads| == |s'.threads| && i < |s.handles| == |s'.handles| && s.threads[t].claims.inside
    requires s'.threads[t].claims.inside
    requires s'.handles == s.handles[i := s'.handles[i]] && s'.threads == s.threads[t := s'.threads[t]]
    requires s'.mutex == s.mutex && s'.usage == s.usage && s'.pinned == s.pinned && s'.drift == s.drift
    requires Charged(s'.handles[i]) == Charged(s.handles[i]) && Pinned(s'.handles[i]) == Pinned(s.handles[i])
    requires Owed(s.threads[t]) == Owed(s'.threads[t])
    requires var c, c' := s.threads[t].claims, s'.threads[t].claims;
      c.usageOwed == c'.usageOwed && c.pinOwed == c'.pinOwed && (c.usageOwed ==> c.newest == c'.newest)
          && (c.pinOwed ==> c.usageOwed)
    requires s.threads[t].claims.usageOwed ==> s'.handles[i].entry == s.handles[i].entry
    ensures UsageOk(s') && PinOk(s')
  {
    AtThread(s, t);
    OwnInside(s, t); OwnInside(s', t);
    Balance(s, s', t, i);
  }

  lemma EnterOwes(s: State, t: Tid, job: Job)
    requires t < |s.threads| && ClaimsOf(Lock(job)).reach <= |s.handles|
    ensures var th := DoLock(s, t, job).threads[t];
      th.claims.inside && !th.claims.usageOwed && !th.claims.pinOwed && Owed(th) == 0
  {}

  lemma AccountLock(s: State, t: Tid, job: Job)
    requires Inv(s) && t < |s.threads| && s.threads[t].pc == Lock(job) && s.mutex == None
    requires ClaimsOf(Lock(job)).reach <= |s.handles|
    ensures var s' := DoLock(s, t, job); UsageOk(s') && PinOk(s')
  {
    AtThread(s, t);
    var s' := DoLock(s, t, job);
    EnterOwes(s, t, job);
    assert s'.handles == s.handles && s'.usage == s.usage && s'.pinned == s.pinned && s'.drift == s.drift
        && s'.mutex == Some(t);
    AccountScalar(s, s', t);
  }

  lemma AccountUnlock(s: State, t: Tid)
    requires Inv(s) && t < |s.threads| && s.threads[t].pc == Unlock
    ensures var s' := DoUnlock(s, t); UsageOk(s') && PinOk(s')
  {
    AtThread(s, t);
    AccountScalar(s, DoUnlock(s, t), t);
  }

  lemma AccountEvictStart(s: State, t: Tid, ev: Evictor)
    requires Inv(s) && t < |s.threads| && s.threads[t].pc == EvictStart(ev)
    ensures var s' := DoEvictStart(s, t, ev); UsageOk(s') && PinOk(s')
  {
    AtThread(s, t);
    AccountScalar(s, DoEvictStart(s, t, ev), t);
  }

  lemma AccountEvictTest(s: State, t: Tid, ev: Evictor, at: nat, second: bool, usage: int)
    requires Inv(s) && t < |s.threads| && s.threads[t].pc == EvictTest(ev, at, second, usage)
    ensures var s' := DoEvictTest(s, t, ev, at, second, usage); UsageOk(s') && PinOk(s')
  {
    ClaimsAre(s, t);
    if usage + ev.Charge() > s.capacity {
      AccountScalar(s, Go(s, t, EvictCas(ev, at, second, usage)), t);
    } else {
      AccountScalar(s, Go(s.(head := at), t, Evicted(ev, true)), t);
    }
  }

  lemma AccountEvictCas(s: State, t: Tid, ev: Evictor, at: nat, second: bool, usage: int)
    requires Inv(s) && t < |s.threads| && s.threads[t].pc == EvictCas(ev, at, second, usage) && at < |s.handles|
    ensures var s' := DoEvictCas(s, t, ev, at, second, usage); UsageOk(s') && PinOk(s')
  {
    ClaimsAre(s, t);
    if s.handles[at].flags == Flags(true, false, 0) {
      CachedIsLive(s, at);
      AccountHandle(s, DoEvictCas(s, t, ev, at, second, usage), t, at);
    } else {
      AccountScalar(s, Go(s, t, EvictClear(ev, at, second, usage)), t);
    }
  }

  lemma AccountEvictClear(s: State, t: Tid, ev: Evictor, at: nat, second: bool, usage: int)
    requires Inv(s) && t < |s.threads| && s.threads[t].pc == EvictClear(ev, at, second, usage) && at < |s.handles|
    ensures var s' := DoEvictClear(s, t, ev, at, second, usage); UsageOk(s') && PinOk(s')
  {
    ClaimsAre(s, t);
    AccountHandle(s, DoEvictClear(s, t, ev, at, second, usage), t, at);
  }

  lemma AccountEvictErase(s: State, t: Tid, ev: Evictor, at: nat, second: bool)
    requires Inv(s) && t < |s.threads| && s.threads[t].pc == EvictErase(ev, at, second) && at < |s.handles|
    ensures var s' := DoEvictErase(s, t, ev, at, second); UsageOk(s') && PinOk(s')
  {
    ClaimsAre(s, t);
    AccountScalar(s, DoEvictErase(s, t, ev, at, second), t);
  }

  lemma AccountGrabOld(s: State, t: Tid, e: Entry, hold: bool)
    requires Inv(s) && t < |s.threads| && s.threads[t].pc.Evicted?
    requires |s.recycle| > 0 && s.recycle[|s.recycle| - 1] < |s.handles|
    ensures var s' := DoGrab(s, t, e, hold); UsageOk(s') && PinOk(s')
  {
    InsideIs(s, t);
    var n := s.recycle[|s.recycle| - 1];
    AtHandle(s, n);
    AccountHandle(s, DoGrab(s, t, e, hold), t, n);
  }

  lemma AccountGrabNew(s: State, t: Tid, e: Entry, hold: bool)
    requires Inv(s) && t < |s.threads| && s.threads[t].pc.Evicted? && |s.recycle| == 0
    ensures var s' := DoGrab(s, t, e, hold); UsageOk(s') && PinOk(s')
  {
    InsideIs(s, t);
    var s' := DoGrab(s, t, e, hold);
    OwnInside(s, t); OwnInside(s', t);
    SumUpdate(Owed, s.threads, t, s'.threads[t]);
    SumPush(Charged, s.handles, s'.handles[|s.handles|]);
    SumPush(Pinned, s.handles, s'.handles[|s.handles|]);
  }

  lemma AccountEvicted(s: State, t: Tid, ev: Evictor, ok: bool)
    requires Inv(s) && t < |s.threads| && s.threads[t].pc == Evicted(ev, ok)
    requires |s.recycle| > 0 ==> s.recycle[|s.recycle| - 1] < |s.handles|
    ensures var s' := DoEvicted(s, t, ev, ok); UsageOk(s') && PinOk(s')
  {
    if ev.ForCapacity? || (!ok && (s.strict || !ev.hold)) {
      ClaimsAre(s, t);
      AccountScalar(s, Go(s, t, Unlock), t);
    } else {
      if |s.recycle| > 0 { AccountGrabOld(s, t, ev.e, ev.hold); } else { AccountGrabNew(s, t, ev.e, ev.hold); }
    }
  }

  lemma AccountFill(s: State, t: Tid, n: nat, e: Entry, hold: bool, keyed: bool)
    requires Inv(s) && t < |s.threads| && s.threads[t].pc == Fill(n, e, hold, keyed) && n < |s.handles|
    ensures var s' := DoFill(s, t, n, e, hold, keyed); UsageOk(s') && PinOk(s')
  {
    AtThread(s, t); AtHandle(s, n);
    AccountHandle(s, DoFill(s, t, n, e, hold, keyed), t, n);
  }

  lemma AccountPublish(s: State, t: Tid, n: nat, hold: bool)
    requires Inv(s) && t < |s.threads| && s.threads[t].pc == Publish(n, hold) && n < |s.handles|
    ensures var s' := DoPublish(s, t, n, hold); UsageOk(s') && PinOk(s')
  {
    InsideIs(s, t); AtHandle(s, n);
    var s' := DoPublish(s, t, n, hold);
    OwnInside(s, t); OwnInside(s', t);
    Balance(s, s', t, n);
  }

  lemma AccountFindOld(s: State, t: Tid, n: nat, hold: bool)
    requires Inv(s) && t < |s.threads| && s.threads[t].pc == FindOld(n, hold) && n < |s.handles|
    ensures var s' := DoFindOld(s, t, n, hold); UsageOk(s') && PinOk(s')
  {
    ClaimsAre(s, t);
    AccountScalar(s, DoFindOld(s, t, n, hold), t);
  }

  lemma AccountTableInsert(s: State, t: Tid, n: nat, hold: bool)
    requires Inv(s) && t < |s.threads| && s.threads[t].pc == TableInsert(n, hold) && n < |s.handles|
    ensures var s' := DoTableInsert(s, t, n, hold); UsageOk(s') && PinOk(s')
  {
    ClaimsAre(s, t);
    AccountScalar(s, DoTableInsert(s, t, n, hold), t);
  }

  lemma AccountPinInsert(s: State, t: Tid, n: nat)
    requires Inv(s) && t < |s.threads| && s.threads[t].pc == PinInsert(n) && n < |s.handles|
    ensures var s' := DoPinInsert(s, t, n); UsageOk(s') && PinOk(s')
  {
    ClaimsAre(s, t);
    var s' := DoPinInsert(s, t, n);
    OwnInside(s, t); OwnInside(s', t);
    Balance(s, s', t, |s.handles|);
  }

  lemma AccountAddUsage(s: State, t: Tid, n: nat, hold: bool)
    requires Inv(s) && t < |s.threads| && s.threads[t].pc == AddUsage(n, hold) && n < |s.handles|
    ensures var s' := DoAddUsage(s, t, n, hold); UsageOk(s') && PinOk(s')
  {
    ClaimsAre(s, t);
    var s' := DoAddUsage(s, t, n, hold);
    OwnInside(s, t); OwnInside(s', t);
    Balance(s, s', t, |s.handles|);
  }

  lemma AccountInsertDone(s: State, t: Tid, n: nat, hold: bool)
    requires Inv(s) && t < |s.threads| && s.threads[t].pc == InsertDone(n, hold) && n < |s.handles|
    ensures var s' := DoInsertDone(s, t, n, hold); UsageOk(s') && PinOk(s')
  {
    ClaimsAre(s, t);
    var s' := DoInsertDone(s, t, n, hold);
    OwnInside(s, t); OwnInside(s', t);
    Balance(s, s', t, n);
  }

  lemma AccountEraseFind(s: State, t: Tid, id: CacheKey)
    requires Inv(s) && t < |s.threads| && s.threads[t].pc == EraseFind(id)
    ensures var s' := DoEraseFind(s, t, id); UsageOk(s') && PinOk(s')
  {
    ClaimsAre(s, t);
    if id in s.table {
      AccountScalar(s, Go(s.(table := s.table - {id}), t, Unset(s.table[id], ThenUnlock)), t);
    } else {
      AccountScalar(s, Go(s, t, Unlock), t);
    }
  }

  lemma AccountClearLoop(s: State, t: Tid, next: nat)
    requires Inv(s) && t < |s.threads| && s.threads[t].pc == ClearLoop(next)
    ensures var s' := DoClearLoop(s, t, next); UsageOk(s') && PinOk(s')
  {
    ClaimsAre(s, t);
    AccountScalar(s, DoClearLoop(s, t, next), t);
  }

  lemma AccountUnset(s: State, t: Tid, i: nat, after: After)
    requires Inv(s) && t < |s.threads| && s.threads[t].pc == Unset(i, after) && i < |s.handles|
    ensures var s' := DoUnset(s, t, i, after); UsageOk(s') && PinOk(s')
  {
    ClaimsAre(s, t); AtHandle(s, i);
    UnsetOwes(s, i, after);
    RecycleOwes(s, i, after);
    AccountHandle(s, DoUnset(s, t, i, after), t, i);
  }

  lemma AccountRecycle(s: State, t: Tid, i: nat, after: After)
    requires Inv(s) && t < |s.threads| && s.threads[t].pc == Recycle(i, after) && i < |s.handles|
    ensures var s' := DoRecycle(s, t, i, after); UsageOk(s') && PinOk(s')
  {
    InsideIs(s, t); AtHandle(s, i);
    var s' := DoRecycle(s, t, i, after);
    RecycleOwes(s', i, after);
    OwnInside(s, t); OwnInside(s', t);
    Balance(s, s', t, i);
  }

  /** RecycleHandle returns to a point that owes what it owed before. */
  lemma RecycleOwes(s: State, i: nat, after: After)
    ensures var c, c' := ClaimsOf(Recycle(i, after)), ClaimsOf(Resume(s, after));
      c'.inside && c.usageOwed == c'.usageOwed && c.pinOwed == c'.pinOwed && (c.usageOwed ==> c.newest == c'.newest)
    ensures Owed(Thread(Resume(s, after), ClaimsOf(Resume(s, after)))) == 0
  {}

  lemma UnsetOwes(s: State, i: nat, after: After)
    ensures var c, c' := ClaimsOf(Unset(i, after)), ClaimsOf(Recycle(i, after));
      && c.inside && c'.inside && c.usageOwed == c'.usageOwed && c.pinOwed == c'.pinOwed
      && (c.usageOwed ==> c.newest == c'.newest) && (c.pinOwed ==> c.usageOwed)
  {}

  predicate Outer(pc: Pc) {
    pc.RefLoad? || pc.RefCas? || pc.PinAdd? || pc.Check? || pc.SetUsage? || pc.Drop? || pc.PinSub? || pc.ReadHash?
        || pc.Lock?
  }

  predicate Filing(pc: Pc) {
    pc.Fill? || pc.Publish? || pc.FindOld? || pc.TableInsert? || pc.PinInsert? || pc.AddUsage? || pc.InsertDone?
  }

  lemma AccountOuter(s: State, t: Tid)
    requires Inv(s) && t < |s.threads| && InRange(s, s.threads[t].pc) && Outer(s.threads[t].pc)
    ensures UsageOk(Act(s, t)) && PinOk(Act(s, t))
  {
    var pc := s.threads[t].pc;
    if pc.RefLoad? { AccountRefLoad(s, t, pc.i, pc.want); }
    else if pc.RefCas? { AccountRefCas(s, t, pc.i, pc.seen, pc.want); }
    else if pc.PinAdd? { AccountPinAdd(s, t, pc.i, pc.charge, pc.want); }
    else if pc.Check? { AccountCheck(s, t, pc.i, pc.want); }
    else if pc.SetUsage? { AccountSetUsage(s, t, pc.i, pc.forceErase); }
    else if pc.Drop? { AccountDrop(s, t, pc.i, pc.caller); }
    else if pc.PinSub? { AccountPinSub(s, t, pc.i, pc.charge, pc.dead, pc.caller); }
    else if pc.ReadHash? { AccountReadHash(s, t, pc.i); }
    else if s.mutex.None? { AccountLock(s, t, pc.job); }
  }

  lemma AccountFiling(s: State, t: Tid)
    requires Inv(s) && t < |s.threads| && InRange(s, s.threads[t].pc) && Filing(s.threads[t].pc)
    ensures UsageOk(Act(s, t)) && PinOk(Act(s, t))
  {
    var pc := s.threads[t].pc;
    if pc.Fill? { AccountFill(s, t, pc.n, pc.e, pc.hold, pc.keyed); }
    else if pc.Publish? { AccountPublish(s, t, pc.n, pc.hold); }
    else if pc.FindOld? { AccountFindOld(s, t, pc.n, pc.hold); }
    else if pc.TableInsert? { AccountTableInsert(s, t, pc.n, pc.hold); }
    else if pc.PinInsert? { AccountPinInsert(s, t, pc.n); }
    else if pc.AddUsage? { AccountAddUsage(s, t, pc.n, pc.hold); }
    else { AccountInsertDone(s, t, pc.n, pc.hold); }
  }

  lemma AccountRemoving(s: State, t: Tid)
    requires Inv(s) && t < |s.threads| && InRange(s, s.threads[t].pc)
    requires !s.threads[t].pc.Idle? && !Outer(s.threads[t].pc) && !Filing(s.threads[t].pc)
    ensures UsageOk(Act(s, t)) && PinOk(Act(s, t))
  {
    var pc := s.threads[t].pc;
    if pc.EvictStart? { AccountEvictStart(s, t, pc.ev); }
    else if pc.EvictTest? { AccountEvictTest(s, t, pc.ev, pc.at, pc.second, pc.usage); }
    else if pc.EvictCas? { AccountEvictCas(s, t, pc.ev, pc.at, pc.second, pc.usage); }
    else if pc.EvictClear? { AccountEvictClear(s, t, pc.ev, pc.at, pc.second, pc.usage); }
    else if pc.EvictErase? { AccountEvictErase(s, t, pc.ev, pc.at, pc.second); }
    else if pc.Evicted? { AccountEvicted(s, t, pc.ev, pc.ok); }
    else if pc.EraseFind? { AccountEraseFind(s, t, pc.id); }
    else if pc.ClearLoop? { AccountClearLoop(s, t, pc.next); }
    else if pc.Unset? { AccountUnset(s, t, pc.i, pc.after); }
    else if pc.Recycle? { AccountRecycle(s, t, pc.i, pc.after); }
    else { AccountUnlock(s, t); }
  }

  lemma AccountAct(s: State, t: Tid)
    requires Inv(s) && t < |s.threads| && InRange(s, s.threads[t].pc) && !s.threads[t].pc.Idle?
    ensures UsageOk(Act(s, t)) && PinOk(Act(s, t))
  {
    if Outer(s.threads[t].pc) { AccountOuter(s, t); }
    else if Filing(s.threads[t].pc) { AccountFiling(s, t); }
    else { AccountRemoving(s, t); }
  }
}
