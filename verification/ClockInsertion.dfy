/** What Insert and SetCapacity do to a shard of the CLOCK cache when no other thread moves meanwhile. */
module ClockInsertion {
  import opened Basics
  import opened Seals
  import opened Sums
  import opened ClockModel
  import opened ClockInvariant
  import opened ClockProofs
  import opened ClockProofsInside
  import opened ClockTheorems
  import opened ClockEviction
  import opened ClockAlone
  import opened ClockLookup
  import opened ClockSerial

  // ---- a handle is filled

  /** The handle that an insertion takes: the last one in the bin, or a new one. */
  function Taken(s: State): nat { if |s.recycle| > 0 then s.recycle[|s.recycle| - 1] else |s.handles| }

  predicate Grabable(s: State) { |s.recycle| > 0 ==> s.recycle[|s.recycle| - 1] < |s.handles| }

  /** How often that handle will have been taken. */
  function Occupancy(s: State): nat
    requires Grabable(s)
  {
    if |s.recycle| > 0 then s.handles[Taken(s)].occupancy + 1 else 1
  }

  /** The shard with this handle in the place of the one that is taken. */
  function With(s: State, h: Handle): State
    requires Grabable(s)
  {
    if |s.recycle| > 0 then s.(handles := s.handles[Taken(s) := h], recycle := s.recycle[..|s.recycle| - 1])
    else s.(handles := s.handles + [h])
  }

  /** A handle in cache with this entry. */
  function Fresh(e: Entry, hold: bool, holders: set<Holder>, occupancy: nat): Handle {
    Handle(e, Flags(true, false, if hold then 1 else 0), Live, holders, occupancy)
  }

  /** The handle as it was when it was taken. */
  function Blank(s: State, t: Tid): Handle
    requires Grabable(s)
  {
    if |s.recycle| > 0 then s.handles[Taken(s)].(own := Filling(t), occupancy := Occupancy(s))
    else Handle(Entry("", 0, 0, 0, false), Flags(false, false, 0), Filling(t), {}, 1)
  }

  lemma InsertGrabs(s: State, t: Tid, e: Entry, hold: bool, ok: bool)
    requires t < |s.threads| && Grabable(s) && (ok || (!s.strict && hold))
    requires Sound(Go(s, t, Evicted(ForInsert(e, hold), ok)))
    ensures var s1 := Go(With(s, Blank(s, t)), t, Fill(Taken(s), e, hold, false));
      Reaches(Go(s, t, Evicted(ForInsert(e, hold), ok)), t, s1) && Sound(s1)
  {
    Next(Go(s, t, Evicted(ForInsert(e, hold), ok)), t, Go(With(s, Blank(s, t)), t, Fill(Taken(s), e, hold, false)));
  }

  lemma WithPut(s: State, h: Handle, h': Handle)
    requires Grabable(s)
    ensures Taken(s) < |With(s, h).handles| && With(s, h).handles[Taken(s)] == h
    ensures Put(With(s, h), Taken(s), h') == With(s, h') && With(s, h).threads == s.threads
  {
    if |s.recycle| == 0 { assert (s.handles + [h])[|s.handles| := h'] == s.handles + [h']; }
  }

  lemma InsertKeys(s: State, t: Tid, e: Entry, hold: bool, h: Handle)
    requires t < |s.threads| && Grabable(s) && Sound(Go(With(s, h), t, Fill(Taken(s), e, hold, false)))
    ensures var s1 := Go(With(s, h), t, Fill(Taken(s), e, hold, false));
      var s2 := Go(With(s, h.(entry := e.(charge := h.entry.charge))), t, Fill(Taken(s), e, hold, true));
      Reaches(s1, t, s2) && Sound(s2)
  {
    WithPut(s, h, h.(entry := e.(charge := h.entry.charge)));
    Next(Go(With(s, h), t, Fill(Taken(s), e, hold, false)), t,
         Go(With(s, h.(entry := e.(charge := h.entry.charge))), t, Fill(Taken(s), e, hold, true)));
  }

  lemma InsertCharges(s: State, t: Tid, e: Entry, hold: bool, h: Handle)
    requires t < |s.threads| && Grabable(s) && Sound(Go(With(s, h), t, Fill(Taken(s), e, hold, true)))
    ensures var s2 := Go(With(s, h), t, Fill(Taken(s), e, hold, true));
      var s3 := Go(With(s, h.(entry := e)), t, Publish(Taken(s), hold));
      Reaches(s2, t, s3) && Sound(s3)
  {
    WithPut(s, h, h.(entry := e));
    Next(Go(With(s, h), t, Fill(Taken(s), e, hold, true)), t, Go(With(s, h.(entry := e)), t, Publish(Taken(s), hold)));
  }

  lemma InsertPublishes(s: State, t: Tid, e: Entry, hold: bool, h: Handle)
    requires t < |s.threads| && Grabable(s) && h.entry == e && h.occupancy == Occupancy(s)
    requires Sound(Go(With(s, h), t, Publish(Taken(s), hold)))
    ensures var s3 := Go(With(s, h), t, Publish(Taken(s), hold));
      var s4 := Go(With(s, Fresh(e, hold, if hold then {Op(t)} else {}, Occupancy(s))), t, FindOld(Taken(s), hold));
      Reaches(s3, t, s4) && Sound(s4)
  {
    WithPut(s, h, Fresh(e, hold, if hold then {Op(t)} else {}, Occupancy(s)));
    Next(Go(With(s, h), t, Publish(Taken(s), hold)), t,
         Go(With(s, Fresh(e, hold, if hold then {Op(t)} else {}, Occupancy(s))), t, FindOld(Taken(s), hold)));
  }

  /** The new handle is in cache, and not in the table yet. */
  function Filed(s: State, t: Tid, e: Entry, hold: bool): State
    requires Grabable(s)
  {
    With(s, Fresh(e, hold, if hold then {Op(t)} else {}, Occupancy(s)))
  }

  lemma InsertFiles(s: State, t: Tid, e: Entry, hold: bool, ok: bool)
    requires t < |s.threads| && Grabable(s) && (ok || (!s.strict && hold))
    requires Sound(Go(s, t, Evicted(ForInsert(e, hold), ok)))
    ensures var s4 := Go(Filed(s, t, e, hold), t, FindOld(Taken(s), hold));
      Reaches(Go(s, t, Evicted(ForInsert(e, hold), ok)), t, s4) && Sound(s4)
  {
    var n, h := Taken(s), Blank(s, t);
    var h1, h2 := h.(entry := e.(charge := h.entry.charge)), h.(entry := e);
    var s0 := Go(s, t, Evicted(ForInsert(e, hold), ok));
    InsertGrabs(s, t, e, hold, ok);
    InsertKeys(s, t, e, hold, h);
    InsertCharges(s, t, e, hold, h1);
    InsertPublishes(s, t, e, hold, h2);
    ReachesOn(s0, Go(With(s, h), t, Fill(n, e, hold, false)), Go(With(s, h1), t, Fill(n, e, hold, true)), t);
    ReachesOn(s0, Go(With(s, h1), t, Fill(n, e, hold, true)), Go(With(s, h2), t, Publish(n, hold)), t);
    ReachesOn(s0, Go(With(s, h2), t, Publish(n, hold)), Go(Filed(s, t, e, hold), t, FindOld(n, hold)), t);
  }

  // ---- the handle enters the table

  lemma OldIsCached(s: State, t: Tid, n: nat, hold: bool, id: CacheKey)
    requires t < |s.threads| && n < |s.handles| && Sound(Go(s, t, FindOld(n, hold))) && id in s.table
    ensures s.table[id] < |s.handles| && s.handles[s.table[id]].flags.inCache
  {
    var s1 := Go(s, t, FindOld(n, hold));
    SoundIs(s1);
    InsideIs(s1, t);
    var i := s.table[id];
    assert Mapped(s.handles, s.table, i);
  }

  lemma FindsOld(s: State, t: Tid, n: nat, hold: bool, id: CacheKey)
    requires t < |s.threads| && n < |s.handles| && s.handles[n].entry.Id() == id && id in s.table
    requires Sound(Go(s, t, FindOld(n, hold)))
    ensures var s5 := Go(s.(table := s.table - {id}), t, Unset(s.table[id], ThenInsert(n, hold)));
      Reaches(Go(s, t, FindOld(n, hold)), t, s5) && Sound(s5)
  {
    Next(Go(s, t, FindOld(n, hold)), t, Go(s.(table := s.table - {id}), t, Unset(s.table[id], ThenInsert(n, hold))));
  }

  lemma FindsNone(s: State, t: Tid, n: nat, hold: bool)
    requires t < |s.threads| && n < |s.handles| && s.handles[n].entry.Id() !in s.table
    requires Sound(Go(s, t, FindOld(n, hold)))
    ensures var s5 := Go(s, t, TableInsert(n, hold)); Reaches(Go(s, t, FindOld(n, hold)), t, s5) && Sound(s5)
  {
    Next(Go(s, t, FindOld(n, hold)), t, Go(s, t, TableInsert(n, hold)));
  }

  /** The key's old handle, if there is one, is taken out of the cache. */
  lemma InsertDisplaces(s: State, t: Tid, n: nat, hold: bool)
    requires t < |s.threads| && n < |s.handles| && Sound(Go(s, t, FindOld(n, hold)))
    ensures var s6 := Go(Unbound(s, s.handles[n].entry.Id()), t, TableInsert(n, hold));
      Reaches(Go(s, t, FindOld(n, hold)), t, s6) && Sound(s6)
  {
    var id := s.handles[n].entry.Id();
    if id in s.table {
      var v := s.(table := s.table - {id});
      OldIsCached(s, t, n, hold, id);
      FindsOld(s, t, n, hold, id);
      TakesOut(v, t, s.table[id], ThenInsert(n, hold));
      ReachesOn(Go(s, t, FindOld(n, hold)), Go(v, t, Unset(s.table[id], ThenInsert(n, hold))),
                Go(Unbound(s, id), t, TableInsert(n, hold)), t);
    } else {
      FindsNone(s, t, n, hold);
    }
  }

  /** The key is bound to the handle, and usage and pinned usage count it; a caller that asked for it gets it. */
  function Entered(s: State, n: nat, hold: bool): State
    requires n < |s.handles|
  {
    var h := s.handles[n];
    var id, total := h.entry.Id(), h.entry.Total();
    var s1 := s.(table := s.table[id := n], usage := s.usage + total,
                 pinned := if hold then s.pinned + total else s.pinned, mutex := None);
    if !hold then s1
    else s1.(handles := s.handles[n := h.(holders := {Ext(s.nextGrant)})],
             grants := s.grants[s.nextGrant := Grant(n, h.occupancy, h.entry, WantKey(id))],
             nextGrant := s.nextGrant + 1)
  }

  /** With the key bound and the reference pinned. */
  function Binding(s: State, n: nat, hold: bool): State
    requires n < |s.handles|
  {
    var e := s.handles[n].entry;
    s.(table := s.table[e.Id() := n], pinned := if hold then s.pinned + e.Total() else s.pinned)
  }

  lemma InsertBinds(s: State, t: Tid, n: nat, hold: bool)
    requires t < |s.threads| && n < |s.handles| && Sound(Go(s, t, TableInsert(n, hold)))
    ensures var s7 := Go(Binding(s, n, hold), t, AddUsage(n, hold));
      Reaches(Go(s, t, TableInsert(n, hold)), t, s7) && Sound(s7)
  {
    var e := s.handles[n].entry;
    var s6 := Go(s, t, TableInsert(n, hold));
    if hold {
      var mid := Go(s.(table := s.table[e.Id() := n]), t, PinInsert(n));
      Next(s6, t, mid);
      InsertPins(s, t, n);
      ReachesOn(s6, mid, Go(Binding(s, n, true), t, AddUsage(n, true)), t);
    } else {
      Next(s6, t, Go(Binding(s, n, false), t, AddUsage(n, false)));
    }
  }

  lemma InsertPins(s: State, t: Tid, n: nat)
    requires t < |s.threads| && n < |s.handles|
    requires Sound(Go(s.(table := s.table[s.handles[n].entry.Id() := n]), t, PinInsert(n)))
    ensures var s7 := Go(Binding(s, n, true), t, AddUsage(n, true));
      Reaches(Go(s.(table := s.table[s.handles[n].entry.Id() := n]), t, PinInsert(n)), t, s7) && Sound(s7)
  {
    Next(Go(s.(table := s.table[s.handles[n].entry.Id() := n]), t, PinInsert(n)), t,
         Go(Binding(s, n, true), t, AddUsage(n, true)));
  }

  lemma InsertCounts(s: State, t: Tid, n: nat, hold: bool, usage: int)
    requires t < |s.threads| && n < |s.handles| && Sound(Go(s, t, AddUsage(n, hold)))
    requires usage == s.usage + s.handles[n].entry.Total()
    ensures var s8 := Go(s.(usage := usage), t, InsertDone(n, hold));
      Reaches(Go(s, t, AddUsage(n, hold)), t, s8) && Sound(s8)
  {
    Next(Go(s, t, AddUsage(n, hold)), t, Go(s.(usage := usage), t, InsertDone(n, hold)));
  }

  lemma InsertReturns(s: State, t: Tid, n: nat, hold: bool, b: State)
    requires t < |s.threads| && n < |s.handles| && (hold ==> s.handles[n].holders == {Op(t)})
    requires b == Binding(s, n, hold).(usage := s.usage + s.handles[n].entry.Total())
    requires Sound(Go(b, t, InsertDone(n, hold)))
    ensures Reaches(Go(b, t, InsertDone(n, hold)), t, Go(Entered(s, n, hold), t, Idle))
  {
    assert hold ==> s.handles[n].holders - {Op(t)} + {Ext(s.nextGrant)} == {Ext(s.nextGrant)};
    Next(Go(b, t, InsertDone(n, hold)), t, Go(Entered(s, n, hold), t, Idle));
  }

  lemma InsertEnds(s: State, t: Tid, n: nat, hold: bool)
    requires t < |s.threads| && n < |s.handles| && (hold ==> s.handles[n].holders == {Op(t)})
    requires Sound(Go(s, t, TableInsert(n, hold)))
    ensures Reaches(Go(s, t, TableInsert(n, hold)), t, Go(Entered(s, n, hold), t, Idle))
  {
    var usage := s.usage + s.handles[n].entry.Total();
    var b := Binding(s, n, hold);
    var c := b.(usage := usage);
    var s6 := Go(s, t, TableInsert(n, hold));
    InsertBinds(s, t, n, hold);
    InsertCounts(b, t, n, hold, usage);
    InsertReturns(s, t, n, hold, c);
    ReachesOn(s6, Go(b, t, AddUsage(n, hold)), Go(c, t, InsertDone(n, hold)), t);
    ReachesOn(s6, Go(c, t, InsertDone(n, hold)), Go(Entered(s, n, hold), t, Idle), t);
  }

  // ---- from the end of the eviction on

  lemma NewStays(s: State, t: Tid, n: nat, hold: bool)
    requires t < |s.threads| && n < |s.handles| && Sound(Go(s, t, FindOld(n, hold)))
    ensures var v := Unbound(s, s.handles[n].entry.Id()); n < |v.handles| && v.handles[n] == s.handles[n]
    ensures Unbound(s, s.handles[n].entry.Id()).threads == s.threads
  {
    var s1 := Go(s, t, FindOld(n, hold));
    SoundIs(s1);
    InsideIs(s1, t);
    assert !Mapped(s.handles, s.table, n);
  }

  /** What an insertion that goes on makes of the shard. */
  function Inserted(s: State, t: Tid, e: Entry, hold: bool): State
    requires Grabable(s)
  {
    var v := Unbound(Filed(s, t, e, hold), e.Id());
    if Taken(s) < |v.handles| then Entered(v, Taken(s), hold) else v
  }

  /**
   An insertion that goes on after its eviction binds the key to a handle, from the bin if there is one, with the entry,
   takes the key's old handle out of the cache, and counts the charge.
   */
  lemma InsertEnters(s: State, t: Tid, e: Entry, hold: bool, ok: bool)
    requires t < |s.threads| && Sound(Go(s, t, Evicted(ForInsert(e, hold), ok))) && (ok || (!s.strict && hold))
    ensures Grabable(s)
    ensures Reaches(Go(s, t, Evicted(ForInsert(e, hold), ok)), t, Go(Inserted(s, t, e, hold), t, Idle))
  {
    var s0 := Go(s, t, Evicted(ForInsert(e, hold), ok));
    assert Grabable(s) by {
      SoundIs(s0);
      CanGoOn(s0, t);
    }
    InsertFiles(s, t, e, hold, ok);
    InsertEntersFiled(s, t, e, hold);
    ReachesOn(s0, Go(Filed(s, t, e, hold), t, FindOld(Taken(s), hold)), Go(Inserted(s, t, e, hold), t, Idle), t);
  }

  lemma InsertEntersFiled(s: State, t: Tid, e: Entry, hold: bool)
    requires t < |s.threads| && Grabable(s) && Sound(Go(Filed(s, t, e, hold), t, FindOld(Taken(s), hold)))
    ensures Reaches(Go(Filed(s, t, e, hold), t, FindOld(Taken(s), hold)), t, Go(Inserted(s, t, e, hold), t, Idle))
  {
    var n, h := Taken(s), Fresh(e, hold, if hold then {Op(t)} else {}, Occupancy(s));
    var f := Filed(s, t, e, hold);
    WithPut(s, h, h);
    NewStays(f, t, n, hold);
    InsertDisplaces(f, t, n, hold);
    var v := Unbound(f, e.Id());
    InsertEnds(v, t, n, hold);
    ReachesOn(Go(f, t, FindOld(n, hold)), Go(v, t, TableInsert(n, hold)), Go(Entered(v, n, hold), t, Idle), t);
  }

  /** One that does not leaves the shard as the eviction left it. */
  lemma InsertGivesUp(s: State, t: Tid, e: Entry, hold: bool)
    requires t < |s.threads| && s.mutex == Some(t) && Sound(Go(s, t, Evicted(ForInsert(e, hold), false)))
    requires s.strict || !hold
    ensures Reaches(Go(s, t, Evicted(ForInsert(e, hold), false)), t, Go(s.(mutex := None), t, Idle))
  {
    var s0, s1 := Go(s, t, Evicted(ForInsert(e, hold), false)), Go(s, t, Unlock);
    Next(s0, t, s1);
    assert s.(mutex := Some(t)) == s;
    Unlocks(s, t);
    ReachesOn(s0, s1, Go(s.(mutex := None), t, Idle), t);
  }

  // ---- the eviction

  /** The answer and the list of an eviction that begins in this state. */
  ghost predicate EvictsTo(s: State, ev: Evictor, x: State, t: Tid) {
    && t < |x.threads| && x.threads[t].pc.Evicted? && x.threads[t].pc.ev == ev && x.capacity == s.capacity
    && x.strict == s.strict
    && if s.usage == 0 then
         Slots(x) == Slots(s) && x.usage == 0 && (x.threads[t].pc.ok <==> ev.Charge() <= s.capacity)
       else
         s.head < |s.handles| &&
         var r := Turns(Slots(s), s.usage, ev.Charge(), s.capacity, s.head, 0);
         Slots(x) == r.list && x.usage == r.usage && x.threads[t].pc.ok == r.ok
  }

  lemma {:induction false} SoundIterate(s: State, t: Tid, m: nat)
    requires Sound(s)
    ensures Sound(Iterate(Action(t), s, m))
  {
    if m > 0 {
      SoundIterate(s, t, m - 1);
      var x := Iterate(Action(t), s, m - 1);
      SoundIs(x);
      InvStep(x, t, EraseUnRefEntries);
      SoundIs(Step(x, t, EraseUnRefEntries));
    }
  }

  lemma SoundReaches(s: State, t: Tid, s': State)
    requires Sound(s) && Reaches(s, t, s')
    ensures Sound(s')
  {
    var m: nat :| Iterate(Action(t), s, m) == s';
    SoundIterate(s, t, m);
  }

  lemma EvictionStarts(s: State, t: Tid, ev: Evictor)
    requires t < |s.threads| && Sound(Go(s, t, EvictStart(ev)))
    ensures var s1 := Go(s, t, if s.usage == 0 then Evicted(ev, ev.Charge() <= s.capacity)
                               else EvictTest(ev, s.head, false, s.usage));
      Reaches(Go(s, t, EvictStart(ev)), t, s1) && Sound(s1)
    ensures s.usage != 0 ==> s.head < |s.handles|
  {
    var s0 := Go(s, t, EvictStart(ev));
    assert s.usage != 0 ==> s.head < |s.handles| by {
      SoundIs(s0);
      AtRest(s0);
    }
    Next(s0, t, Go(s, t, if s.usage == 0 then Evicted(ev, ev.Charge() <= s.capacity)
                         else EvictTest(ev, s.head, false, s.usage)));
  }

  lemma EvictionLoops(s: State, t: Tid, ev: Evictor) returns (x: State)
    requires t < |s.threads| && s.usage != 0 && s.head < |s.handles|
    requires Sound(Go(s, t, EvictTest(ev, s.head, false, s.usage)))
    ensures Reaches(Go(s, t, EvictTest(ev, s.head, false, s.usage)), t, x) && EvictsTo(s, ev, x, t)
  {
    var s1 := Go(s, t, EvictTest(ev, s.head, false, s.usage));
    SoundIs(s1);
    x := LoopIsTurns(s1, t, ev);
    assert Slots(s1) == Slots(s);
  }

  lemma EvictionRuns(s: State, t: Tid, ev: Evictor) returns (x: State)
    requires t < |s.threads| && Sound(Go(s, t, EvictStart(ev)))
    ensures Reaches(Go(s, t, EvictStart(ev)), t, x) && EvictsTo(s, ev, x, t) && Sound(x)
  {
    var s0 := Go(s, t, EvictStart(ev));
    EvictionStarts(s, t, ev);
    if s.usage == 0 {
      x := Go(s, t, Evicted(ev, ev.Charge() <= s.capacity));
      assert Slots(x) == Slots(s);
    } else {
      var s1 := Go(s, t, EvictTest(ev, s.head, false, s.usage));
      x := EvictionLoops(s, t, ev);
      ReachesOn(s0, s1, x, t);
      SoundReaches(s1, t, x);
    }
  }

  /** Where a thread is, it is with the claims of that point, and inside the mutex after an eviction. */
  lemma AtEvicted(x: State, t: Tid)
    requires Sound(x) && t < |x.threads| && x.threads[t].pc.Evicted?
    ensures x == Go(x, t, x.threads[t].pc) && x.mutex == Some(t)
  {
    SoundIs(x);
    InsideIs(x, t);
    assert x.threads[t := x.threads[t]] == x.threads;
  }

  // ---- the calls

  lemma CapacityLocks(s: State, t: Tid, capacity: nat)
    requires Ready(s, t)
    ensures var s1 := Go(s.(mutex := Some(t), capacity := capacity), t, EvictStart(ForCapacity));
      Reaches(Step(s, t, SetCapacity(capacity)), t, s1) && Sound(s1)
  {
    var s0 := Go(s, t, Lock(CapacityJob(capacity)));
    assert Step(s, t, SetCapacity(capacity)) == s0;
    InvStep(s, t, SetCapacity(capacity));
    SoundIs(s0);
    Next(s0, t, Go(s.(mutex := Some(t), capacity := capacity), t, EvictStart(ForCapacity)));
  }

  lemma CapacityEnds(x: State, t: Tid)
    requires Sound(x) && t < |x.threads| && x.threads[t].pc.Evicted? && x.threads[t].pc.ev == ForCapacity
    ensures Reaches(x, t, Go(x.(mutex := None), t, Idle))
  {
    AtEvicted(x, t);
    var s1 := Go(x, t, Unlock);
    assert x.(mutex := Some(t)) == x;
    Next(x, t, s1);
    Unlocks(x, t);
    ReachesOn(x, s1, Go(x.(mutex := None), t, Idle), t);
  }

  /** SetCapacity sets the capacity and evicts for it; nothing else changes after the eviction. */
  lemma SetCapacitySets(s: State, t: Tid, capacity: nat) returns (x: State)
    requires Ready(s, t)
    ensures EvictsTo(s.(capacity := capacity), ForCapacity, x, t) && x.capacity == capacity
    ensures Reaches(Step(s, t, SetCapacity(capacity)), t, Go(x.(mutex := None), t, Idle))
  {
    var s1 := Go(s.(mutex := Some(t), capacity := capacity), t, EvictStart(ForCapacity));
    CapacityLocks(s, t, capacity);
    x := EvictionRuns(s.(mutex := Some(t), capacity := capacity), t, ForCapacity);
    assert Slots(s.(mutex := Some(t), capacity := capacity)) == Slots(s.(capacity := capacity));
    CapacityEnds(x, t);
    ReachesOn(Step(s, t, SetCapacity(capacity)), s1, x, t);
    ReachesOn(Step(s, t, SetCapacity(capacity)), x, Go(x.(mutex := None), t, Idle), t);
  }

  lemma InsertLocks(s: State, t: Tid, e: Entry, hold: bool)
    requires Ready(s, t)
    ensures var s1 := Go(s.(mutex := Some(t)), t, EvictStart(ForInsert(e, hold)));
      Reaches(Step(s, t, Insert(e, hold)), t, s1) && Sound(s1)
  {
    var s0 := Go(s, t, Lock(InsertJob(e, hold)));
    assert Step(s, t, Insert(e, hold)) == s0;
    InvStep(s, t, Insert(e, hold));
    SoundIs(s0);
    Next(s0, t, Go(s.(mutex := Some(t)), t, EvictStart(ForInsert(e, hold))));
  }

  /** The shard after an insertion whose eviction ended in this state. */
  function AfterEviction(x: State, t: Tid, e: Entry, hold: bool, ok: bool): State {
    if (ok || (!x.strict && hold)) && Grabable(x) then Inserted(x, t, e, hold) else x.(mutex := None)
  }

  lemma InsertAfter(x: State, t: Tid, e: Entry, hold: bool)
    requires Sound(x) && t < |x.threads| && x.threads[t].pc.Evicted? && x.threads[t].pc.ev == ForInsert(e, hold)
    ensures t < |AfterEviction(x, t, e, hold, x.threads[t].pc.ok).threads|
    ensures Reaches(x, t, Go(AfterEviction(x, t, e, hold, x.threads[t].pc.ok), t, Idle))
  {
    AtEvicted(x, t);
    var ok := x.threads[t].pc.ok;
    if ok || (!x.strict && hold) { InsertEnters(x, t, e, hold, ok); } else { InsertGivesUp(x, t, e, hold); }
  }

  /** Insert evicts for the charge, and then enters the entry or gives up. */
  lemma InsertInserts(s: State, t: Tid, e: Entry, hold: bool) returns (x: State)
    requires Ready(s, t)
    ensures EvictsTo(s, ForInsert(e, hold), x, t)
    ensures t < |AfterEviction(x, t, e, hold, x.threads[t].pc.ok).threads|
    ensures Reaches(Step(s, t, Insert(e, hold)), t, Go(AfterEviction(x, t, e, hold, x.threads[t].pc.ok), t, Idle))
  {
    var s1 := Go(s.(mutex := Some(t)), t, EvictStart(ForInsert(e, hold)));
    InsertLocks(s, t, e, hold);
    x := EvictionRuns(s.(mutex := Some(t)), t, ForInsert(e, hold));
    assert Slots(s.(mutex := Some(t))) == Slots(s);
    InsertAfter(x, t, e, hold);
    ReachesOn(Step(s, t, Insert(e, hold)), s1, x, t);
    ReachesOn(Step(s, t, Insert(e, hold)), x, Go(AfterEviction(x, t, e, hold, x.threads[t].pc.ok), t, Idle), t);
  }
}
