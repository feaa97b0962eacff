/**
 What each call does to a shard of the CLOCK cache when no other thread moves meanwhile: Lookup, Release, Erase, Insert
 and SetCapacity, from the state before the call to the state after it.
 */
module ClockSerial {
  import opened Basics
  import opened Seals
  import opened ClockModel
  import opened ClockInvariant
  import opened ClockProofs
  import opened ClockTheorems
  import opened ClockAlone
  import opened ClockLookup

  // ---- chains of actions

  /** The thread is about to start a call, and nobody holds the mutex. */
  ghost predicate Ready(s: State, t: Tid) { Inv(s) && IdleIn(s, t) && s.mutex == None }

  ghost predicate IsSound(seal: Seal, s: State) { Inv(s) }

  /** The invariant, sealed: carried along a chain of actions. */
  ghost predicate Sound(s: State) { forall seal: Seal :: IsSound(seal, s) }

  lemma SoundIs(s: State)
    ensures Sound(s) <==> Inv(s)
  {
    assert Sound(s) ==> IsSound(Seal, s);
  }

  /** The thread's next action leads to this state. */
  lemma Next(s: State, t: Tid, s': State)
    requires Sound(s) && t < |s.threads| && !s.threads[t].pc.Idle?
    requires InRange(s, s.threads[t].pc) ==> Act(s, t) == s'
    ensures Reaches(s, t, s') && Sound(s')
  {
    SoundIs(s);
    ReachesNext(s, t);
    SoundIs(s');
  }

  lemma IdleThread(s: State, t: Tid)
    requires Inv(s) && IdleIn(s, t)
    ensures s.threads[t] == Thread(Idle, Nothing) && s.threads[t := Thread(Idle, Nothing)] == s.threads
  {
    AtThread(s, t);
  }

  lemma IdleHoldsNothing(s: State, t: Tid, i: nat)
    requires Inv(s) && IdleIn(s, t) && i < |s.handles|
    ensures Op(t) !in s.handles[i].holders
  {
    AtThread(s, t);
    AtHandle(s, i);
    assert Op(t) in s.handles[i].holders ==> HolderOk(s, i, Op(t));
  }

  // ---- Lookup

  /** A Lookup is over at once exactly if the key is not bound. */
  lemma MissAtOnce(s: State, t: Tid, id: CacheKey)
    requires IdleIn(s, t)
    ensures t < |Step(s, t, Lookup(id)).threads|
    ensures Step(s, t, Lookup(id)).threads[t].pc.Idle? <==> id !in s.table
    ensures Step(s, t, Lookup(id)).threads[t].pc.Idle? ==> Step(s, t, Lookup(id)) == s && !Cached(s, id)
  {}

  /** The shard after a Lookup that found this handle: one more reference, handed to the caller. */
  function Hit(s: State, i: nat, want: Want): State
    requires i < |s.handles|
  {
    var h := s.handles[i];
    s.(handles := s.handles[i := h.(flags := h.flags.(refs := h.flags.refs + 1),
                                    holders := h.holders + {Ext(s.nextGrant)})],
       pinned := if h.flags.refs == 0 then s.pinned + h.entry.Total() else s.pinned,
       grants := s.grants[s.nextGrant := Grant(i, h.occupancy, h.entry, want)], nextGrant := s.nextGrant + 1)
  }

  lemma LookupLoads(s: State, t: Tid, i: nat, want: Want)
    requires IdleIn(s, t) && i < |s.handles| && s.handles[i].flags.inCache && Sound(Go(s, t, RefLoad(i, want)))
    ensures var s1 := Go(s, t, RefLoad(i, want));
      var s2 := Go(s, t, RefCas(i, s.handles[i].flags, want));
      Reaches(s1, t, s2) && Sound(s2)
  {
    Next(Go(s, t, RefLoad(i, want)), t, Go(s, t, RefCas(i, s.handles[i].flags, want)));
  }

  /** The reference is gained. */
  function Referenced(s: State, t: Tid, i: nat): State
    requires i < |s.handles|
  {
    Put(s, i, Gained(s.handles[i], t))
  }

  lemma LookupGains(s: State, t: Tid, i: nat, want: Want)
    requires IdleIn(s, t) && i < |s.handles|
    requires Sound(Go(s, t, RefCas(i, s.handles[i].flags, want)))
    ensures var h := s.handles[i];
      var s2 := Go(s, t, RefCas(i, h.flags, want));
      var s3 := Go(Referenced(s, t, i), t,
                   if h.flags.refs == 0 then PinAdd(i, h.entry.Total(), want) else Check(i, want));
      Reaches(s2, t, s3) && Sound(s3)
  {
    var h := s.handles[i];
    var s2 := Go(s, t, RefCas(i, h.flags, want));
    Next(s2, t, Go(Referenced(s, t, i), t,
                   if h.flags.refs == 0 then PinAdd(i, h.entry.Total(), want) else Check(i, want)));
  }

  /** The pinned usage with the reference counted. */
  function Pinning(s: State, i: nat): int
    requires i < |s.handles|
  {
    if s.handles[i].flags.refs == 0 then s.pinned + s.handles[i].entry.Total() else s.pinned
  }

  lemma LookupPins(s: State, t: Tid, i: nat, want: Want)
    requires IdleIn(s, t) && i < |s.handles| && s.handles[i].flags.refs == 0
    requires Sound(Go(Referenced(s, t, i), t, PinAdd(i, s.handles[i].entry.Total(), want)))
    ensures var s3 := Go(Referenced(s, t, i), t, PinAdd(i, s.handles[i].entry.Total(), want));
      var s4 := Go(Referenced(s, t, i).(pinned := Pinning(s, i)), t, Check(i, want));
      Reaches(s3, t, s4) && Sound(s4)
  {
    Next(Go(Referenced(s, t, i), t, PinAdd(i, s.handles[i].entry.Total(), want)), t,
         Go(Referenced(s, t, i).(pinned := Pinning(s, i)), t, Check(i, want)));
  }

  lemma LookupReturns(s: State, t: Tid, i: nat, want: Want)
    requires Inv(s) && IdleIn(s, t) && i < |s.handles| && (want.WantKey? ==> s.handles[i].entry.Id() == want.id)
    requires Sound(Go(Referenced(s, t, i).(pinned := Pinning(s, i)), t, Check(i, want)))
    ensures var s4 := Go(Referenced(s, t, i).(pinned := Pinning(s, i)), t, Check(i, want));
      Reaches(s4, t, Hit(s, i, want))
  {
    var s4 := Go(Referenced(s, t, i).(pinned := Pinning(s, i)), t, Check(i, want));
    IdleThread(s, t);
    IdleHoldsNothing(s, t, i);
    var hs := s.handles[i].holders;
    assert hs + {Op(t)} - {Op(t)} + {Ext(s.nextGrant)} == hs + {Ext(s.nextGrant)};
    Next(s4, t, Hit(s, i, want));
  }

  /** Ref on a handle that is in cache gains a reference; a Lookup then sees whether the key is right. */
  lemma RefGains(s: State, t: Tid, i: nat, want: Want)
    requires Inv(s) && IdleIn(s, t) && i < |s.handles| && (want.WantKey? ==> s.handles[i].entry.Id() == want.id)
    requires s.handles[i].flags.inCache && Sound(Go(s, t, RefLoad(i, want)))
    ensures Reaches(Go(s, t, RefLoad(i, want)), t, Hit(s, i, want))
  {
    var s1, s2 := Go(s, t, RefLoad(i, want)), Go(s, t, RefCas(i, s.handles[i].flags, want));
    LookupLoads(s, t, i, want);
    LookupGains(s, t, i, want);
    var s4 := Go(Referenced(s, t, i).(pinned := Pinning(s, i)), t, Check(i, want));
    if s.handles[i].flags.refs == 0 {
      var s3 := Go(Referenced(s, t, i), t, PinAdd(i, s.handles[i].entry.Total(), want));
      LookupPins(s, t, i, want);
      ReachesOn(s2, s3, s4, t);
    }
    LookupReturns(s, t, i, want);
    ReachesOn(s1, s2, s4, t);
    ReachesOn(s1, s4, Hit(s, i, want), t);
  }

  /** A Lookup of a cached key finds it: the handle to which it is bound is handed out with one more reference. */
  lemma LookupHits(s: State, t: Tid, id: CacheKey)
    requires Inv(s) && IdleIn(s, t) && Cached(s, id)
    ensures Reaches(Step(s, t, Lookup(id)), t, Hit(s, s.table[id], WantKey(id)))
  {
    var s1 := Go(s, t, RefLoad(s.table[id], WantKey(id)));
    assert Step(s, t, Lookup(id)) == s1;
    InvStep(s, t, Lookup(id));
    SoundIs(s1);
    assert s.handles[s.table[id]].entry.Id() == id by { AtRest(s); }
    RefGains(s, t, s.table[id], WantKey(id));
  }

  /** Ref gains a reference exactly if the handle is in cache. */
  lemma RefRefs(s: State, t: Tid, i: nat)
    requires Inv(s) && IdleIn(s, t) && i < |s.handles|
    ensures Reaches(Step(s, t, Ref(i)), t, if s.handles[i].flags.inCache then Hit(s, i, WantRef) else s)
  {
    var s1 := Go(s, t, RefLoad(i, WantRef));
    assert Step(s, t, Ref(i)) == s1;
    InvStep(s, t, Ref(i));
    SoundIs(s1);
    if s.handles[i].flags.inCache {
      RefGains(s, t, i, WantRef);
    } else {
      IdleThread(s, t);
      Next(s1, t, s);
    }
  }

  // ---- Erase

  /** The handle is put in the bin. */
  function Freed(s: State, i: nat): State
    requires i < |s.handles|
  {
    var h := s.handles[i];
    s.(handles := s.handles[i := h.(entry := h.entry.(key := "", value := 0), own := Free)], recycle := s.recycle + [i],
       usage := s.usage - h.entry.Total(), recycled := s.recycled + [(i, h.occupancy)])
  }

  /** The handle is not in cache any more, and in the bin if it is not referenced. */
  function TakenOut(s: State, i: nat): State
    requires i < |s.handles|
  {
    var h := s.handles[i];
    var s1 := s.(handles := s.handles[i := h.(flags := h.flags.(inCache := false))]);
    if h.flags.refs == 0 then Freed(s1, i) else s1
  }

  /** The key is not bound any more, and the handle that it was bound to is taken out of the cache. */
  function Unbound(s: State, id: CacheKey): State {
    if id in s.table && s.table[id] < |s.handles| then TakenOut(s.(table := s.table - {id}), s.table[id]) else s
  }

  /** From inside UnsetInCache on, as far as the point where that returns to. */
  lemma TakesOut(s: State, t: Tid, i: nat, after: After)
    requires t < |s.threads| && i < |s.handles| && s.handles[i].flags.inCache && !after.ThenEvict?
    requires Sound(Go(s, t, Unset(i, after)))
    ensures var s' := Go(TakenOut(s, i), t, Resume(s, after)); Reaches(Go(s, t, Unset(i, after)), t, s') && Sound(s')
  {
    var h := s.handles[i];
    var s1 := Go(s, t, Unset(i, after));
    if h.flags.refs > 0 {
      Next(s1, t, Go(TakenOut(s, i), t, Resume(s, after)));
    } else {
      var s2 := Go(Put(s, i, Uncached(h, t)), t, Recycle(i, after));
      Next(s1, t, s2);
      TakesOutLast(s, t, i, after);
      ReachesOn(s1, s2, Go(TakenOut(s, i), t, Resume(s, after)), t);
    }
  }

  lemma TakesOutLast(s: State, t: Tid, i: nat, after: After)
    requires t < |s.threads| && i < |s.handles| && s.handles[i].flags.inCache && s.handles[i].flags.refs == 0
    requires !after.ThenEvict? && Sound(Go(Put(s, i, Uncached(s.handles[i], t)), t, Recycle(i, after)))
    ensures var s2 := Go(Put(s, i, Uncached(s.handles[i], t)), t, Recycle(i, after));
      var s' := Go(TakenOut(s, i), t, Resume(s, after)); Reaches(s2, t, s') && Sound(s')
  {
    var s2 := Go(Put(s, i, Uncached(s.handles[i], t)), t, Recycle(i, after));
    var s' := Go(TakenOut(s, i), t, Resume(s, after));
    assert s'.handles == DoRecycle(s2, t, i, after).handles;
    Next(s2, t, s');
  }

  lemma Unlocks(s: State, t: Tid)
    requires t < |s.threads| && Sound(Go(s.(mutex := Some(t)), t, Unlock))
    ensures Reaches(Go(s.(mutex := Some(t)), t, Unlock), t, Go(s.(mutex := None), t, Idle))
    ensures Sound(Go(s.(mutex := None), t, Idle))
  {
    Next(Go(s.(mutex := Some(t)), t, Unlock), t, Go(s.(mutex := None), t, Idle));
  }

  /** Inside the mutex: EraseAndConfirm, to the end of the call. */
  lemma Erases(s: State, t: Tid, id: CacheKey)
    requires t < |s.threads| && Sound(Go(s.(mutex := Some(t)), t, EraseFind(id))) && TableOk(s.(mutex := None))
    ensures Reaches(Go(s.(mutex := Some(t)), t, EraseFind(id)), t, Go(Unbound(s, id).(mutex := None), t, Idle))
    ensures Sound(Go(Unbound(s, id).(mutex := None), t, Idle))
  {
    var s1 := Go(s.(mutex := Some(t)), t, EraseFind(id));
    var s9 := Go(Unbound(s, id).(mutex := Some(t)), t, Unlock);
    if id in s.table {
      ErasesBound(s, t, id);
    } else {
      Next(s1, t, s9);
    }
    Unlocks(Unbound(s, id), t);
    ReachesOn(s1, s9, Go(Unbound(s, id).(mutex := None), t, Idle), t);
  }

  lemma ErasesBound(s: State, t: Tid, id: CacheKey)
    requires t < |s.threads| && Sound(Go(s.(mutex := Some(t)), t, EraseFind(id))) && TableOk(s.(mutex := None))
    requires id in s.table
    ensures var s1, s9 := Go(s.(mutex := Some(t)), t, EraseFind(id)), Go(Unbound(s, id).(mutex := Some(t)), t, Unlock);
      Reaches(s1, t, s9) && Sound(s9)
  {
    var s1 := Go(s.(mutex := Some(t)), t, EraseFind(id));
    var i := s.table[id];
    var v := s.(mutex := Some(t), table := s.table - {id});
    var s2 := Go(v, t, Unset(i, ThenUnlock));
    BoundIsCached(s, id);
    FindsBound(s, t, id);
    TakesOut(v, t, i, ThenUnlock);
    assert TakenOut(v, i) == Unbound(s, id).(mutex := Some(t));
    ReachesOn(s1, s2, Go(TakenOut(v, i), t, Unlock), t);
  }

  lemma FindsBound(s: State, t: Tid, id: CacheKey)
    requires t < |s.threads| && Sound(Go(s.(mutex := Some(t)), t, EraseFind(id))) && id in s.table
    ensures var s1 := Go(s.(mutex := Some(t)), t, EraseFind(id));
      var s2 := Go(s.(mutex := Some(t), table := s.table - {id}), t, Unset(s.table[id], ThenUnlock));
      Reaches(s1, t, s2) && Sound(s2)
  {
    Next(Go(s.(mutex := Some(t)), t, EraseFind(id)), t,
         Go(s.(mutex := Some(t), table := s.table - {id}), t, Unset(s.table[id], ThenUnlock)));
  }

  lemma BoundIsCached(s: State, id: CacheKey)
    requires TableOk(s.(mutex := None)) && id in s.table
    ensures s.table[id] < |s.handles| && s.handles[s.table[id]].flags.inCache && s.handles[s.table[id]].entry.Id() == id
  {
    assert TableInv(s.handles, s.table, NoDebt);
    assert Mapped(s.handles, s.table, s.table[id]);
  }

  lemma EraseLocks(s: State, t: Tid, id: CacheKey)
    requires Ready(s, t)
    ensures var s0, s1 := Go(s, t, Lock(EraseJob(id))), Go(s.(mutex := Some(t)), t, EraseFind(id));
      Step(s, t, Erase(id)) == s0 && Reaches(s0, t, s1) && Sound(s1)
  {
    var s0, s1 := Go(s, t, Lock(EraseJob(id))), Go(s.(mutex := Some(t)), t, EraseFind(id));
    assert Step(s, t, Erase(id)) == s0;
    InvStep(s, t, Erase(id));
    SoundIs(s0);
    Next(s0, t, s1);
  }

  /** Erase unbinds the key and takes its handle out of the cache; nothing else changes. */
  lemma EraseErases(s: State, t: Tid, id: CacheKey)
    requires Ready(s, t)
    ensures Reaches(Step(s, t, Erase(id)), t, Unbound(s, id))
  {
    var s0, s1 := Go(s, t, Lock(EraseJob(id))), Go(s.(mutex := Some(t)), t, EraseFind(id));
    EraseLocks(s, t, id);
    assert s.(mutex := None) == s;
    AtRest(s);
    Erases(s, t, id);
    IdleThread(s, t);
    assert Go(Unbound(s, id).(mutex := None), t, Idle) == Unbound(s, id);
    ReachesOn(s0, s1, Unbound(s, id), t);
  }

  // ---- Release

  /** The reference is given back: the usage bit is set, and the pinned usage falls with the last reference. */
  function Returned(s: State, g: nat): State
    requires g in s.grants && s.grants[g].idx < |s.handles| && s.handles[s.grants[g].idx].flags.refs > 0
  {
    var i := s.grants[g].idx;
    var h := s.handles[i];
    s.(handles := s.handles[i := h.(flags := h.flags.(usage := true, refs := h.flags.refs - 1),
                                    holders := h.holders - {Ext(g)})],
       pinned := if h.flags.refs == 1 then s.pinned - h.entry.Total() else s.pinned, grants := s.grants - {g})
  }

  /** Release: a handle that is out of cache is freed with its last reference, and a forced one loses its key. */
  function Released(s: State, g: nat, force: bool): State
    requires g in s.grants && s.grants[g].idx < |s.handles| && s.handles[s.grants[g].idx].flags.refs > 0
  {
    var i := s.grants[g].idx;
    var h := s.handles[i];
    if h.flags.refs == 1 && !h.flags.inCache then Freed(Returned(s, g), i)
    else if force then Unbound(Returned(s, g), h.entry.Id())
    else Returned(s, g)
  }

  lemma GrantedIsHeld(s: State, g: nat)
    requires Inv(s) && g in s.grants
    ensures s.grants[g].idx < |s.handles| && s.handles[s.grants[g].idx].flags.refs > 0
  {
    AtGrant(s, g);
    HeldIsLive(s, s.grants[g].idx, Ext(g));
    AtHandle(s, s.grants[g].idx);
  }

  /** With the usage bit set, before the reference is dropped. */
  function Marked(s: State, t: Tid, g: nat): State
    requires g in s.grants && s.grants[g].idx < |s.handles|
  {
    var i := s.grants[g].idx;
    var h := s.handles[i];
    s.(handles := s.handles[i := h.(flags := h.flags.(usage := true), holders := h.holders - {Ext(g)} + {Op(t)})],
       grants := s.grants - {g})
  }

  lemma ReleaseMarks(s: State, t: Tid, g: nat, force: bool)
    requires Inv(s) && IdleIn(s, t) && g in s.grants && s.grants[g].idx < |s.handles|
    ensures var s2 := Go(Marked(s, t, g), t, Drop(s.grants[g].idx, FromRelease(force)));
      Reaches(Step(s, t, Release(g, force)), t, s2) && Sound(s2)
  {
    var s1 := DoRelease(s, t, g, force);
    assert Step(s, t, Release(g, force)) == s1;
    InvStep(s, t, Release(g, force));
    SoundIs(s1);
    Next(s1, t, Go(Marked(s, t, g), t, Drop(s.grants[g].idx, FromRelease(force))));
  }

  /** With the reference dropped, before the pinned usage is corrected; who drops the last one may have to recycle. */
  function Unpinned(s: State, t: Tid, g: nat): State
    requires g in s.grants && s.grants[g].idx < |s.handles| && s.handles[s.grants[g].idx].flags.refs > 0
  {
    var i := s.grants[g].idx;
    var s' := Returned(s, g).(pinned := s.pinned);
    if s.handles[i].flags.refs == 1 && !s.handles[i].flags.inCache then Put(s', i, s'.handles[i].(own := Dying(t)))
    else s'
  }

  lemma ReleaseDrops(s: State, t: Tid, g: nat, force: bool)
    requires Inv(s) && IdleIn(s, t) && g in s.grants && s.grants[g].idx < |s.handles|
    requires s.handles[s.grants[g].idx].flags.refs > 0
    requires Sound(Go(Marked(s, t, g), t, Drop(s.grants[g].idx, FromRelease(force))))
    ensures var i := s.grants[g].idx;
      var h := s.handles[i];
      var s2 := Go(Marked(s, t, g), t, Drop(i, FromRelease(force)));
      var s3 := Go(Unpinned(s, t, g), t,
                   if h.flags.refs == 1 then PinSub(i, h.entry.Total(), !h.flags.inCache, FromRelease(force))
                   else AfterUnref(i, FromRelease(force)));
      Reaches(s2, t, s3) && Sound(s3)
  {
    var i := s.grants[g].idx;
    var h := s.handles[i];
    IdleHoldsNothing(s, t, i);
    assert h.holders - {Ext(g)} + {Op(t)} - {Op(t)} == h.holders - {Ext(g)};
    Next(Go(Marked(s, t, g), t, Drop(i, FromRelease(force))), t,
         Go(Unpinned(s, t, g), t,
            if h.flags.refs == 1 then PinSub(i, h.entry.Total(), !h.flags.inCache, FromRelease(force))
            else AfterUnref(i, FromRelease(force))));
  }

  lemma PinsTo(s: State, t: Tid, i: nat, dead: bool, force: bool)
    requires t < |s.threads| && i < |s.handles|
    ensures var total := s.handles[i].entry.Total();
      DoPinSub(Go(s, t, PinSub(i, total, dead, FromRelease(force))), t, i, total, dead, FromRelease(force)) ==
      Go(s.(pinned := s.pinned - total), t, AfterPins(i, dead, force))
  {
    var total := s.handles[i].entry.Total();
    var s3 := Go(s, t, PinSub(i, total, dead, FromRelease(force)));
    var s4 := Go(s.(pinned := s.pinned - total), t, AfterPins(i, dead, force));
    assert s3.threads[t := s4.threads[t]] == s4.threads;
  }

  lemma ReleasePins(s: State, t: Tid, i: nat, dead: bool, force: bool, total: nat, v: State)
    requires t < |s.threads| && i < |s.handles| && total == s.handles[i].entry.Total()
    requires v == s.(pinned := s.pinned - total)
    requires Sound(Go(s, t, PinSub(i, total, dead, FromRelease(force))))
    ensures var s3 := Go(s, t, PinSub(i, total, dead, FromRelease(force)));
      Reaches(s3, t, Go(v, t, AfterPins(i, dead, force))) && Sound(Go(v, t, AfterPins(i, dead, force)))
  {
    var s3 := Go(s, t, PinSub(i, total, dead, FromRelease(force)));
    PinsTo(s, t, i, dead, force);
    Next(s3, t, Go(v, t, AfterPins(i, dead, force)));
  }

  function AfterPins(i: nat, dead: bool, force: bool): Pc {
    if dead then Lock(RecycleJob(i)) else AfterUnref(i, FromRelease(force))
  }

  lemma RecycleLocks(s: State, t: Tid, i: nat)
    requires t < |s.threads| && i < |s.handles| && s.mutex == None && Sound(Go(s, t, Lock(RecycleJob(i))))
    ensures var s5 := Go(s.(mutex := Some(t)), t, Recycle(i, ThenUnlock));
      Reaches(Go(s, t, Lock(RecycleJob(i))), t, s5) && Sound(s5)
  {
    Next(Go(s, t, Lock(RecycleJob(i))), t, Go(s.(mutex := Some(t)), t, Recycle(i, ThenUnlock)));
  }

  lemma RecycleFrees(s: State, t: Tid, i: nat)
    requires t < |s.threads| && i < |s.handles| && Sound(Go(s.(mutex := Some(t)), t, Recycle(i, ThenUnlock)))
    ensures var s6 := Go(Freed(s, i).(mutex := Some(t)), t, Unlock);
      Reaches(Go(s.(mutex := Some(t)), t, Recycle(i, ThenUnlock)), t, s6) && Sound(s6)
  {
    Next(Go(s.(mutex := Some(t)), t, Recycle(i, ThenUnlock)), t, Go(Freed(s, i).(mutex := Some(t)), t, Unlock));
  }

  /** The last reference to a handle out of cache is gone: the handle is recycled. */
  lemma ReleaseRecycles(s: State, t: Tid, i: nat)
    requires t < |s.threads| && i < |s.handles| && s.mutex == None && Sound(Go(s, t, Lock(RecycleJob(i))))
    ensures Reaches(Go(s, t, Lock(RecycleJob(i))), t, Go(Freed(s, i), t, Idle))
  {
    var s4, s6 := Go(s, t, Lock(RecycleJob(i))), Go(Freed(s, i).(mutex := Some(t)), t, Unlock);
    RecycleLocks(s, t, i);
    RecycleFrees(s, t, i);
    Unlocks(Freed(s, i), t);
    ReachesOn(s4, Go(s.(mutex := Some(t)), t, Recycle(i, ThenUnlock)), s6, t);
    ReachesOn(s4, s6, Go(Freed(s, i), t, Idle), t);
  }

  lemma ForceReads(s: State, t: Tid, i: nat, hash: nat)
    requires t < |s.threads| && i < |s.handles| && hash == s.handles[i].entry.hash && Sound(Go(s, t, ReadHash(i)))
    ensures var s5 := Go(s, t, Lock(ForceEraseJob(i, hash))); Reaches(Go(s, t, ReadHash(i)), t, s5) && Sound(s5)
  {
    Next(Go(s, t, ReadHash(i)), t, Go(s, t, Lock(ForceEraseJob(i, hash))));
  }

  lemma ForceLocks(s: State, t: Tid, i: nat, id: CacheKey)
    requires t < |s.threads| && i < |s.handles| && s.mutex == None && id == s.handles[i].entry.Id()
    requires Sound(Go(s, t, Lock(ForceEraseJob(i, id.hash))))
    ensures var s6 := Go(s.(mutex := Some(t)), t, EraseFind(id));
      Reaches(Go(s, t, Lock(ForceEraseJob(i, id.hash))), t, s6) && Sound(s6)
  {
    Next(Go(s, t, Lock(ForceEraseJob(i, id.hash))), t, Go(s.(mutex := Some(t)), t, EraseFind(id)));
  }

  lemma TableAtRest(s: State, t: Tid, i: nat)
    requires t < |s.threads| && s.mutex == None && Sound(Go(s, t, ReadHash(i)))
    ensures TableOk(s.(mutex := None))
  {
    SoundIs(Go(s, t, ReadHash(i)));
    AtRest(Go(s, t, ReadHash(i)));
  }

  /** A forced release goes on to erase the key. */
  lemma ReleaseForces(s: State, t: Tid, i: nat)
    requires t < |s.threads| && i < |s.handles| && s.mutex == None && Sound(Go(s, t, ReadHash(i)))
    ensures Reaches(Go(s, t, ReadHash(i)), t, Go(Unbound(s, s.handles[i].entry.Id()), t, Idle))
  {
    var id := s.handles[i].entry.Id();
    var s4, s5 := Go(s, t, ReadHash(i)), Go(s, t, Lock(ForceEraseJob(i, id.hash)));
    var s6 := Go(s.(mutex := Some(t)), t, EraseFind(id));
    TableAtRest(s, t, i);
    ForceReads(s, t, i, id.hash);
    ForceLocks(s, t, i, id);
    Erases(s, t, id);
    ReachesOn(s4, s5, s6, t);
    ReachesOn(s4, s6, Go(Unbound(s, id).(mutex := None), t, Idle), t);
    assert Unbound(s, id).(mutex := None) == Unbound(s, id);
  }

  /** From the correction of the pinned usage on, or from where there is none. */
  lemma ReleaseEnds(s: State, t: Tid, g: nat, force: bool)
    requires Ready(s, t) && g in s.grants && s.grants[g].idx < |s.handles|
    requires s.handles[s.grants[g].idx].flags.refs > 0
    requires !(s.handles[s.grants[g].idx].flags.refs == 1 && !s.handles[s.grants[g].idx].flags.inCache)
    requires Sound(Go(Returned(s, g), t, AfterUnref(s.grants[g].idx, FromRelease(force))))
    ensures Reaches(Go(Returned(s, g), t, AfterUnref(s.grants[g].idx, FromRelease(force))), t, Released(s, g, force))
  {
    var i := s.grants[g].idx;
    IdleThread(s, t);
    assert Go(Returned(s, g), t, Idle) == Returned(s, g);
    if force {
      ReleaseForces(Returned(s, g), t, i);
      assert Go(Released(s, g, force), t, Idle) == Released(s, g, force);
    } else {
      assert Iterate(Action(t), Returned(s, g), 0) == Returned(s, g);
    }
  }

  /** The state in which the pinned usage has been corrected. */
  function Corrected(s: State, t: Tid, g: nat): State
    requires g in s.grants && s.grants[g].idx < |s.handles| && s.handles[s.grants[g].idx].flags.refs > 0
  {
    var u := Unpinned(s, t, g);
    u.(pinned := u.pinned - s.handles[s.grants[g].idx].entry.Total())
  }

  lemma CorrectedIs(s: State, t: Tid, g: nat, force: bool)
    requires Ready(s, t) && g in s.grants && s.grants[g].idx < |s.handles|
    requires s.handles[s.grants[g].idx].flags.refs == 1
    ensures var i := s.grants[g].idx;
      if s.handles[i].flags.inCache then Corrected(s, t, g) == Returned(s, g)
      else Go(Freed(Corrected(s, t, g), i), t, Idle) == Released(s, g, force)
  {
    var i := s.grants[g].idx;
    IdleThread(s, t);
    if !s.handles[i].flags.inCache {
      assert Freed(Corrected(s, t, g), i).handles == Released(s, g, force).handles;
    }
  }

  lemma ReleaseFinishes(s: State, t: Tid, g: nat, force: bool)
    requires Ready(s, t) && g in s.grants && s.grants[g].idx < |s.handles|
    requires s.handles[s.grants[g].idx].flags.refs == 1
    requires Sound(Go(Corrected(s, t, g), t,
                      AfterPins(s.grants[g].idx, !s.handles[s.grants[g].idx].flags.inCache, force)))
    ensures var i := s.grants[g].idx;
      Reaches(Go(Corrected(s, t, g), t, AfterPins(i, !s.handles[i].flags.inCache, force)), t, Released(s, g, force))
  {
    CorrectedIs(s, t, g, force);
    if s.handles[s.grants[g].idx].flags.inCache {
      ReleaseEnds(s, t, g, force);
    } else {
      ReleaseRecycles(Corrected(s, t, g), t, s.grants[g].idx);
    }
  }

  lemma UnpinnedEntry(s: State, t: Tid, g: nat)
    requires g in s.grants && s.grants[g].idx < |s.handles| && s.handles[s.grants[g].idx].flags.refs > 0
    ensures var u, i := Unpinned(s, t, g), s.grants[g].idx;
      && |u.handles| == |s.handles| && u.threads == s.threads && u.handles[i].entry == s.handles[i].entry
      && u.(pinned := u.pinned - u.handles[i].entry.Total()) == Corrected(s, t, g)
  {}

  lemma PinsCorrected(s: State, t: Tid, g: nat, dead: bool, force: bool)
    requires IdleIn(s, t) && g in s.grants && s.grants[g].idx < |s.handles|
    requires s.handles[s.grants[g].idx].flags.refs > 0
    requires Sound(Go(Unpinned(s, t, g), t, PinSub(s.grants[g].idx, s.handles[s.grants[g].idx].entry.Total(), dead,
                                                   FromRelease(force))))
    ensures var i := s.grants[g].idx;
      var s3 := Go(Unpinned(s, t, g), t, PinSub(i, s.handles[i].entry.Total(), dead, FromRelease(force)));
      var s4 := Go(Corrected(s, t, g), t, AfterPins(i, dead, force));
      Reaches(s3, t, s4) && Sound(s4)
  {
    UnpinnedEntry(s, t, g);
    ReleasePins(Unpinned(s, t, g), t, s.grants[g].idx, dead, force, s.handles[s.grants[g].idx].entry.Total(),
                Corrected(s, t, g));
  }

  lemma ReleaseAt(s: State, t: Tid, g: nat, force: bool)
    requires Ready(s, t) && g in s.grants && s.grants[g].idx < |s.handles|
    requires s.handles[s.grants[g].idx].flags.refs == 1
    requires Sound(Go(Unpinned(s, t, g), t, PinSub(s.grants[g].idx, s.handles[s.grants[g].idx].entry.Total(),
                                                   !s.handles[s.grants[g].idx].flags.inCache, FromRelease(force))))
    ensures var i := s.grants[g].idx;
      var h := s.handles[i];
      var s3 := Go(Unpinned(s, t, g), t, PinSub(i, h.entry.Total(), !h.flags.inCache, FromRelease(force)));
      Reaches(s3, t, Released(s, g, force))
  {
    var i := s.grants[g].idx;
    var dead := !s.handles[i].flags.inCache;
    PinsCorrected(s, t, g, dead, force);
    ReleaseFinishes(s, t, g, force);
    ReachesOn(Go(Unpinned(s, t, g), t, PinSub(i, s.handles[i].entry.Total(), dead, FromRelease(force))),
              Go(Corrected(s, t, g), t, AfterPins(i, dead, force)), Released(s, g, force), t);
  }

  /**
   Release gives the reference back. With the last one, a handle that is out of cache is freed; a forced release unbinds
   the handle's key otherwise.
   */
  lemma ReleaseReleases(s: State, t: Tid, g: nat, force: bool)
    requires Ready(s, t) && g in s.grants
    ensures s.grants[g].idx < |s.handles| && s.handles[s.grants[g].idx].flags.refs > 0
    ensures Reaches(Step(s, t, Release(g, force)), t, Released(s, g, force))
  {
    GrantedIsHeld(s, g);
    var i := s.grants[g].idx;
    var h := s.handles[i];
    var s1, s2 := Step(s, t, Release(g, force)), Go(Marked(s, t, g), t, Drop(i, FromRelease(force)));
    ReleaseMarks(s, t, g, force);
    ReleaseDrops(s, t, g, force);
    if h.flags.refs == 1 {
      var s3 := Go(Unpinned(s, t, g), t, PinSub(i, h.entry.Total(), !h.flags.inCache, FromRelease(force)));
      ReleaseAt(s, t, g, force);
      ReachesOn(s2, s3, Released(s, g, force), t);
    } else {
      var s3 := Go(Unpinned(s, t, g), t, AfterUnref(i, FromRelease(force)));
      assert Unpinned(s, t, g) == Returned(s, g);
      ReleaseEnds(s, t, g, force);
      ReachesOn(s2, s3, Released(s, g, force), t);
    }
    ReachesOn(s1, s2, Released(s, g, force), t);
  }

  // ---- EraseUnRefEntries

  /** The first `k` handles are taken out of the cache. */
  function Cleared(s: State, k: nat): State
    requires k <= |s.handles|
    ensures |Cleared(s, k).handles| == |s.handles| && Cleared(s, k).threads == s.threads
    ensures Cleared(s, k).handles[k..] == s.handles[k..]
  {
    if k == 0 then s
    else
      var p := Cleared(s, k - 1);
      if p.handles[k - 1].flags.inCache then TakenOut(p, k - 1) else p
  }

  /** Each is what taking it out by itself makes of it, and its key does not matter. */
  lemma {:induction false} ClearedAt(s: State, k: nat, i: nat)
    requires i < k <= |s.handles|
    ensures Cleared(s, k).handles[i] ==
      if s.handles[i].flags.inCache then TakenOut(s, i).handles[i] else s.handles[i]
    ensures !Cleared(s, k).handles[i].flags.inCache && Cleared(s, k).table == s.table
    decreases k
  {
    var p := Cleared(s, k - 1);
    assert p.handles[k - 1..][0] == s.handles[k - 1..][0];
    if i < k - 1 { ClearedAt(s, k - 1, i); } else { ClearedTable(s, k - 1); }
  }

  lemma {:induction false} ClearedTable(s: State, k: nat)
    requires k <= |s.handles|
    ensures Cleared(s, k).table == s.table
    decreases k
  {
    if k > 0 { ClearedTable(s, k - 1); }
  }

  lemma ClearsNext(s: State, t: Tid, k: nat)
    requires t < |s.threads| && k < |s.handles| && Sound(Go(s, t, ClearLoop(k)))
    ensures var s1 := Go(s, t, Unset(k, ThenClear(k + 1))); Reaches(Go(s, t, ClearLoop(k)), t, s1) && Sound(s1)
  {
    Next(Go(s, t, ClearLoop(k)), t, Go(s, t, Unset(k, ThenClear(k + 1))));
  }

  lemma ClearsOne(s: State, t: Tid, k: nat)
    requires t < |s.threads| && k < |s.handles| && Sound(Go(s, t, ClearLoop(k)))
    ensures var s' := Go(if s.handles[k].flags.inCache then TakenOut(s, k) else s, t, ClearLoop(k + 1));
      Reaches(Go(s, t, ClearLoop(k)), t, s') && Sound(s')
  {
    var s1 := Go(s, t, Unset(k, ThenClear(k + 1)));
    var s' := Go(if s.handles[k].flags.inCache then TakenOut(s, k) else s, t, ClearLoop(k + 1));
    ClearsNext(s, t, k);
    if s.handles[k].flags.inCache {
      TakesOut(s, t, k, ThenClear(k + 1));
    } else {
      assert Put(s1, k, Uncached(s.handles[k], t)) == s1;
      Next(s1, t, s');
    }
    ReachesOn(Go(s, t, ClearLoop(k)), s1, s', t);
  }

  lemma {:induction false} ClearsTo(s: State, t: Tid, k: nat)
    requires t < |s.threads| && k <= |s.handles| && Sound(Go(s, t, ClearLoop(0)))
    ensures var s' := Go(Cleared(s, k), t, ClearLoop(k)); Reaches(Go(s, t, ClearLoop(0)), t, s') && Sound(s')
    decreases k
  {
    if k == 0 {
      assert Iterate(Action(t), Go(s, t, ClearLoop(0)), 0) == Go(s, t, ClearLoop(0));
    } else {
      ClearsTo(s, t, k - 1);
      ClearsOne(Cleared(s, k - 1), t, k - 1);
      ReachesOn(Go(s, t, ClearLoop(0)), Go(Cleared(s, k - 1), t, ClearLoop(k - 1)),
                Go(Cleared(s, k), t, ClearLoop(k)), t);
    }
  }

  lemma ClearLocks(s: State, t: Tid)
    requires Ready(s, t)
    ensures var s1 := Go(s.(mutex := Some(t), table := map[]), t, ClearLoop(0));
      Reaches(Step(s, t, EraseUnRefEntries), t, s1) && Sound(s1)
  {
    var s0 := Go(s, t, Lock(ClearJob));
    assert Step(s, t, EraseUnRefEntries) == s0;
    InvStep(s, t, EraseUnRefEntries);
    SoundIs(s0);
    Next(s0, t, Go(s.(mutex := Some(t), table := map[]), t, ClearLoop(0)));
  }

  lemma ClearEnds(s: State, t: Tid)
    requires t < |s.threads| && s.mutex == Some(t) && Sound(Go(s, t, ClearLoop(|s.handles|)))
    ensures Reaches(Go(s, t, ClearLoop(|s.handles|)), t, Go(s.(mutex := None), t, Idle))
  {
    var s8, s9 := Go(s, t, ClearLoop(|s.handles|)), Go(s, t, Unlock);
    Next(s8, t, s9);
    assert s.(mutex := Some(t)) == s;
    Unlocks(s, t);
    ReachesOn(s8, s9, Go(s.(mutex := None), t, Idle), t);
  }

  lemma {:induction false} ClearedMutex(s: State, k: nat)
    requires k <= |s.handles|
    ensures Cleared(s, k).mutex == s.mutex
    decreases k
  {
    if k > 0 { ClearedMutex(s, k - 1); }
  }

  /** EraseUnRefEntries unbinds every key and takes every handle out of the cache. */
  lemma ClearClears(s: State, t: Tid)
    requires Ready(s, t)
    ensures var v := s.(mutex := Some(t), table := map[]);
      Reaches(Step(s, t, EraseUnRefEntries), t, Go(Cleared(v, |s.handles|).(mutex := None), t, Idle))
  {
    var v := s.(mutex := Some(t), table := map[]);
    var c := Cleared(v, |s.handles|);
    var s0, s1, s8 := Step(s, t, EraseUnRefEntries), Go(v, t, ClearLoop(0)), Go(c, t, ClearLoop(|s.handles|));
    ClearLocks(s, t);
    ClearsTo(v, t, |s.handles|);
    ClearedMutex(v, |s.handles|);
    ClearEnds(c, t);
    ReachesOn(s0, s1, s8, t);
    ReachesOn(s0, s8, Go(c.(mutex := None), t, Idle), t);
  }
}
