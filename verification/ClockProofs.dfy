/** Each action keeps the shape invariant: actions outside the mutex. */
module ClockProofs {
  import opened Basics
  import opened ClockModel
  import opened ClockInvariant
  import opened ClockFrames

  /** The counters and the strict flag are outside the shape invariant. */
  lemma ShapeCounters(s: State, pinned: int, drift: int, strict: bool)
    requires Shape(s)
    ensures Shape(s.(pinned := pinned, drift := drift, strict := strict))
  {
    var s' := s.(pinned := pinned, drift := drift, strict := strict);
    forall i | 0 <= i < |s'.handles| ensures HandleOk(s', i) {
      AtHandle(s, i);
      forall h | h in s'.handles[i].holders ensures HolderOk(s', i, h) { assert HolderOk(s, i, h); }
    }
    forall t | 0 <= t < |s'.threads| ensures ThreadOk(s', t) && PcOk(s', t) { AtThread(s, t); }
    forall g | g in s'.grants ensures GrantOk(s', g) { AtGrant(s, g); }
    AtRest(s);
    FromClauses(s');
  }

  /** A thread outside the mutex moves and changes nothing else. */
  lemma ShapeMove(s: State, t: Tid, pc': Pc)
    requires Shape(s) && t < |s.threads|
    requires var c, c' := s.threads[t].claims, ClaimsOf(pc');
      c.ref == c'.ref && c.dying == c'.dying && c.filling == c'.filling
    requires !s.threads[t].claims.inside
    requires ThreadOk(Go(s, t, pc'), t) && PcOk(Go(s, t, pc'), t)
    ensures Shape(Go(s, t, pc'))
  {
    var s' := Go(s, t, pc');
    AtThread(s, t);
    KeepAll(s, s', t, |s.handles|);
    forall g | g in s'.grants ensures GrantOk(s', g) { AtGrant(s, g); }
    AtRest(s);
    FromClauses(s');
  }

  /** An action outside the mutex on the flags and the holders of one live handle. */
  lemma ShapeFlags(s: State, s': State, t: Tid, i: nat, h': Handle, pc': Pc, grants: map<nat, Grant>, next: nat)
    requires Shape(s) && t < |s.threads| && i < |s.handles|
    requires s' == Go(Put(s, i, h').(grants := grants, nextGrant := next), t, pc')
    requires !s.threads[t].claims.inside && !ClaimsOf(pc').inside
    requires ClaimsOnlyAt(s.threads[t].claims, ClaimsOf(pc'), i)
    requires h'.entry == s.handles[i].entry && h'.occupancy == s.handles[i].occupancy
    requires h'.flags.inCache == s.handles[i].flags.inCache
    requires s.handles[i].own.Live? && !h'.own.Free?
    requires forall u :: u != t && Op(u) in s.handles[i].holders ==> Op(u) in h'.holders
    requires forall g :: g in s.grants ==> (g in grants && grants[g] == s.grants[g]) || s.grants[g].idx == i
    requires HandleOk(s', i) && ThreadOk(s', t) && PcOk(s', t)
    requires forall g :: g in grants ==> GrantOk(s', g)
    ensures Shape(s')
  {
    AtThread(s, t);
    KeepAll(s, s', t, i);
    AtRest(s);
    KeepBin(s.handles, i, h', s.recycle);
    KeepHistory(s.handles, i, h', s.recycled);
    KeepTable(s.handles, i, h', s.table, Inside(s).debt);
    FromClauses(s');
  }

  lemma NotHolding(s: State, t: Tid, i: nat)
    requires Shape(s) && t < |s.threads| && i < |s.handles| && s.threads[t].claims.ref != Some(i)
    ensures Op(t) !in s.handles[i].holders
  {
    AtHandle(s, i);
    assert Op(t) in s.handles[i].holders ==> HolderOk(s, i, Op(t));
  }

  /** A held handle is neither in the bin nor claimed by a thread. */
  lemma HeldIsLive(s: State, i: nat, x: Holder)
    requires Shape(s) && i < |s.handles| && x in s.handles[i].holders
    ensures s.handles[i].own.Live? && s.handles[i].flags.refs > 0
  {
    AtHandle(s, i);
  }

  /** Replacing one holder of handle `i` by another keeps the count. */
  lemma Swapped(s: State, i: nat, x: Holder, y: Holder)
    requires Shape(s) && i < |s.handles| && x in s.handles[i].holders && y !in s.handles[i].holders
    ensures s.handles[i].flags.refs == |s.handles[i].holders - {x} + {y}|
  {
    AtHandle(s, i);
  }

  /** Every reference to handle `i` that is left or added has its holder. */
  lemma HoldersOk(s: State, s': State, t: Tid, i: nat)
    requires Shape(s) && t < |s.threads| == |s'.threads| && i < |s.handles| == |s'.handles|
    requires s'.threads == s.threads[t := s'.threads[t]]
    requires Op(t) in s'.handles[i].holders ==> s'.threads[t].claims.ref == Some(i)
    requires forall x :: x in s'.handles[i].holders ==>
      x in s.handles[i].holders || x == Op(t) || (x.Ext? && HolderOk(s', i, x))
    requires forall g :: g in s.grants && g !in s'.grants ==> Ext(g) !in s'.handles[i].holders
    requires forall g :: g in s.grants && g in s'.grants ==> s'.grants[g] == s.grants[g]
    ensures forall x :: x in s'.handles[i].holders ==> HolderOk(s', i, x)
  {
    AtHandle(s, i);
    forall x | x in s'.handles[i].holders ensures HolderOk(s', i, x) {
      if x in s.handles[i].holders && x != Op(t) { assert HolderOk(s, i, x); }
    }
  }

  lemma GainHandle(s: State, t: Tid, i: nat, pc': Pc)
    requires Shape(s) && t < |s.threads| && s.threads[t].pc.RefCas? && i < |s.handles| && s.handles[i].flags.inCache
    requires ClaimsOf(pc').ref == Some(i)
    ensures HandleOk(Go(Put(s, i, Gained(s.handles[i], t)), t, pc'), i)
  {
    AtThread(s, t); AtHandle(s, i);
    NotHolding(s, t, i);
    HoldersOk(s, Go(Put(s, i, Gained(s.handles[i], t)), t, pc'), t, i);
  }

  lemma RefThread(s: State, t: Tid, i: nat, want: Want, pin: bool)
    requires t < |s.threads| && i < |s.handles| && s.mutex != Some(t) && Op(t) in s.handles[i].holders
    requires s.threads[t].pc == if pin then PinAdd(i, s.handles[i].entry.Total(), want) else Check(i, want)
    requires s.threads[t].claims == ClaimsOf(s.threads[t].pc)
    ensures ThreadOk(s, t) && PcOk(s, t)
  {
    if pin {
      assert s.threads[t].pc == PinAdd(i, s.handles[i].entry.Total(), want);
    } else {
      assert s.threads[t].pc == Check(i, want);
    }
  }

  lemma ShapeGain(s: State, t: Tid, i: nat, seen: Flags, want: Want)
    requires Shape(s) && t < |s.threads| && s.threads[t].pc == RefCas(i, seen, want) && i < |s.handles|
    requires s.handles[i].flags == seen
    ensures Shape(DoRefCas(s, t, i, seen, want))
  {
    var s' := DoRefCas(s, t, i, seen, want);
    var pc' := s'.threads[t].pc;
    AtThread(s, t); AtHandle(s, i);
    RefThread(s', t, i, want, seen.refs == 0);
    GainHandle(s, t, i, pc');
    forall g | g in s'.grants ensures GrantOk(s', g) { AtGrant(s, g); }
    ShapeFlags(s, s', t, i, s'.handles[i], pc', s.grants, s.nextGrant);
  }

  lemma FreshGrant(s: State, i: nat)
    requires Shape(s) && i < |s.handles|
    ensures s.nextGrant !in s.grants && Ext(s.nextGrant) !in s.handles[i].holders
  {
    AtHandle(s, i);
    assert s.nextGrant !in s.grants by {
      if s.nextGrant in s.grants { AtGrant(s, s.nextGrant); }
    }
    assert Ext(s.nextGrant) in s.handles[i].holders ==> HolderOk(s, i, Ext(s.nextGrant));
  }

  lemma GiveHandle(s: State, t: Tid, i: nat, want: Want)
    requires Shape(s) && t < |s.threads| && i < |s.handles| && s.threads[t].claims.ref == Some(i)
    ensures HandleOk(Give(s, t, i, want), i)
  {
    AtThread(s, t); AtHandle(s, i);
    FreshGrant(s, i);
    Swapped(s, i, Op(t), Ext(s.nextGrant));
    HoldersOk(s, Give(s, t, i, want), t, i);
  }

  lemma GiveGrants(s: State, t: Tid, i: nat, want: Want)
    requires Shape(s) && t < |s.threads| && i < |s.handles|
    requires want.WantKey? ==> s.handles[i].entry.Id() == want.id
    ensures forall g :: g in Give(s, t, i, want).grants ==> GrantOk(Give(s, t, i, want), g)
  {
    var s' := Give(s, t, i, want);
    FreshGrant(s, i);
    forall g | g in s'.grants ensures GrantOk(s', g) {
      if g != s.nextGrant { AtGrant(s, g); }
    }
  }

  lemma ShapeGive(s: State, t: Tid, i: nat, want: Want)
    requires Shape(s) && t < |s.threads| && s.threads[t].pc.Check? && s.threads[t].pc.i == i < |s.handles|
    requires want.WantKey? ==> s.handles[i].entry.Id() == want.id
    ensures Shape(Give(s, t, i, want))
  {
    var s' := Give(s, t, i, want);
    AtThread(s, t);
    HeldIsLive(s, i, Op(t));
    GiveHandle(s, t, i, want);
    GiveGrants(s, t, i, want);
    FreshGrant(s, i);
    ShapeFlags(s, s', t, i, s'.handles[i], Idle, s'.grants, s'.nextGrant);
  }

  lemma ReleaseHandle(s: State, t: Tid, g: nat, force: bool)
    requires Shape(s) && t < |s.threads| && s.threads[t].pc.Idle? && g in s.grants && s.grants[g].idx < |s.handles|
    ensures HandleOk(DoRelease(s, t, g, force), s.grants[g].idx)
  {
    var i := s.grants[g].idx;
    AtThread(s, t); AtHandle(s, i); AtGrant(s, g);
    NotHolding(s, t, i);
    Swapped(s, i, Ext(g), Op(t));
    HoldersOk(s, DoRelease(s, t, g, force), t, i);
  }

  lemma ShapeRelease(s: State, t: Tid, g: nat, force: bool)
    requires Shape(s) && t < |s.threads| && s.threads[t].pc.Idle? && g in s.grants && s.grants[g].idx < |s.handles|
    ensures Shape(DoRelease(s, t, g, force))
  {
    var s', i := DoRelease(s, t, g, force), s.grants[g].idx;
    AtThread(s, t); AtGrant(s, g);
    HeldIsLive(s, i, Ext(g));
    ReleaseHandle(s, t, g, force);
    forall k | k in s'.grants ensures GrantOk(s', k) { AtGrant(s, k); }
    ShapeFlags(s, s', t, i, s'.handles[i], SetUsage(i, force), s'.grants, s'.nextGrant);
  }

  lemma ShapeSetUsage(s: State, t: Tid, i: nat, force: bool)
    requires Shape(s) && t < |s.threads| && s.threads[t].pc == SetUsage(i, force) && i < |s.handles|
    ensures Shape(DoSetUsage(s, t, i, force))
  {
    var s' := DoSetUsage(s, t, i, force);
    AtThread(s, t); AtHandle(s, i);
    HeldIsLive(s, i, Op(t));
    HoldersOk(s, s', t, i);
    forall g | g in s'.grants ensures GrantOk(s', g) { AtGrant(s, g); }
    ShapeFlags(s, s', t, i, s'.handles[i], s'.threads[t].pc, s'.grants, s'.nextGrant);
  }

  lemma DropHandle(s: State, t: Tid, i: nat, caller: Caller)
    requires Shape(s) && t < |s.threads| && s.threads[t].pc == Drop(i, caller) && i < |s.handles|
    requires s.handles[i].flags.refs > 0
    ensures HandleOk(DoDrop(s, t, i, caller), i)
  {
    DropCount(s, t, i, caller);
    DropOwner(s, t, i, caller);
    HoldersOk(s, DoDrop(s, t, i, caller), t, i);
  }

  lemma DropCount(s: State, t: Tid, i: nat, caller: Caller)
    requires Shape(s) && t < |s.threads| && s.threads[t].pc == Drop(i, caller) && i < |s.handles|
    requires s.handles[i].flags.refs > 0
    ensures var h' := DoDrop(s, t, i, caller).handles[i];
      h'.flags.refs == |h'.holders| && h'.holders == s.handles[i].holders - {Op(t)}
  {
    AtThread(s, t);
    AtHandle(s, i);
    assert |s.handles[i].holders - {Op(t)}| == s.handles[i].flags.refs - 1;
  }

  lemma DropOwner(s: State, t: Tid, i: nat, caller: Caller)
    requires Shape(s) && t < |s.threads| && s.threads[t].pc == Drop(i, caller) && i < |s.handles|
    requires s.handles[i].flags.refs > 0
    ensures OwnOk(DoDrop(s, t, i, caller), i)
  {
    AtThread(s, t);
    HeldIsLive(s, i, Op(t));
  }

  lemma ShapeDrop(s: State, t: Tid, i: nat, caller: Caller)
    requires Shape(s) && t < |s.threads| && s.threads[t].pc == Drop(i, caller) && i < |s.handles|
    requires s.handles[i].flags.refs > 0
    ensures Shape(DoDrop(s, t, i, caller))
  {
    var s' := DoDrop(s, t, i, caller);
    AtThread(s, t);
    HeldIsLive(s, i, Op(t));
    DropHandle(s, t, i, caller);
    forall g | g in s'.grants ensures GrantOk(s', g) { AtGrant(s, g); }
    ShapeFlags(s, s', t, i, s'.handles[i], s'.threads[t].pc, s.grants, s.nextGrant);
  }

  lemma ShapePinAdd(s: State, t: Tid, i: nat, charge: nat, want: Want)
    requires Shape(s) && t < |s.threads| && s.threads[t].pc == PinAdd(i, charge, want) && i < |s.handles|
    ensures Shape(DoPinAdd(s, t, i, want))
  {
    AtThread(s, t);
    var s1 := s.(pinned := s.pinned + s.handles[i].entry.Total());
    ShapeCounters(s, s1.pinned, s.drift, s.strict);
    ShapeMove(s1, t, Check(i, want));
  }

  lemma ShapePinSub(s: State, t: Tid, i: nat, charge: nat, dead: bool, caller: Caller)
    requires Shape(s) && t < |s.threads| && s.threads[t].pc == PinSub(i, charge, dead, caller) && i < |s.handles|
    ensures Shape(DoPinSub(s, t, i, charge, dead, caller))
  {
    AtThread(s, t);
    var read := s.handles[i].entry.Total();
    var s1 := s.(pinned := s.pinned - read, drift := s.drift + charge - read);
    ShapeCounters(s, s1.pinned, s1.drift, s.strict);
    ShapeMove(s1, t, if dead then Lock(RecycleJob(i)) else AfterUnref(i, caller));
  }

  lemma ShapeCheck(s: State, t: Tid, i: nat, want: Want)
    requires Shape(s) && t < |s.threads| && s.threads[t].pc == Check(i, want) && i < |s.handles|
    ensures Shape(DoCheck(s, t, i, want))
  {
    AtThread(s, t);
    if want.WantKey? && s.handles[i].entry.Id() != want.id {
      HeldIsLive(s, i, Op(t));
      ShapeMove(s, t, Drop(i, FromLookup));
    } else {
      ShapeGive(s, t, i, want);
    }
  }

  lemma ShapeRefLoad(s: State, t: Tid, i: nat, want: Want)
    requires Shape(s) && t < |s.threads| && s.threads[t].pc == RefLoad(i, want) && i < |s.handles|
    ensures Shape(DoRefLoad(s, t, i, want))
  {
    AtThread(s, t);
    var f := s.handles[i].flags;
    ShapeMove(s, t, if f.inCache then RefCas(i, f, want) else Idle);
  }

  lemma ShapeRefCas(s: State, t: Tid, i: nat, seen: Flags, want: Want)
    requires Shape(s) && t < |s.threads| && s.threads[t].pc == RefCas(i, seen, want) && i < |s.handles|
    ensures Shape(DoRefCas(s, t, i, seen, want))
  {
    AtThread(s, t);
    var h := s.handles[i];
    if h.flags == seen {
      ShapeGain(s, t, i, seen, want);
    } else {
      ShapeMove(s, t, if h.flags.inCache then RefCas(i, h.flags, want) else Idle);
    }
  }

  lemma ShapeReadHash(s: State, t: Tid, i: nat)
    requires Shape(s) && t < |s.threads| && s.threads[t].pc == ReadHash(i) && i < |s.handles|
    ensures Shape(DoReadHash(s, t, i))
  {
    AtThread(s, t);
    ShapeMove(s, t, Lock(ForceEraseJob(i, s.handles[i].entry.hash)));
  }

  lemma ShapeCall(s: State, t: Tid, pc': Pc)
    requires Shape(s) && t < |s.threads| && s.threads[t].pc.Idle?
    requires pc'.RefLoad? || (pc'.Lock? && !pc'.job.RecycleJob?)
    requires ClaimsOf(pc').reach <= |s.handles|
    ensures Shape(Go(s, t, pc'))
  {
    AtThread(s, t);
    ShapeMove(s, t, pc');
  }

  lemma ShapeStart(s: State, t: Tid, call: Call)
    requires Shape(s) && t < |s.threads| && s.threads[t].pc.Idle? && Callable(s, call)
    ensures Shape(Start(s, t, call))
  {
    AtRest(s);
    match call
    case Lookup(id) => if id in s.table { ShapeCall(s, t, RefLoad(s.table[id], WantKey(id))); }
    case Ref(i) => ShapeCall(s, t, RefLoad(i, WantRef));
    case Release(g, force) => ShapeRelease(s, t, g, force);
    case Insert(e, hold) => ShapeCall(s, t, Lock(InsertJob(e, hold)));
    case Erase(id) => ShapeCall(s, t, Lock(EraseJob(id)));
    case EraseUnRefEntries => ShapeCall(s, t, Lock(ClearJob));
    case SetCapacity(c) => ShapeCall(s, t, Lock(CapacityJob(c)));
    case SetStrictCapacityLimit(b) => ShapeCounters(s, s.pinned, s.drift, b);
  }
}
