/** Each action keeps the shape invariant: actions inside the mutex. */
module ClockProofsInside {
  import opened Basics
  import opened ClockModel
  import opened ClockInvariant
  import opened ClockFrames
  import opened ClockProofs

  /** The thread inside the mutex, or entering or leaving it, changes no handle. */
  lemma ShapeScalar(s: State, s': State, t: Tid)
    requires Shape(s) && t < |s.threads| == |s'.threads|
    requires s'.handles == s.handles && s'.threads == s.threads[t := s'.threads[t]] && s'.grants == s.grants
    requires s'.nextGrant == s.nextGrant
    requires s'.recycle == s.recycle && s'.recycled == s.recycled
    requires s'.head == s.head || s'.head < |s.handles|
    requires s'.usage == s.usage || |s.handles| > 0
    requires (s.mutex == None || s.mutex == Some(t)) && (s'.mutex == None || s'.mutex == Some(t))
    requires var c, c' := s.threads[t].claims, s'.threads[t].claims;
      c.ref == c'.ref && c.dying == c'.dying && c.filling == c'.filling
    requires ThreadOk(s', t) && PcOk(s', t)
    requires TableInv(s'.handles, s'.table, if s'.mutex == None then NoDebt else s'.threads[t].claims.debt)
    ensures Shape(s')
  {
    KeepAll(s, s', t, |s.handles|);
    AtRest(s);
    forall g | g in s'.grants ensures GrantOk(s', g) { AtGrant(s, g); }
    FromClauses(s');
  }

  /** The thread inside the mutex changes one handle that no other thread is to recycle or fill. */
  lemma ShapeHandle(s: State, s': State, t: Tid, i: nat)
    requires Shape(s) && t < |s.threads| == |s'.threads| && i < |s.handles| == |s'.handles|
    requires s.mutex == Some(t) == s'.mutex
    requires s'.handles == s.handles[i := s'.handles[i]] && s'.threads == s.threads[t := s'.threads[t]]
    requires s'.grants == s.grants && s'.nextGrant == s.nextGrant
    requires ClaimsOnlyAt(s.threads[t].claims, s'.threads[t].claims, i)
    requires s'.handles[i].own == s.handles[i].own || forall u :: u != t ==>
      s.handles[i].own != Dying(u) && s.handles[i].own != Filling(u)
    requires s'.handles[i].holders == s.handles[i].holders || s.handles[i].holders == {}
    requires s.handles[i].holders != {} ==>
      s'.handles[i].entry == s.handles[i].entry && s'.handles[i].occupancy == s.handles[i].occupancy
    requires HandleOk(s', i) && ThreadOk(s', t) && PcOk(s', t)
    requires BinOk(s') && HistoryInv(s'.handles, s'.recycled)
    requires TableInv(s'.handles, s'.table, s'.threads[t].claims.debt)
    ensures Shape(s')
  {
    KeepAll(s, s', t, i);
    forall g | g in s'.grants ensures GrantOk(s', g) { AtGrant(s, g); }
    FromClauses(s');
  }

  /** Everything a thread inside the mutex may rely on. */
  lemma InsideIs(s: State, t: Tid)
    requires Shape(s) && t < |s.threads| && ClaimsOf(s.threads[t].pc).inside
    ensures s.mutex == Some(t) && ThreadOk(s, t) && PcOk(s, t) && BinOk(s) && HistoryInv(s.handles, s.recycled)
    ensures TableInv(s.handles, s.table, ClaimsOf(s.threads[t].pc).debt)
  {
    AtThread(s, t);
    AtRest(s);
  }

  /** The thread stays inside the mutex, before and after without a claim on any handle or on the table. */
  lemma ShapePlain(s: State, t: Tid, head: nat, pc': Pc)
    requires Shape(s) && t < |s.threads| && s.threads[t].claims.(reach := 0) == Inner
    requires ClaimsOf(pc').(reach := 0) == Inner && ClaimsOf(pc').reach <= |s.handles|
    requires !pc'.RefCas? && !pc'.PinAdd? && !pc'.Unset? && !pc'.Recycle?
    requires head == s.head || head < |s.handles|
    ensures Shape(Go(s.(head := head), t, pc'))
  {
    AtThread(s, t);
    AtRest(s);
    ShapeScalar(s, Go(s.(head := head), t, pc'), t);
  }

  /** Entering the mutex with no claim on any handle. */
  lemma ShapeEnter(s: State, t: Tid, capacity: nat, pc': Pc)
    requires Shape(s) && t < |s.threads| && s.threads[t].claims.(reach := 0) == Nothing && s.mutex == None
    requires pc'.EvictStart? || pc'.EraseFind?
    ensures Shape(Go(s.(mutex := Some(t), capacity := capacity), t, pc'))
  {
    AtThread(s, t);
    AtRest(s);
    ShapeScalar(s, Go(s.(mutex := Some(t), capacity := capacity), t, pc'), t);
  }

  lemma ShapeEnterClear(s: State, t: Tid)
    requires Shape(s) && t < |s.threads| && s.threads[t].pc == Lock(ClearJob) && s.mutex == None
    ensures Shape(Go(s.(mutex := Some(t), table := map[]), t, ClearLoop(0)))
  {
    AtThread(s, t);
    ShapeScalar(s, Go(s.(mutex := Some(t), table := map[]), t, ClearLoop(0)), t);
  }

  lemma ShapeEnterRecycle(s: State, t: Tid, i: nat)
    requires Shape(s) && t < |s.threads| && s.threads[t].pc == Lock(RecycleJob(i)) && s.mutex == None
    ensures Shape(Go(s.(mutex := Some(t)), t, Recycle(i, ThenUnlock)))
  {
    AtThread(s, t);
    AtRest(s);
    ShapeScalar(s, Go(s.(mutex := Some(t)), t, Recycle(i, ThenUnlock)), t);
  }

  lemma ShapeLock(s: State, t: Tid, job: Job)
    requires Shape(s) && t < |s.threads| && s.threads[t].pc == Lock(job) && s.mutex == None
    requires ClaimsOf(Lock(job)).reach <= |s.handles|
    ensures Shape(DoLock(s, t, job))
  {
    AtThread(s, t);
    match job
    case InsertJob(e, hold) => ShapeEnter(s, t, s.capacity, EvictStart(ForInsert(e, hold)));
    case EraseJob(id) => ShapeEnter(s, t, s.capacity, EraseFind(id));
    case ForceEraseJob(i, hash) => ShapeEnter(s, t, s.capacity, EraseFind(CacheKey(s.handles[i].entry.key, hash)));
    case ClearJob => ShapeEnterClear(s, t);
    case CapacityJob(c) => ShapeEnter(s, t, c, EvictStart(ForCapacity));
    case RecycleJob(i) => ShapeEnterRecycle(s, t, i);
  }

  lemma ShapeUnlock(s: State, t: Tid)
    requires Shape(s) && t < |s.threads|
    requires s.threads[t].pc == Unlock || (s.threads[t].pc.InsertDone? && !s.threads[t].pc.hold)
    ensures Shape(DoUnlock(s, t))
  {
    InsideIs(s, t);
    ShapeScalar(s, DoUnlock(s, t), t);
  }

  // ---- eviction

  lemma ShapeEvictStart(s: State, t: Tid, ev: Evictor)
    requires Shape(s) && t < |s.threads| && s.threads[t].pc == EvictStart(ev)
    ensures Shape(DoEvictStart(s, t, ev))
  {
    InsideIs(s, t);
    if s.usage == 0 {
      ShapePlain(s, t, s.head, Evicted(ev, ev.Charge() <= s.capacity));
    } else {
      ShapePlain(s, t, s.head, EvictTest(ev, s.head, false, s.usage));
    }
  }

  lemma ShapeEvictTest(s: State, t: Tid, ev: Evictor, at: nat, second: bool, usage: int)
    requires Shape(s) && t < |s.threads| && s.threads[t].pc == EvictTest(ev, at, second, usage)
    ensures Shape(DoEvictTest(s, t, ev, at, second, usage))
  {
    InsideIs(s, t);
    if usage + ev.Charge() > s.capacity {
      ShapePlain(s, t, s.head, EvictCas(ev, at, second, usage));
    } else {
      ShapePlain(s, t, at, Evicted(ev, true));
    }
  }

  /** A handle with its in-cache bit set is in use. */
  lemma CachedIsLive(s: State, i: nat)
    requires Shape(s) && i < |s.handles| && (s.handles[i].flags.inCache || s.handles[i].flags.refs > 0)
    ensures s.handles[i].own.Live?
  {
    AtHandle(s, i);
  }

  lemma TableEvicting(hs: seq<Handle>, at: nat, h: Handle, table: map<CacheKey, nat>)
    requires TableInv(hs, table, NoDebt) && at < |hs| && hs[at].flags.inCache
    requires h.entry == hs[at].entry && !h.flags.inCache
    ensures TableInv(hs[at := h], table, NoDebt.(one := Some(at), evicting := true))
  {
    var hs' := hs[at := h];
    assert forall j :: 0 <= j < |hs| ==> hs'[j].entry == hs[j].entry;
    assert forall j :: 0 <= j < |hs| ==> Mapped(hs', table, j) == Mapped(hs, table, j);
  }

  lemma ShapeEvictHit(s: State, t: Tid, ev: Evictor, at: nat, second: bool)
    requires Shape(s) && t < |s.threads| && s.threads[t].pc.EvictCas? && at < |s.handles|
    requires s.handles[at].flags == Flags(true, false, 0)
    ensures Shape(Go(Put(s, at, s.handles[at].(flags := Flags(false, false, 0), own := Dying(t))), t,
      EvictErase(ev, at, second)))
  {
    var h' := s.handles[at].(flags := Flags(false, false, 0), own := Dying(t));
    InsideIs(s, t);
    AtHandle(s, at);
    CachedIsLive(s, at);
    KeepBin(s.handles, at, h', s.recycle);
    KeepHistory(s.handles, at, h', s.recycled);
    TableEvicting(s.handles, at, h', s.table);
    ShapeHandle(s, Go(Put(s, at, h'), t, EvictErase(ev, at, second)), t, at);
  }

  lemma ShapeEvictCas(s: State, t: Tid, ev: Evictor, at: nat, second: bool, usage: int)
    requires Shape(s) && t < |s.threads| && s.threads[t].pc == EvictCas(ev, at, second, usage) && at < |s.handles|
    ensures Shape(DoEvictCas(s, t, ev, at, second, usage))
  {
    if s.handles[at].flags == Flags(true, false, 0) {
      ShapeEvictHit(s, t, ev, at, second);
    } else {
      InsideIs(s, t);
      ShapePlain(s, t, s.head, EvictClear(ev, at, second, usage));
    }
  }

  lemma ShapeEvictClear(s: State, t: Tid, ev: Evictor, at: nat, second: bool, usage: int)
    requires Shape(s) && t < |s.threads| && s.threads[t].pc == EvictClear(ev, at, second, usage) && at < |s.handles|
    ensures Shape(DoEvictClear(s, t, ev, at, second, usage))
  {
    var s' := DoEvictClear(s, t, ev, at, second, usage);
    var h' := s'.handles[at];
    InsideIs(s, t);
    AtHandle(s, at);
    KeepBin(s.handles, at, h', s.recycle);
    KeepHistory(s.handles, at, h', s.recycled);
    KeepTable(s.handles, at, h', s.table, NoDebt);
    forall x | x in h'.holders ensures HolderOk(s', at, x) { assert HolderOk(s, at, x); }
    ShapeHandle(s, s', t, at);
  }

  lemma TableErase(hs: seq<Handle>, table: map<CacheKey, nat>, i: nat)
    requires TableInv(hs, table, NoDebt.(one := Some(i), evicting := true)) && i < |hs| && !hs[i].flags.inCache
    ensures TableInv(hs, table - {hs[i].entry.Id()}, NoDebt)
  {
    var table' := table - {hs[i].entry.Id()};
    assert forall j :: 0 <= j < |hs| && j != i ==> Mapped(hs, table', j) == Mapped(hs, table, j);
  }

  /** The thread inside the mutex changes the table only, and goes on with the same claims on handles. */
  lemma ShapeUnbind(s: State, t: Tid, table: map<CacheKey, nat>, pc': Pc)
    requires Shape(s) && t < |s.threads| && ClaimsOf(s.threads[t].pc).inside
    requires var c, c' := ClaimsOf(s.threads[t].pc), ClaimsOf(pc');
      c.(debt := NoDebt) == c'.(debt := NoDebt) && TableInv(s.handles, table, c'.debt)
    requires pc'.Recycle? && pc'.after.ThenEvict? && pc'.after.at == pc'.i
    ensures Shape(Go(s.(table := table), t, pc'))
  {
    AtThread(s, t);
    ShapeScalar(s, Go(s.(table := table), t, pc'), t);
  }

  lemma ShapeEvictErase(s: State, t: Tid, ev: Evictor, at: nat, second: bool)
    requires Shape(s) && t < |s.threads| && s.threads[t].pc == EvictErase(ev, at, second) && at < |s.handles|
    ensures Shape(DoEvictErase(s, t, ev, at, second))
  {
    InsideIs(s, t);
    AtHandle(s, at);
    TableErase(s.handles, s.table, at);
    ShapeUnbind(s, t, s.table - {s.handles[at].entry.Id()}, Recycle(at, ThenEvict(ev, at, second)));
  }

  // ---- insertion

  lemma BinPop(hs: seq<Handle>, bin: seq<nat>, h: Handle)
    requires BinInv(hs, bin) && |bin| > 0 && bin[|bin| - 1] < |hs| && !h.own.Free?
    ensures BinInv(hs[bin[|bin| - 1] := h], bin[..|bin| - 1])
  {
    var n := bin[|bin| - 1];
    assert forall i :: 0 <= i < |hs| && i != n && i in bin ==> i in bin[..|bin| - 1];
  }

  lemma ShapeGrabOld(s: State, t: Tid, e: Entry, hold: bool)
    requires Shape(s) && t < |s.threads| && s.threads[t].pc.Evicted? && |s.recycle| > 0
    requires s.recycle[|s.recycle| - 1] < |s.handles|
    ensures Shape(DoGrab(s, t, e, hold))
  {
    var s', n := DoGrab(s, t, e, hold), s.recycle[|s.recycle| - 1];
    var h' := s'.handles[n];
    InsideIs(s, t);
    AtHandle(s, n);
    BinPop(s.handles, s.recycle, h');
    KeepTable(s.handles, n, h', s.table, NoDebt);
    HistoryReuse(s.handles, n, h', s.recycled);
    ShapeHandle(s, s', t, n);
  }

  lemma HistoryReuse(hs: seq<Handle>, i: nat, h: Handle, recycled: seq<(nat, nat)>)
    requires HistoryInv(hs, recycled) && i < |hs| && h.occupancy > hs[i].occupancy
    ensures HistoryInv(hs[i := h], recycled)
  {
    forall j | 0 <= j < |recycled|
      ensures var (k, o) := recycled[j];
        k < |hs| && (o < hs[i := h][k].occupancy || (o == hs[i := h][k].occupancy && hs[i := h][k].own.Free?))
    {
      var (k, o) := recycled[j];
      assert k < |hs| && (o < hs[k].occupancy || (o == hs[k].occupancy && hs[k].own.Free?));
    }
  }

  /** A longer list keeps what was said about the handles it had. */
  lemma GrabNewOthers(s: State, t: Tid, e: Entry, hold: bool, s': State)
    requires Shape(s) && t < |s.threads| && s.threads[t].pc.Evicted? && |s.recycle| == 0 && s' == DoGrab(s, t, e, hold)
    ensures forall j :: 0 <= j < |s.handles| ==> HandleOk(s', j)
    ensures forall u :: 0 <= u < |s.threads| && u != t ==> ThreadOk(s', u) && PcOk(s', u)
    ensures forall g :: g in s'.grants ==> GrantOk(s', g)
  {
    AtThread(s, t);
    forall j | 0 <= j < |s.handles| ensures HandleOk(s', j) {
      AtHandle(s, j);
      assert s'.handles[j] == s.handles[j];
      forall x | x in s.handles[j].holders ensures HolderOk(s', j, x) { assert HolderOk(s, j, x); }
    }
    forall u | 0 <= u < |s.threads| && u != t ensures ThreadOk(s', u) && PcOk(s', u) {
      AtThread(s, u);
      assert s'.threads[u] == s.threads[u];
    }
    forall g | g in s'.grants ensures GrantOk(s', g) { AtGrant(s, g); }
  }

  lemma TableGrow(hs: seq<Handle>, table: map<CacheKey, nat>, h: Handle)
    requires TableInv(hs, table, NoDebt) && !h.flags.inCache
    ensures TableInv(hs + [h], table, NoDebt)
  {
    assert forall j :: 0 <= j < |hs| ==> Mapped(hs + [h], table, j) == Mapped(hs, table, j);
    assert !Mapped(hs + [h], table, |hs|);
  }

  lemma HistoryGrow(hs: seq<Handle>, h: Handle, recycled: seq<(nat, nat)>)
    requires HistoryInv(hs, recycled)
    ensures HistoryInv(hs + [h], recycled)
  {
    forall j | 0 <= j < |recycled|
      ensures var (k, o) := recycled[j];
        k < |hs| && (o < (hs + [h])[k].occupancy || (o == (hs + [h])[k].occupancy && (hs + [h])[k].own.Free?))
    {
      var (k, o) := recycled[j];
      assert k < |hs| && (o < hs[k].occupancy || (o == hs[k].occupancy && hs[k].own.Free?));
    }
  }

  lemma ShapeGrabNew(s: State, t: Tid, e: Entry, hold: bool)
    requires Shape(s) && t < |s.threads| && s.threads[t].pc.Evicted? && |s.recycle| == 0
    ensures Shape(DoGrab(s, t, e, hold))
  {
    var s', n := DoGrab(s, t, e, hold), |s.handles|;
    InsideIs(s, t);
    GrabNewOthers(s, t, e, hold, s');
    TableGrow(s.handles, s.table, s'.handles[n]);
    HistoryGrow(s.handles, s'.handles[n], s.recycled);
    assert ThreadOk(s', t) && PcOk(s', t);
    assert HandleOk(s', n);
    FromClauses(s');
  }

  lemma ShapeEvicted(s: State, t: Tid, ev: Evictor, ok: bool)
    requires Shape(s) && t < |s.threads| && s.threads[t].pc == Evicted(ev, ok)
    requires |s.recycle| > 0 ==> s.recycle[|s.recycle| - 1] < |s.handles|
    ensures Shape(DoEvicted(s, t, ev, ok))
  {
    if ev.ForCapacity? || (!ok && (s.strict || !ev.hold)) {
      InsideIs(s, t);
      ShapePlain(s, t, s.head, Unlock);
    } else if |s.recycle| > 0 {
      ShapeGrabOld(s, t, ev.e, ev.hold);
    } else {
      ShapeGrabNew(s, t, ev.e, ev.hold);
    }
  }

  /** A handle that is not cached may be renamed: no binding names it. */
  lemma TableRename(hs: seq<Handle>, i: nat, h: Handle, table: map<CacheKey, nat>, d: Debt)
    requires TableInv(hs, table, d) && i < |hs| && !Mapped(hs, table, i) && !hs[i].flags.inCache && !h.flags.inCache
    requires !d.evicting && d.one != Some(i) && d.two == None && d.absent != Some(i)
    ensures TableInv(hs[i := h], table, d)
  {
    var hs' := hs[i := h];
    assert forall j :: 0 <= j < |hs| && j != i ==> Mapped(hs', table, j) == Mapped(hs, table, j);
    var id := h.entry.Id();
    assert id in table ==> hs[table[id]].entry.Id() == id;
  }

  lemma ShapeFill(s: State, t: Tid, n: nat, e: Entry, hold: bool, keyed: bool)
    requires Shape(s) && t < |s.threads| && s.threads[t].pc == Fill(n, e, hold, keyed) && n < |s.handles|
    ensures Shape(DoFill(s, t, n, e, hold, keyed))
  {
    if keyed { ShapeWrite(s, t, n, e, Publish(n, hold)); }
    else { ShapeWrite(s, t, n, e.(charge := s.handles[n].entry.charge), Fill(n, e, hold, true)); }
  }

  lemma ShapeWrite(s: State, t: Tid, n: nat, e: Entry, next: Pc)
    requires Shape(s) && t < |s.threads| && s.threads[t].pc.Fill? && s.threads[t].pc.n == n < |s.handles|
    requires (next.Fill? && next.n == n) || (next.Publish? && next.n == n)
    ensures Shape(Go(Put(s, n, s.handles[n].(entry := e)), t, next))
  {
    var s' := Go(Put(s, n, s.handles[n].(entry := e)), t, next);
    var h' := s'.handles[n];
    InsideIs(s, t);
    AtHandle(s, n);
    KeepBin(s.handles, n, h', s.recycle);
    KeepHistory(s.handles, n, h', s.recycled);
    TableRename(s.handles, n, h', s.table, NoDebt);
    ShapeHandle(s, s', t, n);
  }

  lemma TablePublish(hs: seq<Handle>, n: nat, h: Handle, table: map<CacheKey, nat>)
    requires TableInv(hs, table, NoDebt) && n < |hs| && !hs[n].flags.inCache && h.entry == hs[n].entry
    ensures TableInv(hs[n := h], table, NoDebt.(one := Some(n)))
  {
    assert forall j :: 0 <= j < |hs| ==> Mapped(hs[n := h], table, j) == Mapped(hs, table, j);
  }

  lemma ShapePublish(s: State, t: Tid, n: nat, hold: bool)
    requires Shape(s) && t < |s.threads| && s.threads[t].pc == Publish(n, hold) && n < |s.handles|
    ensures Shape(DoPublish(s, t, n, hold))
  {
    var s' := DoPublish(s, t, n, hold);
    var h' := s'.handles[n];
    InsideIs(s, t);
    AtHandle(s, n);
    KeepBin(s.handles, n, h', s.recycle);
    KeepHistory(s.handles, n, h', s.recycled);
    TablePublish(s.handles, n, h', s.table);
    ShapeHandle(s, s', t, n);
  }

  /** The binding of the key that handle `n` carries is taken out, and with it the handle it named. */
  lemma TableReplace(hs: seq<Handle>, table: map<CacheKey, nat>, n: nat, id: CacheKey)
    requires TableInv(hs, table, NoDebt.(one := Some(n))) && n < |hs| && id == hs[n].entry.Id() && id in table
    ensures table[id] < |hs| && table[id] != n
    ensures TableInv(hs, table - {id}, Debt(Some(n), Some(table[id]), None, Some(n), false))
  {
    assert forall j :: 0 <= j < |hs| && j != table[id] ==> Mapped(hs, table - {id}, j) == Mapped(hs, table, j);
  }

  lemma ShapeFoundOld(s: State, t: Tid, n: nat, hold: bool, id: CacheKey)
    requires Shape(s) && t < |s.threads| && s.threads[t].pc == FindOld(n, hold) && n < |s.handles|
    requires s.handles[n].entry.Id() == id && id in s.table
    ensures Shape(Go(s.(table := s.table - {id}), t, Unset(s.table[id], ThenInsert(n, hold))))
  {
    FoundOldTable(s, t, n, hold, id);
    var s' := Go(s.(table := s.table - {id}), t, Unset(s.table[id], ThenInsert(n, hold)));
    assert s'.threads[t].claims.debt == Debt(Some(n), Some(s.table[id]), None, Some(n), false);
    InsideIs(s, t);
    ShapeScalar(s, s', t);
  }

  lemma FoundOldTable(s: State, t: Tid, n: nat, hold: bool, id: CacheKey)
    requires Shape(s) && t < |s.threads| && s.threads[t].pc == FindOld(n, hold) && n < |s.handles|
    requires s.handles[n].entry.Id() == id && id in s.table
    ensures TableInv(s.handles, s.table - {id}, Debt(Some(n), Some(s.table[id]), None, Some(n), false))
  {
    InsideIs(s, t);
    TableReplace(s.handles, s.table, n, id);
  }

  lemma ShapeFindOld(s: State, t: Tid, n: nat, hold: bool)
    requires Shape(s) && t < |s.threads| && s.threads[t].pc == FindOld(n, hold) && n < |s.handles|
    ensures Shape(DoFindOld(s, t, n, hold))
  {
    var id := s.handles[n].entry.Id();
    if id in s.table {
      ShapeFoundOld(s, t, n, hold, id);
    } else {
      InsideIs(s, t);
      ShapeScalar(s, Go(s, t, TableInsert(n, hold)), t);
    }
  }

  lemma TableBind(hs: seq<Handle>, table: map<CacheKey, nat>, n: nat)
    requires TableInv(hs, table, NoDebt.(one := Some(n), absent := Some(n))) && n < |hs| && hs[n].flags.inCache
    ensures TableInv(hs, table[hs[n].entry.Id() := n], NoDebt)
  {
    var table' := table[hs[n].entry.Id() := n];
    assert forall j :: 0 <= j < |hs| && j != n ==> Mapped(hs, table', j) == Mapped(hs, table, j);
  }

  lemma ShapeTableInsert(s: State, t: Tid, n: nat, hold: bool)
    requires Shape(s) && t < |s.threads| && s.threads[t].pc == TableInsert(n, hold) && n < |s.handles|
    ensures Shape(DoTableInsert(s, t, n, hold))
  {
    InsideIs(s, t);
    TableBind(s.handles, s.table, n);
    ShapeScalar(s, DoTableInsert(s, t, n, hold), t);
  }

  lemma ShapePinInsert(s: State, t: Tid, n: nat)
    requires Shape(s) && t < |s.threads| && s.threads[t].pc == PinInsert(n) && n < |s.handles|
    ensures Shape(DoPinInsert(s, t, n))
  {
    InsideIs(s, t);
    ShapeScalar(s, DoPinInsert(s, t, n), t);
  }

  lemma ShapeAddUsage(s: State, t: Tid, n: nat, hold: bool)
    requires Shape(s) && t < |s.threads| && s.threads[t].pc == AddUsage(n, hold) && n < |s.handles|
    ensures Shape(DoAddUsage(s, t, n, hold))
  {
    InsideIs(s, t);
    ShapeScalar(s, DoAddUsage(s, t, n, hold), t);
  }

  // ---- erasing

  lemma TableTake(hs: seq<Handle>, table: map<CacheKey, nat>, id: CacheKey)
    requires TableInv(hs, table, NoDebt) && id in table
    ensures TableInv(hs, table - {id}, NoDebt.(one := Some(table[id])))
  {
    assert forall j :: 0 <= j < |hs| && j != table[id] ==> Mapped(hs, table - {id}, j) == Mapped(hs, table, j);
  }

  lemma ShapeEraseFound(s: State, t: Tid, id: CacheKey)
    requires Shape(s) && t < |s.threads| && s.threads[t].pc == EraseFind(id) && id in s.table
    ensures Shape(DoEraseFind(s, t, id))
  {
    InsideIs(s, t);
    TableTake(s.handles, s.table, id);
    ShapeScalar(s, Go(s.(table := s.table - {id}), t, Unset(s.table[id], ThenUnlock)), t);
  }

  lemma ShapeEraseFind(s: State, t: Tid, id: CacheKey)
    requires Shape(s) && t < |s.threads| && s.threads[t].pc == EraseFind(id)
    ensures Shape(DoEraseFind(s, t, id))
  {
    if id in s.table {
      ShapeEraseFound(s, t, id);
    } else {
      InsideIs(s, t);
      ShapePlain(s, t, s.head, Unlock);
    }
  }

  lemma ShapeClearLoop(s: State, t: Tid, next: nat)
    requires Shape(s) && t < |s.threads| && s.threads[t].pc == ClearLoop(next)
    ensures Shape(DoClearLoop(s, t, next))
  {
    InsideIs(s, t);
    ShapeScalar(s, DoClearLoop(s, t, next), t);
  }

  /** Handle `i` leaves the debt once its in-cache bit is clear. */
  lemma TableUnset(hs: seq<Handle>, i: nat, h: Handle, table: map<CacheKey, nat>, d: Debt, d': Debt)
    requires TableInv(hs, table, d) && i < |hs| && !Mapped(hs, table, i) && h.entry == hs[i].entry && !h.flags.inCache
    requires DebtOk(hs, table, d') && forall j :: j != i && Loose(d, j) ==> Loose(d', j)
    ensures TableInv(hs[i := h], table, d')
  {
    assert forall j :: 0 <= j < |hs| ==> hs[i := h][j].entry == hs[j].entry;
    assert forall j :: 0 <= j < |hs| ==> Mapped(hs[i := h], table, j) == Mapped(hs, table, j);
  }

  lemma UnsetTable(s: State, t: Tid, i: nat, after: After, h: Handle)
    requires Shape(s) && t < |s.threads| && s.threads[t].pc == Unset(i, after) && i < |s.handles|
    requires h.entry == s.handles[i].entry && !h.flags.inCache
    ensures TableInv(s.handles[i := h], s.table, ClaimsOf(Recycle(i, after)).debt)
  {
    InsideIs(s, t);
    TableUnset(s.handles, i, h, s.table, ClaimsOf(Unset(i, after)).debt, ClaimsOf(Recycle(i, after)).debt);
  }

  lemma UnsetHandle(s: State, s': State, t: Tid, i: nat)
    requires Shape(s) && t < |s.threads| == |s'.threads| && i < |s.handles| == |s'.handles| && s'.grants == s.grants
    requires s'.handles[i] == Uncached(s.handles[i], t) && s'.threads == s.threads[t := s'.threads[t]]
    requires s'.threads[t].claims.ref == s.threads[t].claims.ref
    requires s.threads[t].claims.dying == s.threads[t].claims.filling == None
    requires s.handles[i].flags.inCache && s.handles[i].flags.refs == 0 ==> s'.threads[t].claims.dying == Some(i)
    ensures HandleOk(s', i)
  {
    AtThread(s, t); AtHandle(s, i);
    forall x | x in s'.handles[i].holders ensures HolderOk(s', i, x) { assert HolderOk(s, i, x); }
    if s.handles[i].own.Dying? || s.handles[i].own.Filling? {
      assert s.handles[i].own.tid != t;
    }
  }

  /** The thread after UnsetInCache, when it must recycle the handle. */
  lemma UnsetThreadDead(s: State, s': State, t: Tid, i: nat, after: After)
    requires Shape(s) && t < |s.threads| && s.threads[t].pc == Unset(i, after) && i < |s.handles|
    requires s' == DoUnset(s, t, i, after) && s.handles[i].flags.inCache && s.handles[i].flags.refs == 0
    ensures ThreadOk(s', t) && PcOk(s', t) && s'.threads[t].claims == ClaimsOf(Recycle(i, after))
  {
    AtThread(s, t);
    assert s'.threads[t].pc == Recycle(i, after);
  }

  /** The thread after UnsetInCache, when the handle is still referenced or was not cached. */
  lemma UnsetThreadAlive(s: State, s': State, t: Tid, i: nat, after: After)
    requires Shape(s) && t < |s.threads| && s.threads[t].pc == Unset(i, after) && i < |s.handles|
    requires s' == DoUnset(s, t, i, after) && !(s.handles[i].flags.inCache && s.handles[i].flags.refs == 0)
    ensures ThreadOk(s', t) && PcOk(s', t) && s'.threads[t].claims == ClaimsOf(Resume(s, after))
  {
    AtThread(s, t);
    assert s'.threads[t].pc == Resume(s, after);
  }

  lemma UnsetClaims(s: State, i: nat, after: After)
    requires !after.ThenEvict?
    ensures var c, c1, c2 := ClaimsOf(Unset(i, after)), ClaimsOf(Recycle(i, after)), ClaimsOf(Resume(s, after));
      && ClaimsOnlyAt(c, c1, i) && ClaimsOnlyAt(c, c2, i) && c1.ref == c.ref == c2.ref && c1.debt == c2.debt
  {}

  lemma UnsetThread(s: State, s': State, t: Tid, i: nat, after: After)
    requires Shape(s) && t < |s.threads| && s.threads[t].pc == Unset(i, after) && i < |s.handles|
    requires s' == DoUnset(s, t, i, after)
    ensures ThreadOk(s', t) && PcOk(s', t)
    ensures ClaimsOnlyAt(s.threads[t].claims, s'.threads[t].claims, i)
    ensures s'.threads[t].claims.ref == s.threads[t].claims.ref
    ensures s'.threads[t].claims.debt == ClaimsOf(Recycle(i, after)).debt
  {
    AtThread(s, t);
    UnsetClaims(s, i, after);
    if s.handles[i].flags.inCache && s.handles[i].flags.refs == 0 {
      UnsetThreadDead(s, s', t, i, after);
    } else {
      UnsetThreadAlive(s, s', t, i, after);
    }
  }

  lemma ShapeUnset(s: State, t: Tid, i: nat, after: After)
    requires Shape(s) && t < |s.threads| && s.threads[t].pc == Unset(i, after) && i < |s.handles|
    ensures Shape(DoUnset(s, t, i, after))
  {
    var s' := DoUnset(s, t, i, after);
    var h, h' := s.handles[i], s'.handles[i];
    InsideIs(s, t);
    AtHandle(s, i);
    KeepBin(s.handles, i, h', s.recycle);
    KeepHistory(s.handles, i, h', s.recycled);
    UnsetTable(s, t, i, after, h');
    UnsetThread(s, s', t, i, after);
    UnsetHandle(s, s', t, i);
    ShapeHandle(s, s', t, i);
  }

  lemma BinPush(hs: seq<Handle>, bin: seq<nat>, i: nat, h: Handle)
    requires BinInv(hs, bin) && i < |hs| && !hs[i].own.Free? && h.own.Free?
    ensures BinInv(hs[i := h], bin + [i])
  {
    assert forall j :: j in bin ==> j in bin + [i];
  }

  lemma HistoryPush(hs: seq<Handle>, recycled: seq<(nat, nat)>, i: nat, h: Handle)
    requires HistoryInv(hs, recycled) && i < |hs| && !hs[i].own.Free? && h.own.Free? && h.occupancy == hs[i].occupancy
    ensures HistoryInv(hs[i := h], recycled + [(i, h.occupancy)])
  {
    KeepHistory(hs, i, h, recycled);
    var log := recycled + [(i, h.occupancy)];
    forall j, k | 0 <= j < k < |log| ensures log[j] != log[k] {
      if k == |recycled| {
        var (a, o) := recycled[j];
        assert o < hs[a].occupancy || (o == hs[a].occupancy && hs[a].own.Free?);
      }
    }
  }

  /** The thread after RecycleHandle. */
  lemma RecycleThread(s: State, s': State, t: Tid, i: nat, after: After)
    requires Shape(s) && t < |s.threads| && s.threads[t].pc == Recycle(i, after) && i < |s.handles|
    requires s' == DoRecycle(s, t, i, after)
    ensures ThreadOk(s', t) && PcOk(s', t)
    ensures ClaimsOnlyAt(s.threads[t].claims, s'.threads[t].claims, i)
    ensures s'.threads[t].claims.debt == ClaimsOf(Recycle(i, after)).debt
  {
    AtThread(s, t); AtHandle(s, i);
  }

  lemma ShapeRecycle(s: State, t: Tid, i: nat, after: After)
    requires Shape(s) && t < |s.threads| && s.threads[t].pc == Recycle(i, after) && i < |s.handles|
    ensures Shape(DoRecycle(s, t, i, after))
  {
    var s' := DoRecycle(s, t, i, after);
    var h' := s'.handles[i];
    InsideIs(s, t);
    AtHandle(s, i);
    RecycleThread(s, s', t, i, after);
    BinPush(s.handles, s.recycle, i, h');
    HistoryPush(s.handles, s.recycled, i, h');
    TableRename(s.handles, i, h', s.table, ClaimsOf(Recycle(i, after)).debt);
    ShapeHandle(s, s', t, i);
  }

  lemma ShapeInsertDone(s: State, t: Tid, n: nat, hold: bool)
    requires Shape(s) && t < |s.threads| && s.threads[t].pc == InsertDone(n, hold) && n < |s.handles|
    ensures Shape(DoInsertDone(s, t, n, hold))
  {
    if hold {
      InsideIs(s, t);
      var want := WantKey(s.handles[n].entry.Id());
      var s1 := Go(s.(mutex := None), t, Check(n, want));
      ShapeScalar(s, s1, t);
      ShapeGive(s1, t, n, want);
      assert Give(s1, t, n, want) == DoInsertDone(s, t, n, hold);
    } else {
      ShapeUnlock(s, t);
    }
  }
}
