/**
 A shard of the CLOCK cache as a system of threads that interleave one atomic action at a time.

 An action is one access to memory that another thread can see at that point: one atomic operation on a
 handle's flags word, one hash-map operation, one acquisition of the mutex. Code between two such
 accesses runs together with the first of them.

 The fields `own`, `holders` and `occupancy` of a handle, `claims` of a thread, and `recycled` and `drift` of a state
 are history: no action reads them to decide what to do. `grants` stands for the pointers that callers hold: Release
 takes the index of its handle from there, and the rest of a grant is history too.
 */
module ClockModel {
  import opened Basics

  type Tid = nat

  datatype CacheKey = CacheKey(key: string, hash: nat)

  /**
   What an Insert puts into a handle. Under the policy that charges metadata (`full`) the key's length counts too;
   the size of a handle, which does not change, is part of `charge` then.
   */
  datatype Entry = Entry(key: string, hash: nat, value: int, charge: nat, full: bool) {
    function Id(): CacheKey { CacheKey(key, hash) }

    /** The total charge, computed anew from the fields whenever it is asked for. */
    function Total(): nat { charge + if full then |key| else 0 }
  }

  /** The flags word: in-cache bit, usage bit and reference count. */
  datatype Flags = Flags(inCache: bool, usage: bool, refs: nat)

  /** Who holds one counted reference: an operation in progress, or a caller that was handed the handle. */
  datatype Holder = Op(tid: Tid) | Ext(id: nat)

  /** Where a handle is in its life: in the bin, being filled, in use, or due to be recycled by one thread. */
  datatype Own = Free | Filling(tid: Tid) | Live | Dying(tid: Tid)

  datatype Handle = Handle(entry: Entry, flags: Flags, own: Own, holders: set<Holder>, occupancy: nat)

  /** What Ref is called for: a Lookup that must see this key, or a caller's own Ref. */
  datatype Want = WantKey(id: CacheKey) | WantRef

  /** A reference handed to a caller, with the entry it was promised. */
  datatype Grant = Grant(idx: nat, occupancy: nat, entry: Entry, want: Want)

  /** Who called Unref, hence what follows it. */
  datatype Caller = FromLookup | FromRelease(forceErase: bool)

  /** Work that begins by locking the mutex. */
  datatype Job =
    | InsertJob(e: Entry, hold: bool)
    | EraseJob(id: CacheKey)
    | ForceEraseJob(i: nat, hash: nat)
    | ClearJob
    | CapacityJob(capacity: nat)
    | RecycleJob(i: nat)

  /** The work that runs EvictFromCache. */
  datatype Evictor = ForInsert(e: Entry, hold: bool) | ForCapacity {
    function Charge(): nat { if ForInsert? then e.Total() else 0 }
  }

  /** Where UnsetInCache and RecycleHandle return to. */
  datatype After =
    | ThenUnlock
    | ThenInsert(n: nat, hold: bool)
    | ThenClear(next: nat)
    | ThenEvict(ev: Evictor, at: nat, second: bool)

  datatype Pc =
    | Idle
    // Ref, Lookup
    | RefLoad(i: nat, want: Want)
    | RefCas(i: nat, seen: Flags, want: Want)
    | PinAdd(i: nat, charge: nat, want: Want)
    | Check(i: nat, want: Want)
    // Unref, Release
    | SetUsage(i: nat, forceErase: bool)
    | Drop(i: nat, caller: Caller)
    | PinSub(i: nat, charge: nat, dead: bool, caller: Caller)
    | ReadHash(i: nat)
    // mutex wanted
    | Lock(job: Job)
    // mutex held: eviction
    | EvictStart(ev: Evictor)
    | EvictTest(ev: Evictor, at: nat, second: bool, usage: int)
    | EvictCas(ev: Evictor, at: nat, second: bool, usage: int)
    | EvictClear(ev: Evictor, at: nat, second: bool, usage: int)
    | EvictErase(ev: Evictor, at: nat, second: bool)
    | Evicted(ev: Evictor, ok: bool)
    // mutex held: insertion
    | Fill(n: nat, e: Entry, hold: bool, keyed: bool)
    | Publish(n: nat, hold: bool)
    | FindOld(n: nat, hold: bool)
    | TableInsert(n: nat, hold: bool)
    | PinInsert(n: nat)
    | AddUsage(n: nat, hold: bool)
    | InsertDone(n: nat, hold: bool)
    // mutex held: erasing
    | EraseFind(id: CacheKey)
    | ClearLoop(next: nat)
    | Unset(i: nat, after: After)
    | Recycle(i: nat, after: After)
    | Unlock

  /**
   What the thread inside the mutex still owes the table: the handles that are between their table update and
   their flags update (`one`, `two`, and all from `from` on), the one whose key is not in the table, and whether
   `one` is still mapped because it is being evicted.
   */
  datatype Debt = Debt(one: Option<nat>, two: Option<nat>, from: Option<nat>, absent: Option<nat>, evicting: bool)

  const NoDebt := Debt(None, None, None, None, false)

  /**
   What a thread answers for: the handle on which it holds a counted reference, the one it must recycle, the one
   it is filling, the one it has published and not finished inserting, whether that one's charge has reached
   `usage_` and `pinned_usage_`, whether it is inside the mutex, what it owes the table, and how long `list_`
   must be for every handle it names to exist.
   */
  datatype Claims = Claims(ref: Option<nat>, dying: Option<nat>, filling: Option<nat>, newest: Option<nat>,
                           usageOwed: bool, pinOwed: bool, inside: bool, debt: Debt, reach: nat)

  const Nothing := Claims(None, None, None, None, false, false, false, NoDebt, 0)
  const Inner := Nothing.(inside := true)

  function Naming(i: nat): Claims { Nothing.(reach := i + 1) }
  function Holding(i: nat): Claims { Naming(i).(ref := Some(i)) }
  function Recycling(i: nat): Claims { Naming(i).(dying := Some(i)) }
  function Examining(at: nat): Claims { Inner.(reach := at + 1) }

  function Inserting(n: nat, hold: bool): Claims {
    Inner.(ref := if hold then Some(n) else None, newest := Some(n), usageOwed := true, pinOwed := hold, reach := n + 1)
  }

  function Both(i: nat, n: nat): nat { if i < n then n + 1 else i + 1 }

  function ClaimsOf(pc: Pc): Claims {
    match pc
    case Idle => Nothing
    case RefLoad(i, _) => Naming(i)
    case RefCas(i, _, _) => Naming(i)
    case PinAdd(i, _, _) => Holding(i)
    case Check(i, _) => Holding(i)
    case SetUsage(i, _) => Holding(i)
    case Drop(i, _) => Holding(i)
    case PinSub(i, _, dead, _) => if dead then Recycling(i) else Naming(i)
    case ReadHash(i) => Naming(i)
    case Lock(job) => if job.RecycleJob? then Recycling(job.i) else if job.ForceEraseJob? then Naming(job.i)
        else Nothing
    case EvictStart(_) => Inner
    case EvictTest(_, at, _, _) => Examining(at)
    case EvictCas(_, at, _, _) => Examining(at)
    case EvictClear(_, at, _, _) => Examining(at)
    case EvictErase(_, at, _) => Examining(at).(dying := Some(at), debt := NoDebt.(one := Some(at), evicting := true))
    case Evicted(_, _) => Inner
    case Fill(n, _, _, _) => Examining(n).(filling := Some(n))
    case Publish(n, _) => Examining(n).(filling := Some(n))
    case FindOld(n, hold) => Inserting(n, hold).(debt := NoDebt.(one := Some(n)))
    case TableInsert(n, hold) => Inserting(n, hold).(debt := NoDebt.(one := Some(n), absent := Some(n)))
    case PinInsert(n) => Inserting(n, true)
    case AddUsage(n, hold) => Inserting(n, hold).(pinOwed := false)
    case InsertDone(n, hold) => Inserting(n, hold).(pinOwed := false, usageOwed := false)
    case EraseFind(_) => Inner
    case ClearLoop(next) => Inner.(debt := NoDebt.(from := Some(next)))
    case Unset(i, after) =>
      if after.ThenInsert? then
        Inserting(after.n, after.hold).(debt := Debt(Some(after.n), Some(i), None, Some(after.n), false),
            reach := Both(i, after.n))
      else Examining(i).(debt := if after.ThenClear? then NoDebt.(from := Some(i)) else NoDebt.(one := Some(i)))
    case Recycle(i, after) =>
      if after.ThenInsert? then
        Inserting(after.n, after.hold).(dying := Some(i),
            debt := NoDebt.(one := Some(after.n), absent := Some(after.n)),
                                        reach := Both(i, after.n))
      else Examining(i).(dying := Some(i), debt := if after.ThenClear? then NoDebt.(from := Some(after.next))
          else NoDebt)
    case Unlock => Inner
  }

  /** A thread: where it is, and (history) what it answers for there. */
  datatype Thread = Thread(pc: Pc, claims: Claims)

  datatype State = State(
    handles: seq<Handle>, head: nat, recycle: seq<nat>, capacity: nat, usage: int, pinned: int, strict: bool,
    table: map<CacheKey, nat>, mutex: Option<Tid>, threads: seq<Thread>,
    grants: map<nat, Grant>, nextGrant: nat, recycled: seq<(nat, nat)>, drift: int)

  /** What an idle thread may start. */
  datatype Call =
    | Lookup(id: CacheKey)
    | Ref(i: nat)
    | Release(grant: nat, forceErase: bool)
    | Insert(e: Entry, hold: bool)
    | Erase(id: CacheKey)
    | EraseUnRefEntries
    | SetCapacity(capacity: nat)
    | SetStrictCapacityLimit(strict: bool)

  function Init(threads: nat): State {
    State([], 0, [], 0, 0, 0, false, map[], None, seq(threads, _ => Thread(Idle, Nothing)), map[], 0, [], 0)
  }

  // ---- helpers that build the next state

  function Go(s: State, t: Tid, pc: Pc): State
    requires t < |s.threads|
  {
    s.(threads := s.threads[t := Thread(pc, ClaimsOf(pc))])
  }

  function Put(s: State, i: nat, h: Handle): State
    requires i < |s.handles|
  {
    s.(handles := s.handles[i := h])
  }

  function Give(s: State, t: Tid, i: nat, want: Want): State
    requires t < |s.threads| && i < |s.handles|
  {
    var h := s.handles[i];
    var s1 := Put(s, i, h.(holders := h.holders - {Op(t)} + {Ext(s.nextGrant)}));
    Go(s1.(grants := s.grants[s.nextGrant := Grant(i, h.occupancy, h.entry, want)], nextGrant := s.nextGrant + 1), t,
        Idle)
  }

  /** The tail of EvictFromCache's loop body: move on, and stop when the second round is over. */
  function NextExamined(s: State, ev: Evictor, at: nat, second: bool, usage: int): Pc {
    var next := if at + 1 >= |s.handles| then 0 else at + 1;
    if next == s.head && second then Evicted(ev, false) else EvictTest(ev, next, second || next == s.head, usage)
  }

  function Resume(s: State, after: After): Pc {
    match after
    case ThenUnlock => Unlock
    case ThenInsert(n, hold) => TableInsert(n, hold)
    case ThenClear(next) => ClearLoop(next)
    case ThenEvict(ev, at, second) => NextExamined(s, ev, at, second, s.usage)
  }

  /** No action indexes out of range or fails one of the source's assertions at this point. */
  predicate InRange(s: State, pc: Pc) {
    && ClaimsOf(pc).reach <= |s.handles|
    && (pc.Drop? ==> s.handles[pc.i].flags.refs > 0)
    && (pc.EvictStart? && s.usage != 0 ==> s.head < |s.handles|)
    && (pc.Evicted? && |s.recycle| > 0 ==> s.recycle[|s.recycle| - 1] < |s.handles|)
    && (pc.Recycle? ==> !s.handles[pc.i].flags.inCache && s.handles[pc.i].flags.refs == 0)
    && (pc.EvictErase? ==> s.handles[pc.at].entry.Id() in s.table)
  }

  // ---- calls that an idle thread makes

  predicate Callable(s: State, call: Call) {
    match call
    case Ref(i) => i < |s.handles|
    case Release(g, _) => g in s.grants && s.grants[g].idx < |s.handles|
    case _ => true
  }

  function DoLookup(s: State, t: Tid, id: CacheKey): State
    requires t < |s.threads|
  {
    if id in s.table then Go(s, t, RefLoad(s.table[id], WantKey(id))) else s
  }

  function DoRelease(s: State, t: Tid, g: nat, force: bool): State
    requires t < |s.threads| && g in s.grants && s.grants[g].idx < |s.handles|
  {
    var i := s.grants[g].idx;
    var h := s.handles[i];
    Go(Put(s, i, h.(holders := h.holders - {Ext(g)} + {Op(t)})).(grants := s.grants - {g}), t, SetUsage(i, force))
  }

  function Start(s: State, t: Tid, call: Call): State
    requires t < |s.threads| && Callable(s, call)
  {
    match call
    case Lookup(id) => DoLookup(s, t, id)
    case Ref(i) => Go(s, t, RefLoad(i, WantRef))
    case Release(g, force) => DoRelease(s, t, g, force)
    case Insert(e, hold) => Go(s, t, Lock(InsertJob(e, hold)))
    case Erase(id) => Go(s, t, Lock(EraseJob(id)))
    case EraseUnRefEntries => Go(s, t, Lock(ClearJob))
    case SetCapacity(c) => Go(s, t, Lock(CapacityJob(c)))
    case SetStrictCapacityLimit(b) => s.(strict := b)
  }

  // ---- Ref and the rest of Lookup

  function DoRefLoad(s: State, t: Tid, i: nat, want: Want): State
    requires t < |s.threads| && i < |s.handles|
  {
    var f := s.handles[i].flags;
    Go(s, t, if f.inCache then RefCas(i, f, want) else Idle)
  }

  /** One more reference, counted and held by thread `t`. */
  function Gained(h: Handle, t: Tid): Handle {
    h.(flags := h.flags.(refs := h.flags.refs + 1), holders := h.holders + {Op(t)})
  }

  function DoRefCas(s: State, t: Tid, i: nat, seen: Flags, want: Want): State
    requires t < |s.threads| && i < |s.handles|
  {
    var h := s.handles[i];
    if h.flags == seen then
      Go(Put(s, i, Gained(h, t)), t, if seen.refs == 0 then PinAdd(i, h.entry.Total(), want) else Check(i, want))
    else
      Go(s, t, if h.flags.inCache then RefCas(i, h.flags, want) else Idle)
  }

  function DoPinAdd(s: State, t: Tid, i: nat, want: Want): State
    requires t < |s.threads| && i < |s.handles|
  {
    Go(s.(pinned := s.pinned + s.handles[i].entry.Total()), t, Check(i, want))
  }

  function DoCheck(s: State, t: Tid, i: nat, want: Want): State
    requires t < |s.threads| && i < |s.handles|
  {
    if want.WantKey? && s.handles[i].entry.Id() != want.id then Go(s, t, Drop(i, FromLookup)) else Give(s, t, i, want)
  }

  // ---- Unref and the rest of Release

  function AfterUnref(i: nat, caller: Caller): Pc {
    if caller == FromRelease(true) then ReadHash(i) else Idle
  }

  function DoSetUsage(s: State, t: Tid, i: nat, force: bool): State
    requires t < |s.threads| && i < |s.handles|
  {
    var h := s.handles[i];
    Go(Put(s, i, h.(flags := h.flags.(usage := true))), t, Drop(i, FromRelease(force)))
  }

  /** One reference fewer; the thread that leaves both parts zero becomes responsible for recycling. */
  function Dropped(h: Handle, t: Tid): Handle
    requires h.flags.refs > 0
  {
    var h' := h.(flags := h.flags.(refs := h.flags.refs - 1), holders := h.holders - {Op(t)});
    if h.flags.refs == 1 && !h.flags.inCache then h'.(own := Dying(t)) else h'
  }

  function DoDrop(s: State, t: Tid, i: nat, caller: Caller): State
    requires t < |s.threads| && i < |s.handles| && s.handles[i].flags.refs > 0
  {
    var h := s.handles[i];
    Go(Put(s, i, Dropped(h, t)), t,
       if h.flags.refs == 1 then PinSub(i, h.entry.Total(), !h.flags.inCache, caller) else AfterUnref(i, caller))
  }

  function DoPinSub(s: State, t: Tid, i: nat, charge: nat, dead: bool, caller: Caller): State
    requires t < |s.threads| && i < |s.handles|
  {
    var read := s.handles[i].entry.Total();
    Go(s.(pinned := s.pinned - read, drift := s.drift + charge - read), t,
       if dead then Lock(RecycleJob(i)) else AfterUnref(i, caller))
  }

  function DoReadHash(s: State, t: Tid, i: nat): State
    requires t < |s.threads| && i < |s.handles|
  {
    Go(s, t, Lock(ForceEraseJob(i, s.handles[i].entry.hash)))
  }

  // ---- the mutex

  function DoLock(s: State, t: Tid, job: Job): State
    requires t < |s.threads| && ClaimsOf(Lock(job)).reach <= |s.handles|
  {
    var s1 := s.(mutex := Some(t));
    match job
    case InsertJob(e, hold) => Go(s1, t, EvictStart(ForInsert(e, hold)))
    case EraseJob(id) => Go(s1, t, EraseFind(id))
    case ForceEraseJob(i, hash) => Go(s1, t, EraseFind(CacheKey(s.handles[i].entry.key, hash)))
    case ClearJob => Go(s1.(table := map[]), t, ClearLoop(0))
    case CapacityJob(c) => Go(s1.(capacity := c), t, EvictStart(ForCapacity))
    case RecycleJob(i) => Go(s1, t, Recycle(i, ThenUnlock))
  }

  function DoUnlock(s: State, t: Tid): State
    requires t < |s.threads|
  {
    Go(s.(mutex := None), t, Idle)
  }

  // ---- EvictFromCache and TryEvict

  function DoEvictStart(s: State, t: Tid, ev: Evictor): State
    requires t < |s.threads|
  {
    Go(s, t, if s.usage == 0 then Evicted(ev, ev.Charge() <= s.capacity) else EvictTest(ev, s.head, false, s.usage))
  }

  function DoEvictTest(s: State, t: Tid, ev: Evictor, at: nat, second: bool, usage: int): State
    requires t < |s.threads|
  {
    if usage + ev.Charge() > s.capacity then Go(s, t, EvictCas(ev, at, second, usage))
    else Go(s.(head := at), t, Evicted(ev, true))
  }

  function DoEvictCas(s: State, t: Tid, ev: Evictor, at: nat, second: bool, usage: int): State
    requires t < |s.threads| && at < |s.handles|
  {
    var h := s.handles[at];
    if h.flags == Flags(true, false, 0) then
      Go(Put(s, at, h.(flags := Flags(false, false, 0), own := Dying(t))), t, EvictErase(ev, at, second))
    else Go(s, t, EvictClear(ev, at, second, usage))
  }

  function DoEvictClear(s: State, t: Tid, ev: Evictor, at: nat, second: bool, usage: int): State
    requires t < |s.threads| && at < |s.handles|
  {
    var h := s.handles[at];
    Go(Put(s, at, h.(flags := h.flags.(usage := false))), t, NextExamined(s, ev, at, second, usage))
  }

  function DoEvictErase(s: State, t: Tid, ev: Evictor, at: nat, second: bool): State
    requires t < |s.threads| && at < |s.handles|
  {
    Go(s.(table := s.table - {s.handles[at].entry.Id()}), t, Recycle(at, ThenEvict(ev, at, second)))
  }

  // ---- Insert

  /** Take a handle from the bin, or append a new one. */
  function DoGrab(s: State, t: Tid, e: Entry, hold: bool): State
    requires t < |s.threads| && (|s.recycle| > 0 ==> s.recycle[|s.recycle| - 1] < |s.handles|)
  {
    if |s.recycle| > 0 then
      var n := s.recycle[|s.recycle| - 1];
      var h := s.handles[n];
      Go(Put(s, n, h.(own := Filling(t), occupancy := h.occupancy + 1)).(recycle := s.recycle[..|s.recycle| - 1]),
         t, Fill(n, e, hold, false))
    else
      var blank := Handle(Entry("", 0, 0, 0, false), Flags(false, false, 0), Filling(t), {}, 1);
      Go(s.(handles := s.handles + [blank]), t, Fill(|s.handles|, e, hold, false))
  }

  /** After EvictFromCache: give up, or go on with the insertion. */
  function DoEvicted(s: State, t: Tid, ev: Evictor, ok: bool): State
    requires t < |s.threads| && (|s.recycle| > 0 ==> s.recycle[|s.recycle| - 1] < |s.handles|)
  {
    if ev.ForCapacity? || (!ok && (s.strict || !ev.hold)) then Go(s, t, Unlock) else DoGrab(s, t, ev.e, ev.hold)
  }

  /** The key is written first, with hash and value; then the charge. */
  function DoFill(s: State, t: Tid, n: nat, e: Entry, hold: bool, keyed: bool): State
    requires t < |s.threads| && n < |s.handles|
  {
    var h := s.handles[n];
    if keyed then Go(Put(s, n, h.(entry := e)), t, Publish(n, hold))
    else Go(Put(s, n, h.(entry := e.(charge := h.entry.charge))), t, Fill(n, e, hold, true))
  }

  function DoPublish(s: State, t: Tid, n: nat, hold: bool): State
    requires t < |s.threads| && n < |s.handles|
  {
    var h := s.handles[n].(flags := Flags(true, false, if hold then 1 else 0), own := Live,
                           holders := if hold then {Op(t)} else {});
    Go(Put(s, n, h), t, FindOld(n, hold))
  }

  function DoFindOld(s: State, t: Tid, n: nat, hold: bool): State
    requires t < |s.threads| && n < |s.handles|
  {
    var id := s.handles[n].entry.Id();
    if id in s.table then Go(s.(table := s.table - {id}), t, Unset(s.table[id], ThenInsert(n, hold)))
    else Go(s, t, TableInsert(n, hold))
  }

  function DoTableInsert(s: State, t: Tid, n: nat, hold: bool): State
    requires t < |s.threads| && n < |s.handles|
  {
    Go(s.(table := s.table[s.handles[n].entry.Id() := n]), t, if hold then PinInsert(n) else AddUsage(n, false))
  }

  function DoPinInsert(s: State, t: Tid, n: nat): State
    requires t < |s.threads| && n < |s.handles|
  {
    Go(s.(pinned := s.pinned + s.handles[n].entry.Total()), t, AddUsage(n, true))
  }

  function DoAddUsage(s: State, t: Tid, n: nat, hold: bool): State
    requires t < |s.threads| && n < |s.handles|
  {
    Go(s.(usage := s.usage + s.handles[n].entry.Total()), t, InsertDone(n, hold))
  }

  function DoInsertDone(s: State, t: Tid, n: nat, hold: bool): State
    requires t < |s.threads| && n < |s.handles|
  {
    if hold then Give(s.(mutex := None), t, n, WantKey(s.handles[n].entry.Id())) else DoUnlock(s, t)
  }

  // ---- EraseAndConfirm, EraseUnRefEntries, UnsetInCache, RecycleHandle

  function DoEraseFind(s: State, t: Tid, id: CacheKey): State
    requires t < |s.threads|
  {
    if id in s.table then Go(s.(table := s.table - {id}), t, Unset(s.table[id], ThenUnlock)) else Go(s, t, Unlock)
  }

  function DoClearLoop(s: State, t: Tid, next: nat): State
    requires t < |s.threads|
  {
    Go(s, t, if next < |s.handles| then Unset(next, ThenClear(next + 1)) else Unlock)
  }

  /** Clears the in-cache bit; the thread that leaves both parts zero becomes responsible for recycling. */
  function Uncached(h: Handle, t: Tid): Handle {
    var f := h.flags.(inCache := false);
    if h.flags.inCache && h.flags.refs == 0 then h.(flags := f, own := Dying(t)) else h.(flags := f)
  }

  function DoUnset(s: State, t: Tid, i: nat, after: After): State
    requires t < |s.threads| && i < |s.handles|
  {
    var h := s.handles[i];
    Go(Put(s, i, Uncached(h, t)), t,
       if h.flags.inCache && h.flags.refs == 0 then Recycle(i, after) else Resume(s, after))
  }

  function DoRecycle(s: State, t: Tid, i: nat, after: After): State
    requires t < |s.threads| && i < |s.handles|
  {
    var h := s.handles[i];
    var h' := h.(entry := h.entry.(key := "", value := 0), own := Free);
    var s1 := Put(s, i, h').(recycle := s.recycle + [i], usage := s.usage - h.entry.Total(),
                             recycled := s.recycled + [(i, h.occupancy)]);
    Go(s1, t, Resume(s1, after))
  }

  // ---- one action of one thread

  function Act(s: State, t: Tid): State
    requires t < |s.threads| && InRange(s, s.threads[t].pc) && !s.threads[t].pc.Idle?
  {
    match s.threads[t].pc
    case RefLoad(i, want) => DoRefLoad(s, t, i, want)
    case RefCas(i, seen, want) => DoRefCas(s, t, i, seen, want)
    case PinAdd(i, _, want) => DoPinAdd(s, t, i, want)
    case Check(i, want) => DoCheck(s, t, i, want)
    case SetUsage(i, force) => DoSetUsage(s, t, i, force)
    case Drop(i, caller) => DoDrop(s, t, i, caller)
    case PinSub(i, charge, dead, caller) => DoPinSub(s, t, i, charge, dead, caller)
    case ReadHash(i) => DoReadHash(s, t, i)
    case Lock(job) => if s.mutex.None? then DoLock(s, t, job) else s
    case EvictStart(ev) => DoEvictStart(s, t, ev)
    case EvictTest(ev, at, second, usage) => DoEvictTest(s, t, ev, at, second, usage)
    case EvictCas(ev, at, second, usage) => DoEvictCas(s, t, ev, at, second, usage)
    case EvictClear(ev, at, second, usage) => DoEvictClear(s, t, ev, at, second, usage)
    case EvictErase(ev, at, second) => DoEvictErase(s, t, ev, at, second)
    case Evicted(ev, ok) => DoEvicted(s, t, ev, ok)
    case Fill(n, e, hold, keyed) => DoFill(s, t, n, e, hold, keyed)
    case Publish(n, hold) => DoPublish(s, t, n, hold)
    case FindOld(n, hold) => DoFindOld(s, t, n, hold)
    case TableInsert(n, hold) => DoTableInsert(s, t, n, hold)
    case PinInsert(n) => DoPinInsert(s, t, n)
    case AddUsage(n, hold) => DoAddUsage(s, t, n, hold)
    case InsertDone(n, hold) => DoInsertDone(s, t, n, hold)
    case EraseFind(id) => DoEraseFind(s, t, id)
    case ClearLoop(next) => DoClearLoop(s, t, next)
    case Unset(i, after) => DoUnset(s, t, i, after)
    case Recycle(i, after) => DoRecycle(s, t, i, after)
    case Unlock => DoUnlock(s, t)
  }

  /** One action of thread `t`; `call` says what it starts if it is idle. A thread that cannot move stutters. */
  function Step(s: State, t: Tid, call: Call): State {
    if t >= |s.threads| then s
    else if s.threads[t].pc.Idle? then (if Callable(s, call) then Start(s, t, call) else s)
    else if InRange(s, s.threads[t].pc) then Act(s, t)
    else s
  }

  /** A schedule picks, action by action, which thread moves and what it starts when it is idle. */
  type Schedule = seq<(Tid, Call)>

  function Run(s: State, schedule: Schedule): State {
    if |schedule| == 0 then s
    else
      var n := |schedule| - 1;
      Step(Run(s, schedule[..n]), schedule[n].0, schedule[n].1)
  }
}
