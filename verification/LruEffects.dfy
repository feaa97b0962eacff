/**
 What every operation of the LRU shard does to the handles: which leave, which come, and what changes in the others.
 With the invariant and the order of the list (`LruOrder`) this says what the whole shard becomes.
 */
module LruEffects {
  import opened Basics
  import opened LruModel
  import opened LruInvariant
  import opened LruOperations
  import opened LruRuns
  import opened LruOrder

  /** The key is bound to the handle. */
  predicate BoundTo<H(==)>(s: Shard<H>, id: Key, g: H) { id in s.table && s.table[id] == g }

  /** The entries agree but for the flag that says in which pool the handle is. */
  predicate Agree(e: Entry, e': Entry) { e'.(inHighPriPool := e.inHighPriPool) == e }

  /** The handles that an insertion of this charge, or a new capacity, evicts. */
  function Oldest<H>(s: Shard<H>, charge: nat, capacity: nat): seq<H> {
    s.lru[..ToEvict(s.live, s.lru, s.usage, charge, capacity)]
  }

  /** The operation takes the handle out of the shard. */
  ghost predicate Leaves<H>(s: Shard<H>, op: Op<H>, g: H)
    requires g in s.live
  {
    Legal(s, op) &&
    match op
    case OpInsert(h, r) =>
      g in Oldest(s, r.charge, s.capacity) || (Entering(s, r) && BoundTo(s, r.id, g) && s.live[g].refs == 0)
    case OpRelease(h, force) =>
      h == g && s.live[g].refs == 1 && (!s.live[g].inCache || s.usage > s.capacity || force)
    case OpErase(id) => BoundTo(s, id, g) && s.live[g].refs == 0
    case OpSetCapacity(c) => g in Oldest(s, 0, c)
    case OpEraseUnRef => s.live[g].inCache && s.live[g].refs == 0
    case _ => false
  }

  /** What becomes of the entry of a handle that stays. */
  ghost function Changed<H>(s: Shard<H>, op: Op<H>, g: H): Entry
    requires g in s.live
  {
    var e := s.live[g];
    if !Legal(s, op) then e else
    match op
    case OpInsert(h, r) => if Entering(s, r) && BoundTo(s, r.id, g) then e.(inCache := false) else e
    case OpLookup(id) => if BoundTo(s, id, g) then e.(refs := e.refs + 1, hasHit := true) else e
    case OpRef(h) => if h == g then e.(refs := e.refs + 1) else e
    case OpRelease(h, _) => if h == g && e.refs > 0 then e.(refs := e.refs - 1) else e
    case OpErase(id) => if BoundTo(s, id, g) then e.(inCache := false) else e
    case _ => e
  }

  /** What the operation does to a handle that is in the shard. */
  ghost predicate Does<H>(s: Shard<H>, op: Op<H>, s': Shard<H>, g: H)
    requires g in s.live
  {
    if Leaves(s, op, g) then g !in s'.live else g in s'.live && Agree(Changed(s, op, g), s'.live[g])
  }

  // ---- one operation after the other

  /** A handle that loses its place in the table is gone if it was on the list, and else is not in cache any more. */
  lemma EvictedDoes<H>(s: Shard<H>, h: H, g: H)
    requires h in s.live && g in s.live
    ensures var s' := Evicted(s, h);
      if g != h then g in s'.live && s'.live[g] == s.live[g]
      else if h in s.lru then g !in s'.live
      else g in s'.live && s'.live[g] == s.live[g].(inCache := false)
  {}

  lemma OnListIs<H>(s: Shard<H>, id: Key)
    requires Good(s) && id in s.table
    ensures var h := s.table[id]; h in s.live && s.live[h].inCache && (h in s.lru <==> s.live[h].refs == 0)
  {
    Parts(s, {});
  }

  lemma LookupDoes<H>(s: Shard<H>, id: Key, g: H)
    requires Inv(s) && g in s.live && s.low <= |s.lru|
    ensures Does(s, OpLookup(id), Lookup(s, id), g)
  {
    if id in s.table { OnListIs(s, id); }
  }

  lemma EraseDoes<H>(s: Shard<H>, id: Key, g: H)
    requires Inv(s) && g in s.live
    ensures Does(s, OpErase(id), Erase(s, id), g)
  {
    if id in s.table {
      OnListIs(s, id);
      EraseIs(s, id);
      EvictedDoes(s, s.table[id], g);
    }
  }

  lemma ReleaseDoes<H>(s: Shard<H>, h: H, force: bool, g: H)
    requires Inv(s) && g in s.live && h in s.live && s.live[h].refs > 0 && s.low <= |s.lru|
    ensures Does(s, OpRelease(h, force), Release(s, h, force), g)
  {
    if s.live[h].refs == 1 && s.live[h].inCache && s.usage <= s.capacity && !force {
      CachedIsBound(s, h);
      DroppedKeeps(s, h, {h});
      LruInsertKeeps(Dropped(s, h), h);
      assert LruInsert(Dropped(s, h), h).live.Keys == Dropped(s, h).live.Keys;
    }
  }

  lemma SetRatioDoes<H>(s: Shard<H>, ratio: real, g: H)
    requires Inv(s) && g in s.live && ratio >= 0.0
    ensures Does(s, OpSetRatio(ratio), SetHighPriorityPoolRatio(s, ratio), g)
  {
    var s1 := s.(ratio := ratio, poolCapacity := Share(s.capacity, ratio));
    RatioGood(s, ratio);
    MaintainShape(s1, {});
    assert MaintainPoolSize(s1).live.Keys == s1.live.Keys;
  }

  lemma {:induction false} ClearDoes<H>(s: Shard<H>, g: H)
    requires Good(s) && g in s.live
    ensures var s' := EraseUnRefEntries(s);
      (g in s'.live <==> g !in s.lru) && (g in s'.live ==> s'.live[g] == s.live[g])
    decreases |s.lru|
  {
    Parts(s, {});
    if |s.lru| > 0 {
      EvictOldestGood(s);
      EvictOldestEffect(s);
      assert s.lru == [s.lru[0]] + s.lru[1..];
      if g != s.lru[0] { ClearDoes(EvictOldest(s), g); } else { ClearKeeps(EvictOldest(s), g); }
    }
  }

  lemma {:induction false} ClearKeeps<H>(s: Shard<H>, g: H)
    requires Good(s) && g !in s.live
    ensures g !in EraseUnRefEntries(s).live
    decreases |s.lru|
  {
    Parts(s, {});
    if |s.lru| > 0 {
      EvictOldestGood(s);
      EvictOldestEffect(s);
      ClearKeeps(EvictOldest(s), g);
    }
  }

  /** What is evicted is the oldest stretch, and nothing else changes. */
  lemma EvictDoes<H>(s: Shard<H>, charge: nat, g: H)
    requires Good(s) && g in s.live
    ensures var s' := EvictFromLru(s, charge);
      (g in s'.live <==> g !in Oldest(s, charge, s.capacity)) && (g in s'.live ==> s'.live[g] == s.live[g])
  {
    var k := EvictFrees(s, charge);
    EvictTrims(s, charge);
    EvictRefs(s, charge);
    assert |s.lru[k..]| == |s.lru| - k;
  }

  lemma SetCapacityDoes<H>(s: Shard<H>, capacity: nat, g: H)
    requires Inv(s) && g in s.live
    ensures Does(s, OpSetCapacity(capacity), SetCapacity(s, capacity), g)
  {
    ResizedGood(s, capacity);
    EvictDoes(s.(capacity := capacity, poolCapacity := Share(capacity, s.ratio)), 0, g);
  }

  lemma VacatedDoes<H>(s: Shard<H>, id: Key, g: H)
    requires Good(s) && g in s.live
    ensures var s' := Vacated(s, id);
      if !BoundTo(s, id, g) then g in s'.live && s'.live[g] == s.live[g]
      else if s.live[g].refs == 0 then g !in s'.live
      else g in s'.live && s'.live[g] == s.live[g].(inCache := false)
  {
    if id in s.table {
      OnListIs(s, id);
      EvictedDoes(s, s.table[id], g);
    }
  }

  /** A handle that is new enters with what it was inserted with; the others are as after making room in the table. */
  lemma EnterDoes<H>(s: Shard<H>, h: H, r: Request, g: H)
    requires Good(s) && Unknown(s, h) && s.low <= |s.lru| && !Refused(s, r)
    requires s.usage + r.charge > s.capacity ==> s.lru == []
    ensures var s', v := Enter(s, h, r), Vacated(s, r.id);
      && h in s'.live && Agree(r.Fresh(), s'.live[h])
      && (g != h ==> (g in s'.live <==> g in v.live) && (g in v.live ==> Agree(v.live[g], s'.live[g])))
  {
    var v := Vacated(s, r.id);
    VacatedKeeps(s, r.id);
    EnterIs(s, h, r);
    if !r.wantsHandle {
      AddNewKeeps(v, h, r, {h});
      Parts(v, {});
      LruInsertKeeps(AddNew(v, h, r), h);
      assert LruInsert(AddNew(v, h, r), h).live.Keys == AddNew(v, h, r).live.Keys;
    }
  }

  /** What is evicted first loses its binding; other bindings stay. */
  lemma BoundAfterEviction<H>(s: Shard<H>, charge: nat, id: Key, g: H)
    requires Good(s) && g in EvictFromLru(s, charge).live
    ensures BoundTo(EvictFromLru(s, charge), id, g) <==> BoundTo(s, id, g)
  {
    EvictKeeps(s, charge);
    EvictRefs(s, charge);
    Parts(s, {});
    Parts(EvictFromLru(s, charge), {});
  }

  lemma EnteringDoes<H>(s: Shard<H>, h: H, r: Request, g: H)
    requires Good(s) && Unknown(s, h) && s.low <= |s.lru| && !Refused(s, r) && g in s.live
    requires s.usage + r.charge > s.capacity ==> s.lru == []
    ensures var s' := Enter(s, h, r);
      if !BoundTo(s, r.id, g) then g in s'.live && Agree(s.live[g], s'.live[g])
      else if s.live[g].refs == 0 then g !in s'.live
      else g in s'.live && Agree(s.live[g].(inCache := false), s'.live[g])
  {
    EnterDoes(s, h, r, g);
    VacatedDoes(s, r.id, g);
  }

  /** After the eviction for an insertion, the shard is whole and the list is empty unless there is room. */
  lemma ReadyToEnter<H>(s: Shard<H>, h: H, r: Request)
    requires Good(s) && Unknown(s, h)
    ensures var s1 := EvictFromLru(s, r.charge);
      && Good(s1) && Unknown(s1, h) && s1.low <= |s1.lru|
      && (s1.usage + r.charge > s1.capacity ==> s1.lru == [])
  {
    EvictKeeps(s, r.charge);
    var k := EvictFrees(s, r.charge);
    Parts(EvictFromLru(s, r.charge), {});
  }

  lemma InsertDoes<H>(s: Shard<H>, h: H, r: Request, g: H)
    requires Inv(s) && Unknown(s, h) && s.low <= |s.lru| && g in s.live
    ensures Does(s, OpInsert(h, r), Insert(s, h, r), g)
  {
    var s1 := EvictFromLru(s, r.charge);
    EvictDoes(s, r.charge, g);
    ReadyToEnter(s, h, r);
    if Entering(s, r) {
      if g in s1.live {
        BoundAfterEviction(s, r.charge, r.id, g);
        EnteringDoes(s1, h, r, g);
      } else {
        EnterDoes(s1, h, r, g);
        GoneStays(s1, r.id, g);
      }
    }
  }

  lemma GoneStays<H>(s: Shard<H>, id: Key, g: H)
    requires g !in s.live
    ensures g !in Vacated(s, id).live
  {}

  // ---- every operation

  /** What an operation does to a handle that is in the shard: it takes it out, or changes its entry as said. */
  lemma StepDoes<H>(s: Shard<H>, op: Op<H>, g: H)
    requires Inv(s) && g in s.live
    ensures Does(s, op, Step(s, op), g)
  {
    assert s.low <= |s.lru| && (g in s.lru <==> s.live[g].inCache && s.live[g].refs == 0) by { Parts(s, {}); }
    if Legal(s, op) {
      match op
      case OpInsert(h, r) => InsertDoes(s, h, r, g);
      case OpLookup(id) => LookupDoes(s, id, g);
      case OpRef(h) =>
      case OpRelease(h, force) => ReleaseDoes(s, h, force, g);
      case OpErase(id) => EraseDoes(s, id, g);
      case OpSetCapacity(c) => SetCapacityDoes(s, c, g);
      case OpSetStrict(b) =>
      case OpSetRatio(r) => SetRatioDoes(s, r, g);
      case OpEraseUnRef => ClearDoes(s, g);
    }
  }

  /** A handle comes into the shard only by an insertion that enters, and with what it was inserted with. */
  lemma StepBrings<H>(s: Shard<H>, op: Op<H>, g: H)
    requires Inv(s) && g !in s.live
    ensures g in Step(s, op).live <==> Legal(s, op) && op.OpInsert? && op.h == g && Entering(s, op.r)
    ensures g in Step(s, op).live ==> Agree(op.r.Fresh(), Step(s, op).live[g])
  {
    assert s.low <= |s.lru| by { Parts(s, {}); }
    if Legal(s, op) {
      match op
      case OpInsert(h, r) => InsertBrings(s, h, r, g);
      case OpLookup(id) => LookupKeeps(s, id);
      case OpRef(h) =>
      case OpRelease(h, force) => ReleaseKeeps(s, h, force);
      case OpErase(id) => EraseKeeps(s, id);
      case OpSetCapacity(c) =>
        ResizedGood(s, c);
        EvictKeeps(s.(capacity := c, poolCapacity := Share(c, s.ratio)), 0);
      case OpSetStrict(b) =>
      case OpSetRatio(r) =>
        RatioGood(s, r);
        MaintainShape(s.(ratio := r, poolCapacity := Share(s.capacity, r)), {});
      case OpEraseUnRef => ClearKeeps(s, g);
    }
  }

  lemma InsertBrings<H>(s: Shard<H>, h: H, r: Request, g: H)
    requires Inv(s) && Unknown(s, h) && s.low <= |s.lru| && g !in s.live
    ensures g in Insert(s, h, r).live <==> h == g && Entering(s, r)
    ensures g in Insert(s, h, r).live ==> Agree(r.Fresh(), Insert(s, h, r).live[g])
  {
    var s1 := EvictFromLru(s, r.charge);
    EvictKeeps(s, r.charge);
    ReadyToEnter(s, h, r);
    if Entering(s, r) {
      EnterDoes(s1, h, r, g);
      GoneStays(s1, r.id, g);
    }
  }

  /** The limits change only by the operations that set them. */
  lemma StepLimits<H>(s: Shard<H>, op: Op<H>)
    requires Inv(s)
    ensures var s' := Step(s, op);
      && s'.capacity == (if op.OpSetCapacity? then op.capacity else s.capacity)
      && s'.strict == (if op.OpSetStrict? then op.strict else s.strict)
      && s'.ratio == (if op.OpSetRatio? && Legal(s, op) then op.ratio else s.ratio)
  {
    RatioStep(s, op);
    assert s.low <= |s.lru| by { Parts(s, {}); }
    if Legal(s, op) {
      match op
      case OpInsert(h, r) => InsertLimits(s, h, r);
      case OpLookup(id) => LookupKeeps(s, id);
      case OpRef(h) =>
      case OpRelease(h, force) => ReleaseLimits(s, h, force);
      case OpErase(id) => EraseKeeps(s, id);
      case OpSetCapacity(c) =>
        ResizedGood(s, c);
        EvictKeeps(s.(capacity := c, poolCapacity := Share(c, s.ratio)), 0);
      case OpSetStrict(b) =>
      case OpSetRatio(r) =>
        RatioGood(s, r);
        MaintainShape(s.(ratio := r, poolCapacity := Share(s.capacity, r)), {});
      case OpEraseUnRef => EraseUnRefKeeps(s);
    }
  }

  lemma ReleaseLimits<H>(s: Shard<H>, h: H, force: bool)
    requires Inv(s) && h in s.live && s.live[h].refs > 0 && s.low <= |s.lru|
    ensures Release(s, h, force).capacity == s.capacity && Release(s, h, force).strict == s.strict
  {
    if s.live[h].refs == 1 && s.live[h].inCache && s.usage <= s.capacity && !force {
      CachedIsBound(s, h);
      DroppedKeeps(s, h, {h});
      LruInsertKeeps(Dropped(s, h), h);
    }
  }

  lemma InsertLimits<H>(s: Shard<H>, h: H, r: Request)
    requires Inv(s) && Unknown(s, h) && s.low <= |s.lru|
    ensures Insert(s, h, r).capacity == s.capacity && Insert(s, h, r).strict == s.strict
  {
    var s1 := EvictFromLru(s, r.charge);
    EvictKeeps(s, r.charge);
    assert s1.low <= |s1.lru| by { Parts(s1, {}); }
    if Entering(s, r) {
      var v := Vacated(s1, r.id);
      VacatedKeeps(s1, r.id);
      EnterIs(s1, h, r);
      if !r.wantsHandle {
        AddNewKeeps(v, h, r, {h});
        Parts(v, {});
        LruInsertKeeps(AddNew(v, h, r), h);
      }
    }
  }

  // ---- who is favoured

  /** The operation is a Lookup that finds the handle. */
  predicate Finds<H(==)>(s: Shard<H>, op: Op<H>, h: H) { op.OpLookup? && BoundTo(s, op.id, h) }

  /** A Lookup has found the handle since it was inserted. */
  ghost predicate Found<H>(strict: bool, ratio: real, ops: seq<Op<H>>, h: H) {
    |ops| > 0 &&
    var front, op := ops[..|ops| - 1], ops[|ops| - 1];
    var s := Reached(strict, ratio, front);
    h in s.live && (Found(strict, ratio, front, h) || Finds(s, op, h))
  }

  /** The handle was inserted with high priority. */
  ghost predicate Urgent<H>(strict: bool, ratio: real, ops: seq<Op<H>>, h: H) {
    |ops| > 0 &&
    var front, op := ops[..|ops| - 1], ops[|ops| - 1];
    if h in Reached(strict, ratio, front).live then Urgent(strict, ratio, front, h)
    else op.OpInsert? && op.h == h && op.r.isHighPri
  }

  /**
   A handle goes to the high-priority pool, when it is put on the list, exactly if there is such a pool and the handle
   was inserted with high priority or a Lookup has found it since.
   */
  lemma {:induction false} FavouredIs<H>(strict: bool, ratio: real, ops: seq<Op<H>>, h: H)
    requires ratio >= 0.0 && h in Reached(strict, ratio, ops).live
    ensures var s := Reached(strict, ratio, ops);
      && s.live[h].hasHit == Found(strict, ratio, ops, h) && s.live[h].isHighPri == Urgent(strict, ratio, ops, h)
      && (Favoured<H>(s.ratio, s.live[h]) <==>
          s.ratio > 0.0 && (Urgent(strict, ratio, ops, h) || Found(strict, ratio, ops, h)))
    decreases |ops|
  {
    if |ops| > 0 {
      var front, op := ops[..|ops| - 1], ops[|ops| - 1];
      var s := Reached(strict, ratio, front);
      Reachable(strict, ratio, front);
      if h in s.live {
        FavouredIs(strict, ratio, front, h);
        StepDoes(s, op, h);
      } else {
        StepBrings(s, op, h);
      }
    }
  }
}
