/** What the methods of the linked shard rely on, of the shard as a value. */
module LruSteps {
  import opened Basics
  import opened Seals
  import opened LruModel
  import opened LruInvariant
  import opened LruOperations

  /**
   What MaintainPoolSize relies on: `high_pri_pool_usage_` is the total over the high-priority stretch of the list.
   */
  ghost predicate Pooled<H>(s: Shard<H>) {
    forall seal: Seal :: Pools(seal, s)
  }

  ghost predicate Pools<H>(seal: Seal, s: Shard<H>) {
    Shaped(s, {}) && s.highUsage == ListCharge(s.live, s.lru[s.low..])
  }

  lemma PooledStep<H>(s: Shard<H>)
    requires Pooled(s) && s.highUsage as real > s.poolCapacity
    ensures s.low < |s.lru| && s.lru[s.low] in s.live && Pooled(Overflow(s))
    ensures LruModel.MaintainPoolSize(s) == LruModel.MaintainPoolSize(Overflow(s))
  {
    assert Pools(Seal, s);
    OverflowKeeps(s, {});
    var s1 := Overflow(s);
    SuffixStep(s.live, s.lru, s.low);
    ListSame(s.live, s1.live, s.lru[s1.low..]);
  }

  lemma Listed<H>(s: Shard<H>, h: H)
    requires Listable(s, h)
    ensures h !in s.lru && forall g :: g in s.lru ==> g in s.live
  {
    Parts(s, {h});
  }

  /** What is on the list or in the table is live. */
  lemma Within<H>(s: Shard<H>)
    requires Good(s)
    ensures (forall h :: h in s.lru ==> h in s.live) && s.table.Values <= s.live.Keys
  {
    Parts(s, {});
  }

  lemma NotListed<H>(s: Shard<H>)
    requires Good(s) && |s.lru| > 0 && s.lru[0] in s.live
    ensures s.lru[0] !in LruRemove(s, s.lru[0]).lru
  {
    LruRemoveKeeps(s, {}, s.lru[0], {s.lru[0]});
  }

  lemma RatioPooled<H>(s: Shard<H>, ratio: real)
    requires Good(s) && ratio >= 0.0
    ensures Pooled(s.(ratio := ratio, poolCapacity := Share(s.capacity, ratio)))
  {
    Parts(s, {});
    ShareGrows(0, s.capacity, ratio);
  }

  lemma TabledIsListed<H>(s: Shard<H>, id: Key)
    requires Good(s) && id in s.table && s.table[id] in s.live
    ensures s.table[id] in s.lru <==> s.live[s.table[id]].refs == 0
  {
    Parts(s, {});
  }

  lemma SplitInRange<H>(s: Shard<H>)
    requires Good(s)
    ensures s.low <= |s.lru| && Distinct(s.lru)
  {
    Parts(s, {});
  }

  lemma OffTheList<H>(s: Shard<H>, h: H)
    requires Good(s) && h in s.live && s.live[h].refs > 0
    ensures h !in s.lru
  {
    Parts(s, {});
  }

  lemma DroppedListable<H>(s: Shard<H>, h: H)
    requires Good(s) && h in s.live && s.live[h].refs == 1 && s.live[h].inCache
    ensures Listable(Dropped(s, h), h)
  {
    CachedIsBound(s, h);
    DroppedKeeps(s, h, {h});
  }

  lemma ErasedIsGone<H>(s: Shard<H>, id: Key)
    requires Good(s) && id in s.table && s.table[id] in s.live
    ensures s.table[id] in LruModel.Erase(s, id).live <==> s.live[s.table[id]].refs > 0
    ensures Distinct(s.lru)
  {
    Parts(s, {});
  }

  /** Displacing the handle that had the key is evicting it first and then adding the new handle. */
  lemma PriorDisplaced<H>(s: Shard<H>, h: H, r: Request, prior: H)
    requires Good(s) && Unknown(s, h) && r.id in s.table && s.table[r.id] == prior
    ensures prior in s.live && prior != h && (prior in s.lru <==> s.live[prior].refs == 0) && Distinct(s.lru)
    ensures Displace(AddNew(s, h, r), prior) == AddNew(Vacated(s, r.id), h, r)
  {
    Parts(s, {});
    DisplaceThenAdd(s, h, r, prior);
  }

  lemma NewListable<H>(s: Shard<H>, h: H, r: Request)
    requires Good(s) && Unknown(s, h) && !r.wantsHandle
    ensures var s2 := AddNew(Vacated(s, r.id), h, r); Listable(s2, h) && s2.low <= |s2.lru|
  {
    VacatedKeeps(s, r.id);
    AddNewKeeps(Vacated(s, r.id), h, r, {h});
    SplitInRange(Vacated(s, r.id));
  }

  /** What an eviction loop is for. */
  datatype Plan = MakeRoom(charge: nat) | Everything

  function Outcome<H>(plan: Plan, s: Shard<H>): Shard<H> {
    match plan
    case MakeRoom(charge) => EvictFromLru(s, charge)
    case Everything => LruModel.EraseUnRefEntries(s)
  }

  predicate GoesOn<H>(plan: Plan, s: Shard<H>) {
    |s.lru| > 0 && (plan.MakeRoom? ==> s.usage + plan.charge > s.capacity)
  }

  ghost predicate LeadsTo<H>(seal: Seal, plan: Plan, s: Shard<H>, goal: Shard<H>) { Outcome(plan, s) == goal }

  /** From this state the loop gets to that one. */
  ghost predicate Leads<H>(plan: Plan, s: Shard<H>,
                           goal: Shard<H>) { forall seal: Seal :: LeadsTo(seal, plan, s, goal) }

  lemma LeadsOn<H>(plan: Plan, s: Shard<H>, goal: Shard<H>)
    requires Leads(plan, s, goal) && GoesOn(plan, s) && s.lru[0] in s.live
    ensures Leads(plan, EvictOldest(s), goal)
  {
    assert LeadsTo(Seal, plan, s, goal);
  }

  lemma Arrives<H>(plan: Plan, s: Shard<H>, goal: Shard<H>)
    requires Leads(plan, s, goal) && !GoesOn(plan, s)
    ensures s == goal
  {
    assert LeadsTo(Seal, plan, s, goal);
  }

  /** What Insert does once it has evicted. */
  function Settle<H>(s: Shard<H>, h: H, r: Request): Shard<H>
    requires s.low <= |s.lru|
  {
    if !Refused(s, r) then Enter(s, h, r) else if r.wantsHandle then s else s.(freed := s.freed + [h])
  }

  lemma InsertOk<H>(s: Shard<H>, h: H, r: Request, s1: Shard<H>)
    requires Inv(s) && Unknown(s, h) && s.low <= |s.lru| && s1 == EvictFromLru(s, r.charge)
    ensures Inv(LruModel.Insert(s, h, r)) && Good(s1) && Unknown(s1, h) && s1.low <= |s1.lru|
    ensures s1.live.Keys <= s.live.Keys
  {
    if Entering(s, r) { InsertEnters(s, h, r); } else { InsertRefused(s, h, r); }
    EvictKeeps(s, r.charge);
    SplitInRange(s1);
  }

  lemma PinnedTotal<H>(s: Shard<H>)
    requires Good(s)
    ensures s.usage == TotalCharge(s.live) >= 0 && s.usage - s.lruUsage == TotalCharge(Referenced(s.live)) >= 0
  {
    PinnedIsReferenced(s);
    TotalNonNegative(s.live);
    TotalNonNegative(Referenced(s.live));
  }

  lemma HeadPooled<H>(s: Shard<H>, h: H)
    requires Listable(s, h) && s.low <= |s.lru|
    ensures Pooled(AtHead(s, h)) && AtHead(s, h).live.Keys == s.live.Keys
  {
    AtHeadKeeps(s, h);
    Parts(AtHead(s, h).(lruUsage := s.lruUsage + s.live[h].charge), {});
  }

  /** The limits and the totals. */
  datatype Totals = Totals(capacity: nat, strict: bool, ratio: real, poolCapacity: real, usage: int, lruUsage: int,
                           highUsage: int)

  function TotalsOf<H>(s: Shard<H>): Totals {
    Totals(s.capacity, s.strict, s.ratio, s.poolCapacity, s.usage, s.lruUsage, s.highUsage)
  }
}
