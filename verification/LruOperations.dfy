/** Every operation of the LRU shard keeps the invariant, and what each does to the table and to what is freed. */
module LruOperations {
  import opened Basics
  import opened LruModel
  import opened LruInvariant

  /** The key, the value and the charge of a handle never change. */
  ghost predicate SameEntries<H>(s: Shard<H>, s': Shard<H>) {
    forall h :: h in s.live && h in s'.live ==>
      s'.live[h].id == s.live[h].id && s'.live[h].value == s.live[h].value && s'.live[h].charge == s.live[h].charge
  }

  /** No key is bound anew: the table only loses bindings. */
  ghost predicate OnlyUnbinds<H>(s: Shard<H>, s': Shard<H>) {
    forall id :: id in s'.table ==> id in s.table && s'.table[id] == s.table[id]
  }

  /** What an operation other than the one entering a new handle does: no handle appears, and what it frees was live. */
  ghost predicate OnlyFrees<H>(s: Shard<H>, s': Shard<H>) {
    && (forall h :: h in s'.live ==> h in s.live)
    && s.freed <= s'.freed
    && (forall h :: h in s'.freed && h !in s.freed ==> h in s.live && h !in s'.live)
  }

  ghost predicate Tame<H>(s: Shard<H>, s': Shard<H>) {
    SameEntries(s, s') && OnlyUnbinds(s, s') && OnlyFrees(s, s')
  }

  lemma TameTwice<H>(a: Shard<H>, b: Shard<H>, c: Shard<H>)
    requires Tame(a, b) && Tame(b, c)
    ensures Tame(a, c)
  {}

  // ---- eviction

  lemma OldestIndex<H>(xs: seq<H>)
    requires |xs| > 0
    ensures IndexOf(xs, xs[0]) == 0 && Without(xs, 0) == xs[1..]
  {}

  lemma EvictOldestGood<H>(s: Shard<H>)
    requires Good(s) && |s.lru| > 0 && s.lru[0] in s.live
    ensures Good(EvictOldest(s))
  {
    var h := s.lru[0];
    Parts(s, {});
    LruRemoveKeeps(s, {}, h, {h});
    UnlistKeeps(LruRemove(s, h), {h}, h);
    FreeKeeps(Unlist(LruRemove(s, h), h), {h}, h, {});
  }

  /** What evicting the oldest entry does, field by field. */
  ghost predicate OldestGone<H>(s: Shard<H>, s': Shard<H>)
    requires |s.lru| > 0 && s.lru[0] in s.live
  {
    var h := s.lru[0];
    && s'.lru == s.lru[1..] && s'.usage == s.usage - s.live[h].charge && s'.live == s.live - {h}
    && s'.table == s.table - {s.live[h].id} && s'.freed == s.freed + [h]
    && s'.capacity == s.capacity && s'.strict == s.strict && s'.ratio == s.ratio && s'.poolCapacity == s.poolCapacity
    && s'.highUsage <= s.highUsage
  }

  lemma EvictOldestEffect<H>(s: Shard<H>)
    requires |s.lru| > 0 && s.lru[0] in s.live
    ensures OldestGone(s, EvictOldest(s))
  {
    OldestIndex(s.lru);
    assert EvictOldest(s).live == s.live - {s.lru[0]};
  }

  lemma EvictOldestKeeps<H>(s: Shard<H>)
    requires Good(s) && |s.lru| > 0 && s.lru[0] in s.live
    ensures Good(EvictOldest(s)) && Tame(s, EvictOldest(s)) && OldestGone(s, EvictOldest(s))
  {
    Parts(s, {});
    EvictOldestGood(s);
    EvictOldestEffect(s);
  }

  ghost function Elements<H>(xs: seq<H>): set<H> { set h | h in xs }

  /**
   EvictFromLRU frees the shortest oldest-first stretch of the list that makes room for the charge, or the whole
   list if none does; nothing else leaves the cache.
   */
  ghost predicate ShortestPrefix<H>(s: Shard<H>, charge: nat, s': Shard<H>, k: nat) {
    && k <= |s.lru| && s'.lru == s.lru[k..] && s'.freed == s.freed + s.lru[..k]
    && s'.usage == s.usage - ListCharge(s.live, s.lru[..k])
    && s'.live.Keys == s.live.Keys - Elements(s.lru[..k])
    && (s'.usage + charge <= s.capacity || k == |s.lru|)
    && (forall j :: 0 <= j < k ==> s.usage - ListCharge(s.live, s.lru[..j]) + charge > s.capacity)
  }

  ghost predicate SameLimits<H>(s: Shard<H>, s': Shard<H>) {
    && s'.capacity == s.capacity && s'.strict == s.strict && s'.ratio == s.ratio && s'.poolCapacity == s.poolCapacity
    && s'.highUsage <= s.highUsage
  }

  ghost predicate SameShare<H>(s: Shard<H>, s': Shard<H>) {
    s'.capacity == s.capacity && s'.ratio == s.ratio && s'.poolCapacity == s.poolCapacity
  }

  lemma {:induction false} EvictKeeps<H>(s: Shard<H>, charge: nat)
    requires Good(s)
    ensures var s' := EvictFromLru(s, charge); Good(s') && Tame(s, s') && SameLimits(s, s')
    decreases |s.lru|
  {
    Parts(s, {});
    if s.usage + charge > s.capacity && |s.lru| > 0 {
      EvictOldestKeeps(s);
      EvictKeeps(EvictOldest(s), charge);
      TameTwice(s, EvictOldest(s), EvictFromLru(EvictOldest(s), charge));
    }
  }

  lemma {:induction false} EvictFrees<H>(s: Shard<H>, charge: nat) returns (k: nat)
    requires Good(s)
    ensures ShortestPrefix(s, charge, EvictFromLru(s, charge), k)
    decreases |s.lru|
  {
    Parts(s, {});
    if s.usage + charge > s.capacity && |s.lru| > 0 {
      var s1 := EvictOldest(s);
      EvictOldestGood(s);
      EvictOldestEffect(s);
      var k1 := EvictFrees(s1, charge);
      k := k1 + 1;
      PrefixLonger(s, charge, s1, EvictFromLru(s1, charge), k1);
    } else {
      k := 0;
      PrefixNone(s, charge);
    }
  }

  lemma PrefixNone<H>(s: Shard<H>, charge: nat)
    requires s.usage + charge <= s.capacity || s.lru == []
    ensures ShortestPrefix(s, charge, s, 0)
  {
    assert s.lru[0..] == s.lru && s.lru[..0] == [];
    assert s.freed + [] == s.freed;
  }

  lemma PrefixCharge<H>(live: map<H, Entry>, live1: map<H, Entry>, lru: seq<H>, j: nat)
    requires 0 < j <= |lru| && Distinct(lru) && live1 == live - {lru[0]}
    ensures ListCharge(live, lru[..j]) == ChargeOf(live, lru[0]) + ListCharge(live1, lru[1..][..j - 1])
  {
    assert lru[..j] == [lru[0]] + lru[1..][..j - 1];
    ListAppend(live, [lru[0]], lru[1..][..j - 1]);
    ListOne(live, lru[0]);
    ListSame(live, live1, lru[1..][..j - 1]);
  }

  lemma PrefixOver<H>(s: Shard<H>, charge: nat, s1: Shard<H>, j: nat)
    requires Distinct(s.lru) && |s.lru| > 0 && s.lru[0] in s.live && OldestGone(s, s1) && s.usage + charge > s.capacity
    requires 0 < j <= |s.lru| ==> s1.usage - ListCharge(s1.live, s1.lru[..j - 1]) + charge > s.capacity
    requires j <= |s.lru|
    ensures s.usage - ListCharge(s.live, s.lru[..j]) + charge > s.capacity
  {
    if j > 0 {
      PrefixCharge(s.live, s1.live, s.lru, j);
    } else {
      assert s.lru[..0] == [];
    }
  }

  lemma PrefixKeys<H>(s: Shard<H>, s1: Shard<H>, s': Shard<H>, k: nat)
    requires |s.lru| > 0 && s.lru[0] in s.live && OldestGone(s, s1) && k < |s.lru|
    requires s'.lru == s1.lru[k..] && s'.freed == s1.freed + s1.lru[..k]
    requires s'.live.Keys == s1.live.Keys - Elements(s1.lru[..k])
    ensures s'.lru == s.lru[k + 1..] && s'.freed == s.freed + s.lru[..k + 1]
    ensures s'.live.Keys == s.live.Keys - Elements(s.lru[..k + 1])
  {
    assert s.lru[..k + 1] == [s.lru[0]] + s.lru[1..][..k];
    assert Elements(s.lru[..k + 1]) == {s.lru[0]} + Elements(s1.lru[..k]);
  }

  lemma PrefixLonger<H>(s: Shard<H>, charge: nat, s1: Shard<H>, s': Shard<H>, k: nat)
    requires Distinct(s.lru) && |s.lru| > 0 && s.lru[0] in s.live && OldestGone(s, s1) && s.usage + charge > s.capacity
    requires ShortestPrefix(s1, charge, s', k)
    ensures ShortestPrefix(s, charge, s', k + 1)
  {
    PrefixKeys(s, s1, s', k);
    PrefixCharge(s.live, s1.live, s.lru, k + 1);
    forall j | 0 <= j < k + 1 ensures s.usage - ListCharge(s.live, s.lru[..j]) + charge > s.capacity {
      PrefixOver(s, charge, s1, j);
    }
  }

  // ---- what eviction leaves of the high-priority pool

  /** How many of the oldest entries must go, one by one, before the charge fits. */
  function ToEvict<H>(live: map<H, Entry>, lru: seq<H>, usage: int, charge: nat, capacity: nat): (k: nat)
    ensures k <= |lru|
  {
    if usage + charge <= capacity || |lru| == 0 then 0
    else 1 + ToEvict(live, lru[1..], usage - ChargeOf(live, lru[0]), charge, capacity)
  }

  lemma {:induction false} ToEvictSame<H>(live: map<H, Entry>, live': map<H, Entry>, lru: seq<H>, usage: int,
                                          charge: nat, capacity: nat)
    requires forall h :: h in lru ==> ChargeOf(live, h) == ChargeOf(live', h)
    ensures ToEvict(live, lru, usage, charge, capacity) == ToEvict(live', lru, usage, charge, capacity)
  {
    if usage + charge > capacity && |lru| > 0 {
      assert lru[0] in lru && forall h :: h in lru[1..] ==> h in lru;
      ToEvictSame(live, live', lru[1..], usage - ChargeOf(live, lru[0]), charge, capacity);
    }
  }

  /** The list, and where it is split, after the eviction of its first `k` entries. */
  ghost predicate Trimmed<H>(live: map<H, Entry>, lru: seq<H>, low: nat, live': map<H, Entry>, lru': seq<H>, low': nat,
                             k: nat) {
    && k <= |lru| && lru' == lru[k..] && low' == Max(low - k, 0)
    && forall h :: h in lru' ==> ChargeOf(live', h) == ChargeOf(live, h)
  }

  lemma TrimmedMore<H>(live: map<H, Entry>, lru: seq<H>, low: nat, live1: map<H, Entry>, low1: nat,
                       live2: map<H, Entry>, lru2: seq<H>, low2: nat, k: nat)
    requires |lru| > 0 && low1 == Max(low - 1, 0) && Distinct(lru) && live1 == live - {lru[0]}
    requires Trimmed(live1, lru[1..], low1, live2, lru2, low2, k)
    ensures Trimmed(live, lru, low, live2, lru2, low2, k + 1)
  {
    assert lru[1..][k..] == lru[k + 1..];
    forall h | h in lru2 ensures ChargeOf(live1, h) == ChargeOf(live, h) {
      assert h in lru[1..];
    }
  }

  lemma OldestSplit<H>(s: Shard<H>)
    requires |s.lru| > 0 && s.lru[0] in s.live
    ensures EvictOldest(s).low == Max(s.low - 1, 0)
  {
    OldestIndex(s.lru);
  }

  lemma {:induction false} EvictTrims<H>(s: Shard<H>, charge: nat)
    requires Good(s)
    ensures EvictsTo(s, EvictFromLru(s, charge), charge)
    decreases |s.lru|
  {
    assert Distinct(s.lru) && (forall h :: h in s.lru ==> h in s.live) by { Parts(s, {}); }
    if s.usage + charge > s.capacity && |s.lru| > 0 {
      var s1 := EvictOldest(s);
      EvictOldestGood(s);
      EvictOldestEffect(s);
      OldestSplit(s);
      EvictTrims(s1, charge);
      EvictStep(s, s1, EvictFromLru(s1, charge), charge);
    } else {
      assert s.lru[0..] == s.lru;
    }
  }

  ghost predicate EvictsTo<H>(s: Shard<H>, s': Shard<H>, charge: nat) {
    Trimmed(s.live, s.lru, s.low, s'.live, s'.lru, s'.low, ToEvict(s.live, s.lru, s.usage, charge, s.capacity))
  }

  lemma EvictStep<H>(s: Shard<H>, s1: Shard<H>, s': Shard<H>, charge: nat)
    requires |s.lru| > 0 && s.lru[0] in s.live && Distinct(s.lru) && OldestGone(s, s1) && s1.low == Max(s.low - 1, 0)
    requires s.usage + charge > s.capacity && EvictsTo(s1, s', charge)
    ensures EvictsTo(s, s', charge)
  {
    var k := ToEvict(s1.live, s1.lru, s1.usage, charge, s1.capacity);
    TrimmedMore(s.live, s.lru, s.low, s1.live, s1.low, s'.live, s'.lru, s'.low, k);
    ToEvictStep(s.live, s.lru, s.usage, charge, s.capacity, s1.live);
  }

  lemma ToEvictStep<H>(live: map<H, Entry>, lru: seq<H>, usage: int, charge: nat, capacity: nat, live1: map<H, Entry>)
    requires |lru| > 0 && Distinct(lru) && live1 == live - {lru[0]} && usage + charge > capacity
    ensures ToEvict(live, lru, usage, charge, capacity) ==
      1 + ToEvict(live1, lru[1..], usage - ChargeOf(live, lru[0]), charge, capacity)
  {
    ToEvictSame(live, live1, lru[1..], usage - ChargeOf(live, lru[0]), charge, capacity);
  }

  /** What is left of the high-priority pool once the capacity is set. */
  function PoolLeft<H>(s: Shard<H>, capacity: nat): int
    requires s.low <= |s.lru|
  {
    var k := ToEvict(s.live, s.lru, s.usage, 0, capacity);
    ListCharge(s.live, s.lru[Max(s.low, k)..])
  }

  lemma TrimmedPool<H>(live: map<H, Entry>, lru: seq<H>, low: nat, live': map<H, Entry>, lru': seq<H>, low': nat,
                       k: nat)
    requires Trimmed(live, lru, low, live', lru', low', k) && low <= |lru|
    ensures low' <= |lru'| && ListCharge(live', lru'[low'..]) == ListCharge(live, lru[Max(low, k)..])
  {
    assert lru'[low'..] == lru[Max(low, k)..];
    ListSame(live', live, lru'[low'..]);
  }

  lemma ResizedGood<H>(s: Shard<H>, capacity: nat)
    requires Good(s)
    ensures Good(s.(capacity := capacity, poolCapacity := Share(capacity, s.ratio)))
  {
    Parts(s, {});
    ShareGrows(0, capacity, s.ratio);
    Whole(s.(capacity := capacity, poolCapacity := Share(capacity, s.ratio)), {});
  }

  lemma InPool<H>(s: Shard<H>)
    requires Good(s)
    ensures s.low <= |s.lru| && s.highUsage == ListCharge(s.live, s.lru[s.low..])
  {
    Parts(s, {});
  }

  /** Setting the capacity leaves the pool within its share exactly if what is left of it fits the new share. */
  lemma SetCapacityPoolExactly<H>(s: Shard<H>, capacity: nat)
    requires Good(s)
    ensures s.low <= |s.lru|
    ensures PoolOk(SetCapacity(s, capacity)) <==> PoolLeft(s, capacity) as real <= Share(capacity, s.ratio)
    ensures s.usage <= capacity ==> PoolLeft(s, capacity) == s.highUsage
  {
    var share := Share(capacity, s.ratio);
    var s1 := s.(capacity := capacity, poolCapacity := share);
    ResizedGood(s, capacity);
    InPool(s);
    PoolAfter(s1);
  }

  lemma PoolAfter<H>(s: Shard<H>)
    requires Good(s) && s.low <= |s.lru|
    ensures var s' := EvictFromLru(s, 0);
      s'.highUsage == PoolLeft(s, s.capacity) && s'.poolCapacity == s.poolCapacity
  {
    var s' := EvictFromLru(s, 0);
    EvictTrims(s, 0);
    EvictKeeps(s, 0);
    InPool(s');
    TrimmedPool(s.live, s.lru, s.low, s'.live, s'.lru, s'.low, ToEvict(s.live, s.lru, s.usage, 0, s.capacity));
  }

  lemma {:induction false} EraseUnRefKeeps<H>(s: Shard<H>)
    requires Good(s)
    ensures var s' := EraseUnRefEntries(s);
      && Good(s') && Tame(s, s') && s'.lru == [] && SameLimits(s, s')
    decreases |s.lru|
  {
    Parts(s, {});
    if |s.lru| > 0 {
      EvictOldestKeeps(s);
      EraseUnRefKeeps(EvictOldest(s));
      TameTwice(s, EvictOldest(s), EraseUnRefEntries(EvictOldest(s)));
    }
  }

  // ---- the public methods

  /** The invariant of a shard between two calls. */
  ghost predicate Inv<H>(s: Shard<H>) { Good(s) && FullOnlyIfPinned(s) }

  lemma EmptyOk<H>(strict: bool, ratio: real)
    requires ratio >= 0.0
    ensures Inv(Empty<H>(strict, ratio)) && PoolOk(Empty<H>(strict, ratio)) && ShareOk(Empty<H>(strict, ratio))
  {
    Whole(Empty<H>(strict, ratio), {});
  }

  lemma SetCapacityInv<H>(s: Shard<H>, capacity: nat)
    requires Inv(s)
    ensures var s' := SetCapacity(s, capacity); Inv(s') && Tame(s, s')
    ensures SameLimits(s.(capacity := capacity, poolCapacity := Share(capacity, s.ratio)), SetCapacity(s, capacity))
  {
    assert s.ratio >= 0.0 by { Parts(s, {}); }
    ShareGrows(0, capacity, s.ratio);
    SetCapacityEvicts(s, s.(capacity := capacity, poolCapacity := Share(capacity, s.ratio)));
  }

  lemma SetCapacityPool<H>(s: Shard<H>, capacity: nat)
    requires Inv(s) && ShareOk(s)
    ensures ShareOk(SetCapacity(s, capacity))
    ensures (PoolOk(s) && capacity >= s.capacity ==> PoolOk(SetCapacity(s, capacity)))
  {
    SetCapacityInv(s, capacity);
    if capacity >= s.capacity {
      assert s.ratio >= 0.0 by { Parts(s, {}); }
      ShareGrows(s.capacity, capacity, s.ratio);
    }
  }

  lemma SetCapacityEvicts<H>(s: Shard<H>, s1: Shard<H>)
    requires Good(s) && s1 == s.(capacity := s1.capacity, poolCapacity := s1.poolCapacity) && s1.poolCapacity >= 0.0
    ensures var s' := EvictFromLru(s1, 0); Inv(s') && Tame(s, s') && SameLimits(s1, s')
  {
    Parts(s, {});
    Whole(s1, {});
    EvictKeeps(s1, 0);
    var k := EvictFrees(s1, 0);
  }

  lemma ShareGrows(capacity: nat, larger: nat, ratio: real)
    requires ratio >= 0.0 && capacity <= larger
    ensures 0.0 <= Share(capacity, ratio) <= Share(larger, ratio)
  {
    assert (larger as real - capacity as real) * ratio >= 0.0;
  }

  /** `high_pri_pool_capacity_` is the share of the capacity that the ratio gives. */
  ghost predicate ShareOk<H>(s: Shard<H>) { s.poolCapacity == Share(s.capacity, s.ratio) }

  lemma SetRatioMaintains<H>(s: Shard<H>, s1: Shard<H>)
    requires Inv(s) && s1 == s.(ratio := s1.ratio, poolCapacity := s1.poolCapacity) && s1.ratio >= 0.0
    requires s1.poolCapacity >= 0.0
    ensures var s' := MaintainPoolSize(s1); Inv(s') && Tame(s, s') && PoolOk(s') && OnlyPools(s1, s')
  {
    Parts(s, {});
    Whole(s1, {});
    MaintainKeeps(s1, {});
  }

  lemma SetRatioKeeps<H>(s: Shard<H>, ratio: real)
    requires Inv(s) && ratio >= 0.0
    ensures var s' := SetHighPriorityPoolRatio(s, ratio); Inv(s') && Tame(s, s') && ShareOk(s') && PoolOk(s')
  {
    ShareGrows(0, s.capacity, ratio);
    SetRatioMaintains(s, s.(ratio := ratio, poolCapacity := Share(s.capacity, ratio)));
  }

  lemma LookupGood<H>(s: Shard<H>, id: Key)
    requires Good(s) && id in s.table
    ensures Good(Lookup(s, id))
  {
    Parts(s, {});
    var h := s.table[id];
    var e := s.live[h].(refs := s.live[h].refs + 1, hasHit := true);
    if s.live[h].refs == 0 {
      LruRemoveKeeps(s, {}, h, {h});
      OffListKeeps(LruRemove(s, h), {h}, h, e, {});
    } else {
      OffListKeeps(s, {}, h, e, {});
    }
  }

  lemma LookupKeeps<H>(s: Shard<H>, id: Key)
    requires Inv(s)
    ensures var s' := Lookup(s, id);
      && Inv(s') && Tame(s, s') && SameLimits(s, s')
      && (id in s.table ==> s.table[id] in s'.live && s'.live[s.table[id]].refs == s.live[s.table[id]].refs + 1)
  {
    if id in s.table { LookupGood(s, id); }
    Parts(s, {});
  }

  lemma RefKeeps<H>(s: Shard<H>, h: H)
    requires Inv(s) && h in s.live && s.live[h].refs > 0
    ensures Inv(Ref(s, h)) && Tame(s, Ref(s, h))
  {
    RefGood(s, h);
    assert Tame(s, Ref(s, h)) by { Parts(s, {}); }
  }

  lemma RefGood<H>(s: Shard<H>, h: H)
    requires Good(s) && h in s.live && s.live[h].refs > 0
    ensures Good(Ref(s, h))
  {
    assert h !in s.lru && StatesOk(s, {}) && TableOk(s, {}) by { Parts(s, {}); }
    OffListKeeps(s, {}, h, s.live[h].(refs := s.live[h].refs + 1), {});
  }

  /** The state after the reference is dropped: the handle is between two places if it was the last one. */
  function Dropped<H>(s: Shard<H>, h: H): Shard<H>
    requires h in s.live && s.live[h].refs > 0
  {
    s.(live := s.live[h := s.live[h].(refs := s.live[h].refs - 1)])
  }

  lemma DroppedKeeps<H>(s: Shard<H>, h: H, x: set<H>)
    requires Good(s) && h in s.live && s.live[h].refs > 0 && x == if s.live[h].refs > 1 then {} else {h}
    ensures Nearly(Dropped(s, h), x)
  {
    Parts(s, {});
    OffListKeeps(s, {}, h, s.live[h].(refs := s.live[h].refs - 1), x);
  }

  lemma CachedIsBound<H>(s: Shard<H>, h: H)
    requires Good(s) && h in s.live && s.live[h].inCache
    ensures s.live[h].id in s.table && s.table[s.live[h].id] == h
    ensures h in s.lru <==> s.live[h].refs == 0
  {
    Parts(s, {});
  }

  lemma ReleaseFrees<H>(s: Shard<H>, h: H, force: bool)
    requires Inv(s) && h in s.live && s.live[h].refs == 1 && s.low <= |s.lru| && !s.live[h].inCache
    ensures var s' := Release(s, h, force); Inv(s') && Tame(s, s') && SameLimits(s, s')
  {
    DroppedKeeps(s, h, {h});
    FreeKeeps(Dropped(s, h), {h}, h, {});
  }

  lemma ReleaseErases<H>(s: Shard<H>, h: H, force: bool)
    requires Inv(s) && h in s.live && s.live[h].refs == 1 && s.low <= |s.lru| && s.live[h].inCache
    requires s.usage > s.capacity || force
    ensures var s' := Release(s, h, force); Inv(s') && Tame(s, s') && SameLimits(s, s')
  {
    var s1 := Dropped(s, h);
    CachedIsBound(s, h);
    DroppedKeeps(s, h, {h});
    UnlistKeeps(s1, {h}, h);
    FreeKeeps(Unlist(s1, h), {h}, h, {});
  }

  /** Putting a handle on the list changes no entry but for pool flags, and nothing in the table. */
  lemma ListedTame<H>(s: Shard<H>, s1: Shard<H>, s2: Shard<H>)
    requires Tame(s, s1) && OnlyPools(s1, s2.(lru := s1.lru, low := s1.low, lruUsage := s1.lruUsage))
    ensures Tame(s, s2) && s2.usage == s1.usage && SameShare(s1, s2)
  {
    assert s2.live.Keys == s1.live.Keys;
  }

  lemma ReleaseLists<H>(s: Shard<H>, h: H, s2: Shard<H>)
    requires Inv(s) && h in s.live && s.live[h].refs == 1 && s.low <= |s.lru| && s.live[h].inCache
    requires s.usage <= s.capacity
    requires s2 == LruInsert(Dropped(s, h), h)
    ensures Inv(s2) && Tame(s, s2) && SameShare(s, s2) && (PoolOk(s) ==> PoolOk(s2))
  {
    var s1 := Dropped(s, h);
    CachedIsBound(s, h);
    DroppedKeeps(s, h, {h});
    LruInsertKeeps(s1, h);
    ListedTame(s, s1, s2);
  }

  lemma ReleaseKeeps<H>(s: Shard<H>, h: H, force: bool)
    requires Inv(s) && h in s.live && s.live[h].refs > 0 && s.low <= |s.lru|
    ensures var s' := Release(s, h, force); Inv(s') && Tame(s, s') && SameShare(s, s') && (PoolOk(s) ==> PoolOk(s'))
  {
    if s.live[h].refs > 1 {
      DroppedKeeps(s, h, {});
    } else if !s.live[h].inCache {
      ReleaseFrees(s, h, force);
    } else if s.usage > s.capacity || force {
      ReleaseErases(s, h, force);
    } else {
      ReleaseLists(s, h, LruInsert(Dropped(s, h), h));
    }
  }

  // ---- a handle loses its place in the table

  function Evicted<H>(s: Shard<H>, h: H): Shard<H>
    requires h in s.live
  {
    if h in s.lru then Free(Unlist(LruRemove(s, h), h), h) else Unlist(s, h)
  }

  lemma EvictedGood<H>(s: Shard<H>, h: H)
    requires Good(s) && h in s.live && s.live[h].inCache
    ensures Good(Evicted(s, h))
  {
    CachedIsBound(s, h);
    if h in s.lru {
      LruRemoveKeeps(s, {}, h, {h});
      UnlistKeeps(LruRemove(s, h), {h}, h);
      FreeKeeps(Unlist(LruRemove(s, h), h), {h}, h, {});
    } else {
      UnlistReferenced(s, h);
    }
  }

  lemma UnlistReferenced<H>(s: Shard<H>, h: H)
    requires Good(s) && h in s.live && s.live[h].inCache && h !in s.lru
    ensures Good(Unlist(s, h))
  {
    CachedIsBound(s, h);
    Parts(s, {});
    OffListKeeps(s, {}, h, s.live[h], {h});
    UnlistKeeps(s, {h}, h);
    OffListKeeps(Unlist(s, h), {h}, h, Unlist(s, h).live[h], {});
    assert Unlist(s, h).live[h := Unlist(s, h).live[h]] == Unlist(s, h).live;
  }

  lemma EvictedTame<H>(s: Shard<H>, h: H)
    requires h in s.live && (h in s.lru ==> s.live[h].refs == 0) && FreedOk(s)
    ensures Tame(s, Evicted(s, h)) && SameLimits(s, Evicted(s, h)) && s.live[h].id !in Evicted(s, h).table
    ensures Evicted(s, h).usage <= s.usage && (s.lru == [] ==> Evicted(s, h).lru == [])
  {}

  /** Displacing a handle whose binding is already gone is evicting it. */
  lemma DisplaceIs<H>(s: Shard<H>, h: H, table: map<Key, H>)
    requires h in s.live && (h in s.lru <==> s.live[h].refs == 0)
    ensures Displace(s.(table := table), h) == Evicted(s, h).(table := table)
  {
    var e := s.live[h].(inCache := false);
    if h in s.lru {
      assert s.live[h := e] - {h} == s.live - {h};
      assert LruRemove(s.(table := table, live := s.live[h := e]), h) ==
          LruRemove(s, h).(table := table, live := s.live[h := e]);
    }
  }

  lemma EraseIs<H>(s: Shard<H>, id: Key)
    requires Good(s) && id in s.table && s.table[id] in s.live
    ensures Erase(s, id) == Evicted(s, s.table[id]) && s.live[s.table[id]].inCache
  {
    Parts(s, {});
    var h := s.table[id];
    DisplaceIs(s, h, s.table - {id});
    assert Evicted(s, h).table == s.table - {id};
  }

  lemma EraseKeeps<H>(s: Shard<H>, id: Key)
    requires Inv(s)
    ensures var s' := Erase(s, id); Inv(s') && Tame(s, s') && SameLimits(s, s') && id !in s'.table
  {
    Parts(s, {});
    if id in s.table {
      EraseIs(s, id);
      EvictedGood(s, s.table[id]);
      EvictedTame(s, s.table[id]);
    }
  }

  // ---- Insert

  /** The new handle takes a free place in the table. */
  function AddNew<H>(s: Shard<H>, h: H, r: Request): Shard<H> {
    s.(table := s.table[r.id := h], live := s.live[h := r.Fresh()], usage := s.usage + r.charge)
  }

  ghost predicate Unknown<H>(s: Shard<H>, h: H) { h !in s.live && h !in s.freed }

  lemma AddNewShape<H>(s: Shard<H>, h: H, r: Request, x: set<H>)
    requires Shaped(s, {}) && Unknown(s, h) && r.id !in s.table && x == if r.wantsHandle then {} else {h}
    ensures Shaped(AddNew(s, h, r), x)
  {
    var s' := AddNew(s, h, r);
    assert TableOk(s', x);
    assert ListOk(s', x);
  }

  lemma AddNewKeeps<H>(s: Shard<H>, h: H, r: Request, x: set<H>)
    requires Good(s) && Unknown(s, h) && r.id !in s.table && x == if r.wantsHandle then {} else {h}
    ensures Nearly(AddNew(s, h, r), x)
  {
    var s' := AddNew(s, h, r);
    Parts(s, {});
    TotalUpdate(s.live, h, r.Fresh());
    ChargesSame(s, s'.live, s'.usage);
    AddNewShape(s, h, r, x);
    Whole(s', x);
  }

  /** The table's previous handle for the key, if there is one, is evicted before the new one is added. */
  function Vacated<H>(s: Shard<H>, id: Key): Shard<H> {
    if id in s.table && s.table[id] in s.live then Evicted(s, s.table[id]) else s
  }

  lemma VacatedKeeps<H>(s: Shard<H>, id: Key)
    requires Good(s)
    ensures var s' := Vacated(s, id);
      && Good(s') && Tame(s, s') && SameLimits(s, s') && id !in s'.table
      && s'.usage <= s.usage && (s.lru == [] ==> s'.lru == [])
  {
    Parts(s, {});
    if id in s.table {
      EvictedGood(s, s.table[id]);
      EvictedTame(s, s.table[id]);
    }
  }

  lemma EvictedThenAdd<H>(s: Shard<H>, h: H, r: Request, prior: H)
    requires prior in s.live && h !in s.live && s.live[prior].id == r.id
    ensures var s1 := AddNew(s, h, r); Evicted(s1, prior).(table := s1.table) == AddNew(Evicted(s, prior), h, r)
  {
    var s1 := AddNew(s, h, r);
    var e := s.live[prior].(inCache := false);
    assert s1.table == (s.table - {r.id})[r.id := h];
    if prior in s.lru {
      assert LruRemove(s1, prior) == AddNew(LruRemove(s, prior), h, r);
      assert s1.live[prior := e] - {prior} == (s.live[prior := e] - {prior})[h := r.Fresh()];
    } else {
      assert s1.live[prior := e] == s.live[prior := e][h := r.Fresh()];
    }
  }

  lemma DisplaceThenAdd<H>(s: Shard<H>, h: H, r: Request, prior: H)
    requires prior in s.live && (prior in s.lru <==> s.live[prior].refs == 0) && h !in s.live
    requires s.live[prior].id == r.id
    ensures Displace(AddNew(s, h, r), prior) == AddNew(Evicted(s, prior), h, r)
  {
    var s1 := AddNew(s, h, r);
    DisplaceIs(s1, prior, s1.table);
    EvictedThenAdd(s, h, r, prior);
  }

  lemma EnterIs<H>(s: Shard<H>, h: H, r: Request)
    requires Good(s) && Unknown(s, h) && s.low <= |s.lru|
    ensures var s2 := AddNew(Vacated(s, r.id), h, r);
      && s2.low <= |s2.lru| && h in s2.live
      && Enter(s, h, r) == if r.wantsHandle then s2 else LruInsert(s2, h)
  {
    Parts(s, {});
    VacatedKeeps(s, r.id);
    Parts(Vacated(s, r.id), {});
    if r.id in s.table { DisplaceThenAdd(s, h, r, s.table[r.id]); }
  }

  /** What an entering insertion does: it binds its key to the new handle and otherwise only unbinds and frees. */
  ghost predicate Enters<H>(s: Shard<H>, s': Shard<H>, h: H, r: Request) {
    && SameEntries(s, s')
    && (forall id :: id in s'.table && id != r.id ==> id in s.table && s'.table[id] == s.table[id])
    && r.id in s'.table && s'.table[r.id] == h
    && h in s'.live && s'.live[h].id == r.id && s'.live[h].value == r.value && s'.live[h].charge == r.charge
    && (forall g :: g in s'.live && g != h ==> g in s.live)
    && s.freed <= s'.freed && (forall g :: g in s'.freed && g !in s.freed ==> g in s.live && g !in s'.live)
  }

  lemma AddNewEnters<H>(s: Shard<H>, s1: Shard<H>, h: H, r: Request)
    requires Tame(s, s1) && Unknown(s, h)
    ensures Enters(s, AddNew(s1, h, r), h, r)
  {}

  lemma ListedEnters<H>(s: Shard<H>, s1: Shard<H>, s2: Shard<H>, h: H, r: Request)
    requires Enters(s, s1, h, r) && OnlyPools(s1, s2.(lru := s1.lru, low := s1.low, lruUsage := s1.lruUsage))
    ensures Enters(s, s2, h, r) && s2.usage == s1.usage && SameShare(s1, s2)
  {
    assert s2.live.Keys == s1.live.Keys;
  }

  lemma EnterKeeps<H>(s: Shard<H>, h: H, r: Request)
    requires Good(s) && Unknown(s, h) && s.low <= |s.lru| && !Refused(s, r)
    requires (s.usage + r.charge > s.capacity ==> s.lru == [])
    ensures var s' := Enter(s, h, r);
      && Inv(s') && Enters(s, s', h, r) && (PoolOk(s) ==> PoolOk(s')) && s'.usage <= s.usage + r.charge
      && SameShare(s, s')
  {
    var s1 := Vacated(s, r.id);
    VacatedKeeps(s, r.id);
    EnterIs(s, h, r);
    var s2 := AddNew(s1, h, r);
    AddNewEnters(s, s1, h, r);
    AddNewKeeps(s1, h, r, if r.wantsHandle then {} else {h});
    if !r.wantsHandle {
      LruInsertKeeps(s2, h);
      ListedEnters(s, s2, LruInsert(s2, h), h, r);
    }
  }

  // ---- insertion spares the referenced handles

  /** The referenced handles stay live. */
  ghost predicate Spares<H>(s: Shard<H>, s': Shard<H>) {
    forall g :: g in s.live && s.live[g].refs > 0 ==> g in s'.live
  }

  lemma EvictSpares<H>(s: Shard<H>, charge: nat)
    requires Good(s)
    ensures Spares(s, EvictFromLru(s, charge))
  {
    Parts(s, {});
    var k := EvictFrees(s, charge);
    forall g | g in s.live && s.live[g].refs > 0 ensures g in EvictFromLru(s, charge).live {
      assert g !in Elements(s.lru[..k]);
    }
  }

  /** Eviction changes no entry that stays. */
  lemma {:induction false} EvictRefs<H>(s: Shard<H>, charge: nat)
    requires Good(s)
    ensures forall g :: g in EvictFromLru(s, charge).live ==>
      g in s.live && EvictFromLru(s, charge).live[g] == s.live[g]
    decreases |s.lru|
  {
    Parts(s, {});
    if s.usage + charge > s.capacity && |s.lru| > 0 {
      EvictOldestGood(s);
      EvictOldestEffect(s);
      EvictRefs(EvictOldest(s), charge);
    }
  }

  lemma VacatedSpares<H>(s: Shard<H>, id: Key)
    requires Shaped(s, {})
    ensures Spares(s, Vacated(s, id))
  {}

  lemma AddNewSpares<H>(s: Shard<H>, s1: Shard<H>, h: H, r: Request)
    requires Spares(s, s1)
    ensures Spares(s, AddNew(s1, h, r))
  {}

  lemma ListedSpares<H>(s: Shard<H>, s2: Shard<H>, h: H)
    requires Spares(s, s2) && Listable(s2, h) && s2.low <= |s2.lru|
    ensures Spares(s, LruInsert(s2, h))
  {
    LruInsertKeeps(s2, h);
    assert LruInsert(s2, h).live.Keys == s2.live.Keys;
  }

  lemma EnterSpares<H>(s: Shard<H>, h: H, r: Request)
    requires Good(s) && Unknown(s, h) && s.low <= |s.lru| && !Refused(s, r)
    ensures Spares(s, Enter(s, h, r))
  {
    var s1 := Vacated(s, r.id);
    assert Spares(s, s1) by {
      Parts(s, {});
      VacatedSpares(s, r.id);
    }
    VacatedKeeps(s, r.id);
    EnterIs(s, h, r);
    AddNewSpares(s, s1, h, r);
    if !r.wantsHandle {
      AddNewKeeps(s1, h, r, {h});
      ListedSpares(s, AddNew(s1, h, r), h);
    }
  }

  /** Whether an insertion enters the table. */
  predicate Entering<H>(s: Shard<H>, r: Request) { !Refused(EvictFromLru(s, r.charge), r) }

  lemma InsertSpares<H>(s: Shard<H>, h: H, r: Request)
    requires Inv(s) && Unknown(s, h) && s.low <= |s.lru|
    ensures Spares(s, Insert(s, h, r))
  {
    var s1 := EvictFromLru(s, r.charge);
    EvictSpares(s, r.charge);
    EvictKeeps(s, r.charge);
    if Entering(s, r) {
      Parts(s1, {});
      EvictRefs(s, r.charge);
      EnterSpares(s1, h, r);
    }
  }

  // ---- insertion

  lemma InsertEnters<H>(s: Shard<H>, h: H, r: Request)
    requires Inv(s) && Unknown(s, h) && s.low <= |s.lru| && Entering(s, r)
    ensures var s' := Insert(s, h, r);
      && Inv(s') && (PoolOk(s) ==> PoolOk(s')) && Enters(s, s', h, r) && Spares(s, s')
      && (s.strict ==> s'.usage <= s'.capacity) && SameShare(s, s')
  {
    var s1 := EvictFromLru(s, r.charge);
    EvictKeeps(s, r.charge);
    var k := EvictFrees(s, r.charge);
    Parts(s1, {});
    EnterKeeps(s1, h, r);
    EntersAfter(s, s1, Enter(s1, h, r), h, r);
    InsertSpares(s, h, r);
  }

  lemma EntersAfter<H>(s: Shard<H>, s1: Shard<H>, s': Shard<H>, h: H, r: Request)
    requires Tame(s, s1) && Enters(s1, s', h, r) && Unknown(s, h)
    ensures Enters(s, s', h, r)
  {}

  lemma InsertRefused<H>(s: Shard<H>, h: H, r: Request)
    requires Inv(s) && Unknown(s, h) && s.low <= |s.lru| && !Entering(s, r)
    ensures var s' := Insert(s, h, r);
      && Inv(s') && (PoolOk(s) ==> PoolOk(s')) && SameEntries(s, s') && OnlyUnbinds(s, s') && s'.lru == []
      && (forall g :: g in s'.live ==> g in s.live) && s.freed <= s'.freed
      && (forall g :: g in s'.freed && g !in s.freed && g != h ==> g in s.live && g !in s'.live)
      && (h in s'.freed <==> !r.wantsHandle) && SameShare(s, s') && Spares(s, s')
  {
    var s1, s' := EvictFromLru(s, r.charge), Insert(s, h, r);
    EvictKeeps(s, r.charge);
    var k := EvictFrees(s, r.charge);
    Parts(s1, {});
    Whole(s', {});
    InsertSpares(s, h, r);
  }

  lemma SplitCharge<H>(live: map<H, Entry>, lru: seq<H>, k: nat)
    requires k <= |lru|
    ensures ListCharge(live, lru[..k]) <= ListCharge(live, lru)
  {
    assert lru == lru[..k] + lru[k..];
    ListAppend(live, lru[..k], lru[k..]);
    ListNonNegative(live, lru[k..]);
  }

  /**
   An insertion enters exactly if its charge fits beside the referenced handles, or a handle is asked for and the limit
   is not strict.
   */
  lemma EnteringExactly<H>(s: Shard<H>, r: Request)
    requires Good(s)
    ensures Entering(s, r) <==>
      s.usage - s.lruUsage + r.charge <= s.capacity || (r.wantsHandle && !s.strict)
  {
    var k := EvictFrees(s, r.charge);
    EvictKeeps(s, r.charge);
    Parts(s, {});
    SplitCharge(s.live, s.lru, k);
    assert s.lru[..|s.lru|] == s.lru;
  }

  lemma EvictedBinding<H>(s: Shard<H>, charge: nat, id: Key)
    requires Good(s) && EvictFromLru(s, charge).lru == []
    ensures var s' := EvictFromLru(s, charge);
      && (id in s'.table <==> id in s.table && s.table[id] in s.live && s.live[s.table[id]].refs > 0)
      && (id in s'.table ==> id in s.table && s'.table[id] == s.table[id])
  {
    var s' := EvictFromLru(s, charge);
    EvictKeeps(s, charge);
    EvictSpares(s, charge);
    EvictRefs(s, charge);
    Parts(s, {});
    Parts(s', {});
  }

  /**
   An insertion that answers Ok leaves its key bound to an older handle exactly if no handle was asked for, its charge
   does not fit beside the referenced handles, and one of these is bound to the key.
   */
  lemma OkButOlder<H>(s: Shard<H>, h: H, r: Request)
    requires Inv(s) && Unknown(s, h) && s.low <= |s.lru|
    ensures var s' := Insert(s, h, r);
      InsertStatus(s, r).Ok? && r.id in s'.table && s'.table[r.id] != h <==>
      && !r.wantsHandle && s.usage - s.lruUsage + r.charge > s.capacity
      && r.id in s.table && s.table[r.id] in s.live && s.live[s.table[r.id]].refs > 0
  {
    EnteringExactly(s, r);
    if Entering(s, r) {
      InsertEnters(s, h, r);
    } else {
      InsertRefused(s, h, r);
      EvictedBinding(s, r.charge, r.id);
      Parts(s, {});
    }
  }

  // ---- the totals

  ghost function Referenced<H>(live: map<H, Entry>): map<H, Entry> { map h | h in live && live[h].refs > 0 :: live[h] }

  lemma {:induction false} TotalWithoutList<H>(live: map<H, Entry>, xs: seq<H>)
    requires Distinct(xs) && forall h :: h in xs ==> h in live
    ensures TotalCharge(live) == TotalCharge(live - Elements(xs)) + ListCharge(live, xs)
  {
    if |xs| == 0 {
      assert live - Elements(xs) == live;
    } else {
      var n := |xs| - 1;
      var rest, h := live - Elements(xs[..n]), xs[n];
      TotalWithoutList(live, xs[..n]);
      assert Elements(xs) == Elements(xs[..n]) + {h};
      TotalSplit(rest, h);
      assert live - Elements(xs) == rest - {h};
    }
  }

  lemma PinnedIsReferenced<H>(s: Shard<H>)
    requires Good(s)
    ensures s.usage == TotalCharge(s.live) && s.lruUsage == ListCharge(s.live, s.lru)
    ensures s.usage - s.lruUsage == TotalCharge(Referenced(s.live))
    ensures s.low <= |s.lru| && s.highUsage == ListCharge(s.live, s.lru[s.low..])
  {
    Parts(s, {});
    TotalWithoutList(s.live, s.lru);
    assert s.live - Elements(s.lru) == Referenced(s.live);
  }

  lemma {:induction false} TotalNonNegative<H>(m: map<H, Entry>)
    ensures TotalCharge(m) >= 0
    decreases |m|
  {
    if m != map[] {
      var h :| h in m;
      TotalSplit(m, h);
      TotalNonNegative(m - {h});
    }
  }

  /**
   No subtraction from a total goes below zero: the assertions in LRU_Remove, MaintainPoolSize and the methods that
   free.
   */
  lemma NoUnderflow<H>(s: Shard<H>, x: set<H>, h: H)
    requires Nearly(s, x) && h in s.live
    ensures s.live[h].charge <= s.usage
    ensures h in s.lru ==>
      s.live[h].charge <= s.lruUsage && (s.live[h].inHighPriPool ==> s.live[h].charge <= s.highUsage)
  {
    Parts(s, x);
    TotalSplit(s.live, h);
    TotalNonNegative(s.live - {h});
    if h in s.lru {
      var p := IndexOf(s.lru, h);
      WithoutCharge(s.live, s.lru, p);
      ListNonNegative(s.live, Without(s.lru, p));
      SuffixWithout(s.live, s.lru, s.low, p);
      ListNonNegative(s.live, Without(s.lru, p)[if p < s.low then s.low - 1 else s.low..]);
    }
  }
  lemma SetStrictKeeps<H>(s: Shard<H>, strict: bool)
    requires Inv(s)
    ensures Inv(s.(strict := strict)) && Tame(s, s.(strict := strict))
  {
    Parts(s, {});
    Whole(s.(strict := strict), {});
  }
}
