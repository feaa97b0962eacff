/** The order of the LRU list: handles keep their order, newcomers go to the end of their stretch. */
module LruOrder {
  import opened Basics
  import opened LruModel
  import opened LruInvariant
  import opened LruOperations
  import opened LruRuns

  // ---- sequences without some of their elements

  /** Those elements of a sequence that are in a set, in their order. */
  ghost function Filter<H>(xs: seq<H>, keep: set<H>): seq<H> {
    if |xs| == 0 then [] else
      Filter(xs[..|xs| - 1], keep) + if xs[|xs| - 1] in keep then [xs[|xs| - 1]] else []
  }

  lemma {:induction false} FilterJoin<H>(xs: seq<H>, ys: seq<H>, keep: set<H>)
    ensures Filter(xs + ys, keep) == Filter(xs, keep) + Filter(ys, keep)
    decreases |ys|
  {
    if |ys| == 0 {
      assert xs + ys == xs;
    } else {
      var front := ys[..|ys| - 1];
      assert (xs + ys)[..|xs + ys| - 1] == xs + front;
      FilterJoin(xs, front, keep);
    }
  }

  lemma {:induction false} FilterMember<H>(xs: seq<H>, keep: set<H>)
    ensures forall h :: h in Filter(xs, keep) <==> h in xs && h in keep
  {
    if |xs| > 0 {
      FilterMember(xs[..|xs| - 1], keep);
      assert xs == xs[..|xs| - 1] + [xs[|xs| - 1]];
    }
  }

  lemma {:induction false} FilterFrom<H>(xs: seq<H>, keep: set<H>, h: H)
    requires h in Filter(xs, keep)
    ensures h in xs && h in keep
  {
    if h in Filter(xs[..|xs| - 1], keep) { FilterFrom(xs[..|xs| - 1], keep, h); }
    assert xs == xs[..|xs| - 1] + [xs[|xs| - 1]];
  }

  lemma {:induction false} FilterSame<H>(xs: seq<H>, keep: set<H>, keep': set<H>)
    requires forall h :: h in xs ==> (h in keep <==> h in keep')
    ensures Filter(xs, keep) == Filter(xs, keep')
  {
    if |xs| > 0 {
      assert forall h :: h in xs[..|xs| - 1] ==> h in xs;
      assert xs[|xs| - 1] in xs;
      FilterSame(xs[..|xs| - 1], keep, keep');
    }
  }

  lemma {:induction false} FilterAll<H>(xs: seq<H>, keep: set<H>)
    requires forall h :: h in xs ==> h in keep
    ensures Filter(xs, keep) == xs
  {
    if |xs| > 0 {
      assert forall h :: h in xs[..|xs| - 1] ==> h in xs;
      assert xs[|xs| - 1] in xs;
      FilterAll(xs[..|xs| - 1], keep);
      assert xs == xs[..|xs| - 1] + [xs[|xs| - 1]];
    }
  }

  lemma {:induction false} FilterNone<H>(xs: seq<H>, keep: set<H>)
    requires forall h :: h in xs ==> h !in keep
    ensures Filter(xs, keep) == []
  {
    if |xs| > 0 {
      assert forall h :: h in xs[..|xs| - 1] ==> h in xs;
      assert xs[|xs| - 1] in xs;
      FilterNone(xs[..|xs| - 1], keep);
    }
  }

  lemma {:induction false} FilterTwice<H>(xs: seq<H>, a: set<H>, b: set<H>)
    ensures Filter(Filter(xs, a), b) == Filter(xs, a * b)
  {
    if |xs| > 0 {
      var front, x := xs[..|xs| - 1], xs[|xs| - 1];
      FilterTwice(front, a, b);
      if x in a {
        FilterJoin(Filter(front, a), [x], b);
        assert [x][..0] == [] && Filter([x], b) == if x in b then [x] else [];
        assert Filter(xs, a) == Filter(front, a) + [x];
      } else {
        assert Filter(xs, a) == Filter(front, a);
      }
    }
  }

  // ---- a list that is split, without some of its handles

  /** `ys`, split at `m`, is `xs`, split at `n`, without the handles that are not kept. */
  ghost predicate Thinned<H>(xs: seq<H>, n: nat, ys: seq<H>, m: nat, keep: set<H>) {
    n <= |xs| && ys == Filter(xs, keep) && m == |Filter(xs[..n], keep)|
  }

  lemma ThinnedParts<H>(xs: seq<H>, n: nat, ys: seq<H>, m: nat, keep: set<H>)
    requires Thinned(xs, n, ys, m, keep)
    ensures m <= |ys| && ys[..m] == Filter(xs[..n], keep) && ys[m..] == Filter(xs[n..], keep)
  {
    assert xs == xs[..n] + xs[n..];
    FilterJoin(xs[..n], xs[n..], keep);
  }

  lemma ThinnedTwice<H>(xs: seq<H>, n: nat, ys: seq<H>, m: nat, zs: seq<H>, k: nat, a: set<H>, b: set<H>)
    requires Thinned(xs, n, ys, m, a) && Thinned(ys, m, zs, k, b)
    ensures Thinned(xs, n, zs, k, a * b)
  {
    ThinnedParts(xs, n, ys, m, a);
    FilterTwice(xs, a, b);
    FilterTwice(xs[..n], a, b);
  }

  lemma ThinNot<H>(xs: seq<H>, n: nat)
    requires n <= |xs|
    ensures Thin(xs, n, xs, n)
  {
    FilterAll(xs, Elements(xs));
    FilterAll(xs[..n], Elements(xs));
  }

  lemma Normal<H>(xs: seq<H>, n: nat, ys: seq<H>, m: nat, keep: set<H>)
    requires Thinned(xs, n, ys, m, keep)
    ensures Thin(xs, n, ys, m)
  {
    FilterMember(xs, keep);
    FilterSame(xs, keep, Elements(ys));
    forall h | h in xs[..n] ensures h in xs {}
    FilterSame(xs[..n], keep, Elements(ys));
  }

  /** `ys`, split at `m`, is `xs`, split at `n`, without the handles that it does not have. */
  ghost predicate Thin<H>(xs: seq<H>, n: nat, ys: seq<H>, m: nat) { Thinned(xs, n, ys, m, Elements(ys)) }

  lemma ThinTwice<H>(xs: seq<H>, n: nat, ys: seq<H>, m: nat, zs: seq<H>, k: nat)
    requires Thin(xs, n, ys, m) && Thin(ys, m, zs, k)
    ensures Thin(xs, n, zs, k)
  {
    ThinnedTwice(xs, n, ys, m, zs, k, Elements(ys), Elements(zs));
    Normal(xs, n, zs, k, Elements(ys) * Elements(zs));
  }

  /** One handle is taken out. */
  lemma ThinOne<H>(xs: seq<H>, n: nat, p: nat)
    requires n <= |xs| && p < |xs| && Distinct(xs)
    ensures Thin(xs, n, Without(xs, p), if p < n then n - 1 else n)
  {
    var keep := Elements(xs) - {xs[p]};
    FilterWithout(xs, p, keep);
    if p < n {
      forall h | h in xs[..n] && h != xs[p] ensures h in keep {}
      FilterWithout(xs[..n], p, keep);
    } else {
      forall h | h in xs[..n] ensures h in keep {}
      FilterAll(xs[..n], keep);
    }
    Normal(xs, n, Without(xs, p), if p < n then n - 1 else n, keep);
  }

  lemma FilterWithout<H>(xs: seq<H>, p: nat, keep: set<H>)
    requires p < |xs| && Distinct(xs) && xs[p] !in keep && forall h :: h in xs && h != xs[p] ==> h in keep
    ensures Filter(xs, keep) == Without(xs, p)
  {
    FilterAround(xs[..p], xs[p], xs[p + 1..], keep) by {
      forall h | h in xs[..p] ensures h in keep { assert h in xs; }
      forall h | h in xs[p + 1..] ensures h in keep { assert h in xs; }
    }
    assert xs == xs[..p] + [xs[p]] + xs[p + 1..];
  }

  lemma FilterAround<H>(a: seq<H>, x: H, b: seq<H>, keep: set<H>)
    requires x !in keep && (forall h :: h in a ==> h in keep) && (forall h :: h in b ==> h in keep)
    ensures Filter(a + [x] + b, keep) == a + b
  {
    assert Filter(a + [x], keep) == a by {
      FilterJoin(a, [x], keep);
      FilterAll(a, keep);
      FilterNone([x], keep);
      assert a + [] == a;
    }
    assert Filter(b, keep) == b by { FilterAll(b, keep); }
    FilterJoin(a + [x], b, keep);
  }

  // ---- what the pieces of the operations do to the list

  lemma RemoveThins<H>(s: Shard<H>, h: H)
    requires h in s.lru && h in s.live && Distinct(s.lru) && s.low <= |s.lru|
    ensures Thin(s.lru, s.low, LruRemove(s, h).lru, LruRemove(s, h).low)
  {
    ThinOne(s.lru, s.low, IndexOf(s.lru, h));
  }

  lemma {:induction false} EvictThins<H>(s: Shard<H>, charge: nat)
    requires Good(s)
    ensures var s' := EvictFromLru(s, charge); Thin(s.lru, s.low, s'.lru, s'.low) && s'.low <= |s'.lru|
    decreases |s.lru|
  {
    Parts(s, {});
    if s.usage + charge > s.capacity && |s.lru| > 0 {
      var s1 := EvictOldest(s);
      RemoveThins(s, s.lru[0]);
      EvictOldestGood(s);
      EvictThins(s1, charge);
      ThinTwice(s.lru, s.low, s1.lru, s1.low, EvictFromLru(s1, charge).lru, EvictFromLru(s1, charge).low);
    } else {
      ThinNot(s.lru, s.low);
    }
  }

  lemma EvictedThins<H>(s: Shard<H>, h: H)
    requires Good(s) && h in s.live
    ensures Thin(s.lru, s.low, Evicted(s, h).lru, Evicted(s, h).low)
  {
    Parts(s, {});
    if h in s.lru { RemoveThins(s, h); } else { ThinNot(s.lru, s.low); }
  }

  lemma {:induction false} MaintainSplits<H>(s: Shard<H>)
    ensures var s' := MaintainPoolSize(s); s'.lru == s.lru && s.low <= s'.low
    decreases |s.lru| - s.low
  {
    if s.highUsage as real > s.poolCapacity && s.low < |s.lru| && s.lru[s.low] in s.live {
      MaintainSplits(Overflow(s));
    }
  }

  /** The split has been moved back from `n` only as far as the pool's share demands. */
  ghost predicate NoFurther<H>(s': Shard<H>, n: nat) {
    n <= s'.low <= |s'.lru|
    && forall k :: n <= k < s'.low ==> ListCharge(s'.live, s'.lru[k..]) as real > s'.poolCapacity
  }

  /** Until the split gets there, the pool is above its share. */
  ghost predicate OverUntil<H>(live: map<H, Entry>, lru: seq<H>, share: real, n: nat, m: nat) {
    n <= m <= |lru| && forall k :: n <= k < m ==> ListCharge(live, lru[k..]) as real > share
  }

  lemma OverStep<H>(live: map<H, Entry>, live1: map<H, Entry>, lru: seq<H>, share: real, n: nat, m: nat)
    requires n < |lru| && ListCharge(live, lru[n..]) as real > share && OverUntil(live1, lru, share, n + 1, m)
    requires forall h :: h in lru ==> ChargeOf(live, h) == ChargeOf(live1, h)
    ensures OverUntil(live, lru, share, n, m)
  {
    forall k | n < k < m ensures ListCharge(live, lru[k..]) as real > share {
      forall h | h in lru[k..] ensures h in lru {}
      ListSame(live, live1, lru[k..]);
    }
  }

  lemma {:induction false} MaintainOver<H>(s: Shard<H>)
    requires s.low <= |s.lru| && (forall h :: h in s.lru ==> h in s.live)
    requires s.highUsage == ListCharge(s.live, s.lru[s.low..])
    ensures OverUntil(s.live, s.lru, s.poolCapacity, s.low, MaintainPoolSize(s).low)
    decreases |s.lru| - s.low
  {
    if s.highUsage as real > s.poolCapacity && s.low < |s.lru| {
      var s1 := Overflow(s);
      SuffixStep(s.live, s.lru, s.low);
      forall h | h in s.lru[s1.low..] ensures h in s.lru {}
      ListSame(s.live, s1.live, s.lru[s1.low..]);
      MaintainOver(s1);
      OverStep(s.live, s1.live, s.lru, s.poolCapacity, s.low, MaintainPoolSize(s1).low);
    }
  }

  lemma MaintainLeast<H>(s: Shard<H>, x: set<H>)
    requires Shaped(s, x) && s.highUsage == ListCharge(s.live, s.lru[s.low..])
    ensures NoFurther(MaintainPoolSize(s), s.low)
  {
    var s' := MaintainPoolSize(s);
    MaintainShape(s, x);
    MaintainOver(s);
    forall k | s.low <= k < s'.low ensures ListCharge(s'.live, s'.lru[k..]) as real > s'.poolCapacity {
      ListSame(s.live, s'.live, s.lru[k..]);
    }
  }

  /** A handle that goes to the high-priority pool when it is put on the list. */
  predicate Favoured<H>(ratio: real, e: Entry) { ratio > 0.0 && (e.isHighPri || e.hasHit) }

  /** Where a handle is put on the list: at the very end, or at the end of the low stretch. */
  ghost predicate Put<H>(xs: seq<H>, n: nat, ys: seq<H>, m: nat, h: H, favoured: bool) {
    n <= |xs| && if favoured then ys == xs + [h] && n <= m else ys == xs[..n] + [h] + xs[n..] && m == n + 1
  }

  lemma InsertPuts<H>(s: Shard<H>, h: H)
    requires h in s.live && s.low <= |s.lru|
    ensures var s' := LruInsert(s, h); Put(s.lru, s.low, s'.lru, s'.low, h, Favoured<H>(s.ratio, s.live[h]))
    ensures Favoured<H>(s.ratio, s.live[h]) && Listable(s, h) ==> NoFurther(LruInsert(s, h), s.low)
  {
    if Favoured<H>(s.ratio, s.live[h]) {
      MaintainSplits(AtHead(s, h));
      if Listable(s, h) {
        var s1 := AtHead(s, h).(lruUsage := s.lruUsage + s.live[h].charge);
        LruInsertIsHigh(s, h);
        AtHeadKeeps(s, h);
        Parts(s1, {});
        MaintainLeast(s1, {});
      }
    }
  }

  // ---- every step

  /** Of a stretch of the list, the handles that are still on the list, in their order. */
  ghost function Still<H>(xs: seq<H>, s': Shard<H>): seq<H> { Filter(xs, Elements(s'.lru)) }

  /** The list has lost some handles and otherwise kept its order; the split may have moved back. */
  ghost predicate Shrinks<H>(s: Shard<H>, s': Shard<H>) {
    s.low <= |s.lru| && var low, high := Still(s.lru[..s.low], s'), Still(s.lru[s.low..], s');
    s'.lru == low + high && NoFurther(s', |low|)
  }

  /**
   And a handle that was not on the list has been put on it: at the very end if it was inserted with high priority or
   has been found, and there is a high-priority pool; else at the end of the low stretch.
   */
  ghost predicate Gains<H>(s: Shard<H>, s': Shard<H>, h: H) {
    s.low <= |s.lru| && var low, high := Still(s.lru[..s.low], s'), Still(s.lru[s.low..], s');
    && h !in s.lru && h in s'.live && s'.low <= |s'.lru|
    && if Favoured<H>(s'.ratio, s'.live[h]) then s'.lru == low + high + [h] && NoFurther(s', |low|)
       else s'.lru == low + [h] + high && s'.low == |low| + 1
  }

  lemma ThinShrinks<H>(s: Shard<H>, s': Shard<H>, m: nat)
    requires Thin(s.lru, s.low, s'.lru, m) && NoFurther(s', m)
    ensures Shrinks(s, s')
  {
    ThinnedParts(s.lru, s.low, s'.lru, m, Elements(s'.lru));
  }

  lemma ThinGains<H>(s: Shard<H>, xs: seq<H>, n: nat, s': Shard<H>, h: H)
    requires Thin(s.lru, s.low, xs, n) && h !in s.lru && h in s'.live && s'.low <= |s'.lru|
    requires Put(xs, n, s'.lru, s'.low, h, Favoured<H>(s'.ratio, s'.live[h]))
    requires Favoured<H>(s'.ratio, s'.live[h]) ==> NoFurther(s', n)
    ensures Gains(s, s', h)
  {
    ThinnedParts(s.lru, s.low, xs, n, Elements(xs));
    assert xs == xs[..n] + xs[n..];
    PutMembers(xs, n, s'.lru, s'.low, h, Favoured<H>(s'.ratio, s'.live[h]));
    FilterSame(s.lru[..s.low], Elements(xs), Elements(s'.lru));
    FilterSame(s.lru[s.low..], Elements(xs), Elements(s'.lru));
  }

  lemma PutMembers<H>(xs: seq<H>, n: nat, ys: seq<H>, m: nat, h: H, favoured: bool)
    requires Put(xs, n, ys, m, h, favoured)
    ensures forall g :: g in ys <==> g in xs || g == h
  {
    if !favoured { InsertedMembers(xs, n, h, ys); }
  }

  lemma LookupShrinks<H>(s: Shard<H>, id: Key)
    requires Inv(s)
    ensures Shrinks(s, Lookup(s, id))
  {
    Parts(s, {});
    ThinNot(s.lru, s.low);
    if id in s.table && s.live[s.table[id]].refs == 0 { RemoveThins(s, s.table[id]); }
    LookupKeeps(s, id);
    Parts(Lookup(s, id), {});
    ThinShrinks(s, Lookup(s, id), Lookup(s, id).low);
  }

  lemma EraseShrinks<H>(s: Shard<H>, id: Key)
    requires Inv(s)
    ensures Shrinks(s, Erase(s, id))
  {
    Parts(s, {});
    ThinNot(s.lru, s.low);
    if id in s.table {
      EraseIs(s, id);
      EvictedThins(s, s.table[id]);
    }
    EraseKeeps(s, id);
    Parts(Erase(s, id), {});
    ThinShrinks(s, Erase(s, id), Erase(s, id).low);
  }

  lemma SetCapacityShrinks<H>(s: Shard<H>, capacity: nat)
    requires Inv(s)
    ensures Shrinks(s, SetCapacity(s, capacity))
  {
    var s1 := s.(capacity := capacity, poolCapacity := Share(capacity, s.ratio));
    ResizedGood(s, capacity);
    EvictThins(s1, 0);
    ThinShrinks(s, SetCapacity(s, capacity), SetCapacity(s, capacity).low);
  }

  lemma RatioGood<H>(s: Shard<H>, ratio: real)
    requires Inv(s) && ratio >= 0.0
    ensures var s1 := s.(ratio := ratio, poolCapacity := Share(s.capacity, ratio)); Shaped(s1, {}) && ChargesOk(s1)
  {
    Parts(s, {});
    ShareGrows(0, s.capacity, ratio);
  }

  lemma SetRatioShrinks<H>(s: Shard<H>, ratio: real)
    requires Inv(s) && ratio >= 0.0
    ensures Shrinks(s, SetHighPriorityPoolRatio(s, ratio))
  {
    Parts(s, {});
    ThinNot(s.lru, s.low);
    MaintainSplits(s.(ratio := ratio, poolCapacity := Share(s.capacity, ratio)));
    RatioGood(s, ratio);
    MaintainLeast(s.(ratio := ratio, poolCapacity := Share(s.capacity, ratio)), {});
    ThinShrinks(s, SetHighPriorityPoolRatio(s, ratio), s.low);
  }

  lemma ClearShrinks<H>(s: Shard<H>)
    requires Inv(s)
    ensures Shrinks(s, EraseUnRefEntries(s))
  {
    EraseUnRefKeeps(s);
    Parts(s, {});
    Parts(EraseUnRefEntries(s), {});
    FilterNone(s.lru[..s.low], {});
    FilterNone(s.lru[s.low..], {});
    assert Elements(EraseUnRefEntries(s).lru) == {};
  }

  lemma ReleaseMoves<H>(s: Shard<H>, h: H, force: bool)
    requires Inv(s) && h in s.live && s.live[h].refs > 0 && s.low <= |s.lru|
    ensures Shrinks(s, Release(s, h, force)) || Gains(s, Release(s, h, force), h)
  {
    var s' := Release(s, h, force);
    Parts(s, {});
    ThinNot(s.lru, s.low);
    ReleaseKeeps(s, h, force);
    Parts(s', {});
    if s.live[h].refs == 1 && s.live[h].inCache && s.usage <= s.capacity && !force {
      var s1 := Dropped(s, h);
      CachedIsBound(s, h);
      DroppedKeeps(s, h, {h});
      LruInsertKeeps(s1, h);
      InsertPuts(s1, h);
      ThinGains(s, s.lru, s.low, s', h);
    } else {
      ThinShrinks(s, s', s.low);
    }
  }

  lemma InsertMoves<H>(s: Shard<H>, h: H, r: Request)
    requires Inv(s) && Unknown(s, h) && s.low <= |s.lru|
    ensures Shrinks(s, Insert(s, h, r)) || Gains(s, Insert(s, h, r), h)
  {
    var s1, s' := EvictFromLru(s, r.charge), Insert(s, h, r);
    EvictThins(s, r.charge);
    EvictKeeps(s, r.charge);
    var k := EvictFrees(s, r.charge);
    if Entering(s, r) { EnterMoves(s, s1, h, r); } else { ThinShrinks(s, s', s1.low); }
  }

  lemma EnterMoves<H>(s: Shard<H>, s1: Shard<H>, h: H, r: Request)
    requires Good(s) && Good(s1) && Thin(s.lru, s.low, s1.lru, s1.low) && s1.low <= |s1.lru| && h !in s.live
    requires Unknown(s1, h) && !Refused(s1, r) && (s1.usage + r.charge > s1.capacity ==> s1.lru == [])
    ensures Shrinks(s, Enter(s1, h, r)) || Gains(s, Enter(s1, h, r), h)
  {
    var v := Vacated(s1, r.id);
    assert Thin(s1.lru, s1.low, v.lru, v.low) by {
      Parts(s1, {});
      ThinNot(s1.lru, s1.low);
      if r.id in s1.table { EvictedThins(s1, s1.table[r.id]); }
    }
    ThinTwice(s.lru, s.low, s1.lru, s1.low, v.lru, v.low);
    VacatedKeeps(s1, r.id);
    EnterIs(s1, h, r);
    EnterKeeps(s1, h, r);
    Listed(s, v, h, r, Enter(s1, h, r));
  }

  lemma Listed<H>(s: Shard<H>, v: Shard<H>, h: H, r: Request, s': Shard<H>)
    requires Good(s) && Good(v) && Unknown(v, h) && r.id !in v.table && h !in s.live && Inv(s')
    requires Thin(s.lru, s.low, v.lru, v.low) && v.low <= |v.lru|
    requires s' == if r.wantsHandle then AddNew(v, h, r) else LruInsert(AddNew(v, h, r), h)
    ensures Shrinks(s, s') || Gains(s, s', h)
  {
    Parts(s', {});
    if r.wantsHandle {
      ThinShrinks(s, s', v.low);
    } else {
      assert h !in s.lru by { Parts(s, {}); }
      AddNewKeeps(v, h, r, {h});
      LruInsertKeeps(AddNew(v, h, r), h);
      InsertPuts(AddNew(v, h, r), h);
      ThinGains(s, v.lru, v.low, s', h);
    }
  }

  /**
   Every operation leaves the handles that stay on the list in their order, and puts at most one handle on it: the one
   that it inserts or releases, at the end of its stretch.
   */
  lemma ListStep<H>(s: Shard<H>, op: Op<H>)
    requires Inv(s)
    ensures var s' := Step(s, op);
      Shrinks(s, s') || ((op.OpInsert? || op.OpRelease?) && Gains(s, s', op.h))
  {
    Parts(s, {});
    ThinNot(s.lru, s.low);
    ThinShrinks(s, s, s.low);
    if Legal(s, op) {
      match op
      case OpInsert(h, r) => InsertMoves(s, h, r);
      case OpLookup(id) => LookupShrinks(s, id);
      case OpRef(h) =>
      case OpRelease(h, force) => ReleaseMoves(s, h, force);
      case OpErase(id) => EraseShrinks(s, id);
      case OpSetCapacity(c) => SetCapacityShrinks(s, c);
      case OpSetStrict(b) =>
      case OpSetRatio(r) => SetRatioShrinks(s, r);
      case OpEraseUnRef => ClearShrinks(s);
    }
  }

  // ---- whole runs

  /** How many operations had been done when the handle was last put on the list. */
  ghost function ListedAt<H>(strict: bool, ratio: real, ops: seq<Op<H>>, h: H): nat {
    if |ops| == 0 then 0 else
      var front := ops[..|ops| - 1];
      if h !in Reached(strict, ratio, front).lru && h in Reached(strict, ratio, ops).lru then |ops|
      else ListedAt(strict, ratio, front, h)
  }

  /** In the order of these stamps, which are at most `n`. */
  ghost predicate Ranked<H>(stamp: H -> nat, n: nat, xs: seq<H>) {
    && (forall i :: 0 <= i < |xs| ==> stamp(xs[i]) <= n)
    && (forall i, j :: 0 <= i < j < |xs| ==> stamp(xs[i]) < stamp(xs[j]))
  }

  lemma RankedPart<H>(stamp: H -> nat, n: nat, xs: seq<H>, k: nat)
    requires Ranked(stamp, n, xs) && k <= |xs|
    ensures Ranked(stamp, n, xs[..k]) && Ranked(stamp, n, xs[k..])
  {}

  lemma {:induction false} RankedFilter<H>(stamp: H -> nat, n: nat, xs: seq<H>, keep: set<H>)
    requires Ranked(stamp, n, xs)
    ensures Ranked(stamp, n, Filter(xs, keep))
  {
    if |xs| > 0 {
      var front, x := xs[..|xs| - 1], xs[|xs| - 1];
      RankedPart(stamp, n, xs, |xs| - 1);
      RankedFilter(stamp, n, front, keep);
      var ys := Filter(front, keep);
      forall i | 0 <= i < |ys| ensures stamp(ys[i]) < stamp(x) {
        FilterFrom(front, keep, ys[i]);
        var k :| 0 <= k < |front| && front[k] == ys[i];
        assert xs[k] == ys[i];
      }
    }
  }

  /** Between two stampings: what was on the list has the same stamp, and what is new there has the next one. */
  ghost predicate Restamped<H>(stamp: H -> nat, stamp': H -> nat, n: nat, s: Shard<H>, s': Shard<H>) {
    && (forall h :: h in s.lru ==> stamp'(h) == stamp(h))
    && (forall h :: h !in s.lru && h in s'.lru ==> stamp'(h) == n + 1)
  }

  lemma RankedOn<H>(stamp: H -> nat, stamp': H -> nat, n: nat, s: Shard<H>, s': Shard<H>, xs: seq<H>)
    requires Restamped(stamp, stamp', n, s, s') && Ranked(stamp, n, xs) && forall h :: h in xs ==> h in s.lru
    ensures Ranked(stamp', n + 1, xs)
    ensures forall h :: h !in s.lru && h in s'.lru ==> Ranked(stamp', n + 1, xs + [h])
  {
    forall i | 0 <= i < |xs| ensures stamp'(xs[i]) == stamp(xs[i]) <= n { assert xs[i] in xs; }
  }

  /** A step keeps the order, and with it that all of the list is in it, as long as no handle is favoured. */
  lemma RankedAll<H>(stamp: H -> nat, stamp': H -> nat, n: nat, s: Shard<H>, s': Shard<H>)
    requires Restamped(stamp, stamp', n, s, s') && Ranked(stamp, n, s.lru) && s.low == |s.lru| && s'.ratio <= 0.0
    requires Shrinks(s, s') || exists h :: Gains(s, s', h)
    ensures Ranked(stamp', n + 1, s'.lru) && s'.low == |s'.lru|
  {
    var keep := Elements(s'.lru);
    var kept := Filter(s.lru, keep);
    assert s.lru[..s.low] == s.lru && Filter(s.lru[s.low..], keep) == [];
    RankedFilter(stamp, n, s.lru, keep);
    forall h | h in kept ensures h in s.lru { FilterFrom(s.lru, keep, h); }
    RankedOn(stamp, stamp', n, s, s', kept);
    if Shrinks(s, s') {
      assert s'.lru == kept;
    } else {
      var h :| Gains(s, s', h);
      assert s'.lru == kept + [h];
      assert s'.lru[|kept|] == h;
    }
  }

  /** A step keeps the order of the pool. */
  lemma RankedPool<H>(stamp: H -> nat, stamp': H -> nat, n: nat, s: Shard<H>, s': Shard<H>)
    requires Restamped(stamp, stamp', n, s, s') && s.low <= |s.lru| && Ranked(stamp, n, s.lru[s.low..])
    requires Shrinks(s, s') || exists h :: Gains(s, s', h)
    ensures s'.low <= |s'.lru| && Ranked(stamp', n + 1, s'.lru[s'.low..])
  {
    var keep := Elements(s'.lru);
    var low, high := Filter(s.lru[..s.low], keep), Filter(s.lru[s.low..], keep);
    RankedFilter(stamp, n, s.lru[s.low..], keep);
    forall h | h in high ensures h in s.lru { FilterFrom(s.lru[s.low..], keep, h); }
    RankedOn(stamp, stamp', n, s, s', high);
    if Shrinks(s, s') {
      RankedBehind(stamp', n + 1, low, high, s'.lru, s'.low);
    } else {
      var h :| Gains(s, s', h);
      if Favoured<H>(s'.ratio, s'.live[h]) {
        assert s'.lru[|low + high|] == h;
        assert s'.lru == low + (high + [h]);
        RankedBehind(stamp', n + 1, low, high + [h], s'.lru, s'.low);
      } else {
        RankedBehind(stamp', n + 1, low + [h], high, s'.lru, s'.low);
      }
    }
  }

  lemma RankedBehind<H>(stamp: H -> nat, n: nat, low: seq<H>, high: seq<H>, xs: seq<H>, k: nat)
    requires xs == low + high && |low| <= k <= |xs| && Ranked(stamp, n, high)
    ensures Ranked(stamp, n, xs[k..])
  {
    RankedPart(stamp, n, high, k - |low|);
    assert xs[k..] == high[k - |low|..];
  }

  lemma RatioStep<H>(s: Shard<H>, op: Op<H>)
    requires Inv(s)
    ensures Step(s, op).ratio == if op.OpSetRatio? && Legal(s, op) then op.ratio else s.ratio
  {
    Parts(s, {});
    if Legal(s, op) {
      match op
      case OpInsert(h, r) => if Entering(s, r) { InsertEnters(s, h, r); } else { InsertRefused(s, h, r); }
      case OpLookup(id) => LookupKeeps(s, id);
      case OpRef(h) =>
      case OpRelease(h, force) => ReleaseKeeps(s, h, force);
      case OpErase(id) => EraseKeeps(s, id);
      case OpSetCapacity(c) =>
        ResizedGood(s, c);
        EvictKeeps(s.(capacity := c, poolCapacity := Share(c, s.ratio)), 0);
      case OpSetStrict(b) =>
      case OpSetRatio(r) =>
        RatioGood(s, r);
        MaintainShape(s.(ratio := r, poolCapacity := Share(s.capacity, r)), {});
      case OpEraseUnRef => EraseUnRefKeeps(s);
    }
  }

  predicate NoPool<H>(ops: seq<Op<H>>) {
    forall i :: 0 <= i < |ops| && ops[i].OpSetRatio? ==> ops[i].ratio <= 0.0
  }

  ghost function StampOf<H>(strict: bool, ratio: real, ops: seq<Op<H>>): H -> nat {
    h => ListedAt(strict, ratio, ops, h)
  }

  lemma RestampedByRun<H>(strict: bool, ratio: real, ops: seq<Op<H>>)
    requires |ops| > 0
    ensures var front := ops[..|ops| - 1];
      Restamped(StampOf(strict, ratio, front), StampOf(strict, ratio, ops), |front|, Reached(strict, ratio, front),
                Reached(strict, ratio, ops))
  {}

  /**
   Without a high-priority pool, the list is in the order of use: a handle that was put on it earlier, by its insertion
   or by the release of its last reference, comes before one that was put on it later, and so is evicted first.
   */
  lemma {:induction false} InOrderOfUse<H>(strict: bool, ops: seq<Op<H>>)
    requires NoPool(ops)
    ensures var s := Reached(strict, 0.0, ops);
      Ranked(StampOf(strict, 0.0, ops), |ops|, s.lru) && s.low == |s.lru| && s.ratio == 0.0
    decreases |ops|
  {
    if |ops| > 0 {
      var front, op := ops[..|ops| - 1], ops[|ops| - 1];
      var s, s' := Reached(strict, 0.0, front), Reached(strict, 0.0, ops);
      InOrderOfUse(strict, front);
      Reachable(strict, 0.0, front);
      ListStep(s, op);
      RatioStep(s, op);
      RestampedByRun(strict, 0.0, ops);
      RankedAll(StampOf(strict, 0.0, front), StampOf(strict, 0.0, ops), |front|, s, s');
    }
  }

  /** With a pool, the handles in the pool are in the order of use. */
  lemma {:induction false} PoolInOrder<H>(strict: bool, ratio: real, ops: seq<Op<H>>)
    requires ratio >= 0.0
    ensures var s := Reached(strict, ratio, ops);
      s.low <= |s.lru| && Ranked(StampOf(strict, ratio, ops), |ops|, s.lru[s.low..])
    decreases |ops|
  {
    if |ops| > 0 {
      var front, op := ops[..|ops| - 1], ops[|ops| - 1];
      var s, s' := Reached(strict, ratio, front), Reached(strict, ratio, ops);
      PoolInOrder(strict, ratio, front);
      Reachable(strict, ratio, front);
      ListStep(s, op);
      RestampedByRun(strict, ratio, ops);
      RankedPool(StampOf(strict, ratio, front), StampOf(strict, ratio, ops), |front|, s, s');
    }
  }
}
