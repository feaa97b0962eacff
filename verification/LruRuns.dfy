/** The LRU shard over whole runs of operations. */
module LruRuns {
  import opened Basics
  import opened LruModel
  import opened LruInvariant
  import opened LruOperations

  datatype Op<H> =
    | OpInsert(h: H, r: Request)
    | OpLookup(id: Key)
    | OpRef(h: H)
    | OpRelease(h: H, forceErase: bool)
    | OpErase(id: Key)
    | OpSetCapacity(capacity: nat)
    | OpSetStrict(strict: bool)
    | OpSetRatio(ratio: real)
    | OpEraseUnRef

  /**
   What callers owe: Insert brings a newly allocated handle, and only a referenced handle is referenced again or
   released.
   */
  predicate Legal<H(==)>(s: Shard<H>, op: Op<H>) {
    match op
    case OpInsert(h, _) => h !in s.live && h !in s.freed
    case OpRef(h) => h in s.live && s.live[h].refs > 0
    case OpRelease(h, _) => h in s.live && s.live[h].refs > 0
    case OpSetRatio(ratio) => ratio >= 0.0
    case _ => true
  }

  function Step<H(==)>(s: Shard<H>, op: Op<H>): Shard<H> {
    if !Legal(s, op) || s.low > |s.lru| then s
    else match op
      case OpInsert(h, r) => Insert(s, h, r)
      case OpLookup(id) => Lookup(s, id)
      case OpRef(h) => Ref(s, h)
      case OpRelease(h, force) => Release(s, h, force)
      case OpErase(id) => Erase(s, id)
      case OpSetCapacity(c) => SetCapacity(s, c)
      case OpSetStrict(b) => s.(strict := b)
      case OpSetRatio(ratio) => SetHighPriorityPoolRatio(s, ratio)
      case OpEraseUnRef => EraseUnRefEntries(s)
  }

  function Run<H(==)>(s: Shard<H>, ops: seq<Op<H>>): Shard<H> {
    if |ops| == 0 then s else Step(Run(s, ops[..|ops| - 1]), ops[|ops| - 1])
  }

  lemma InsertKeeps<H>(s: Shard<H>, h: H, r: Request)
    requires Inv(s) && Unknown(s, h) && s.low <= |s.lru|
    ensures Inv(Insert(s, h, r))
  {
    if Entering(s, r) { InsertEnters(s, h, r); } else { InsertRefused(s, h, r); }
  }

  lemma StepKeeps<H>(s: Shard<H>, op: Op<H>)
    requires Inv(s)
    ensures Inv(Step(s, op))
  {
    if Legal(s, op) && s.low <= |s.lru| {
      match op
      case OpInsert(h, r) => InsertKeeps(s, h, r);
      case OpLookup(id) => LookupKeeps(s, id);
      case OpRef(h) => RefKeeps(s, h);
      case OpRelease(h, force) => ReleaseKeeps(s, h, force);
      case OpErase(id) => EraseKeeps(s, id);
      case OpSetCapacity(c) => SetCapacityInv(s, c);
      case OpSetStrict(b) => SetStrictKeeps(s, b);
      case OpSetRatio(ratio) => SetRatioKeeps(s, ratio);
      case OpEraseUnRef => EraseUnRefKeeps(s);
    }
  }

  lemma {:induction false} RunKeeps<H>(s: Shard<H>, ops: seq<Op<H>>)
    requires Inv(s)
    ensures Inv(Run(s, ops))
  {
    if |ops| > 0 {
      RunKeeps(s, ops[..|ops| - 1]);
      StepKeeps(Run(s, ops[..|ops| - 1]), ops[|ops| - 1]);
    }
  }

  /** The state that any sequence of operations reaches from an empty shard. */
  function Reached<H(==)>(strict: bool, ratio: real, ops: seq<Op<H>>): Shard<H> { Run(Empty(strict, ratio), ops) }

  lemma Reachable<H>(strict: bool, ratio: real, ops: seq<Op<H>>)
    requires ratio >= 0.0
    ensures Inv(Reached(strict, ratio, ops))
  {
    EmptyOk<H>(strict, ratio);
    RunKeeps(Empty<H>(strict, ratio), ops);
  }

  // ---- the three states

  ghost predicate Bound<H>(s: Shard<H>, h: H)
    requires h in s.live
  {
    s.live[h].id in s.table && s.table[s.live[h].id] == h
  }

  /**
   Every live handle is in exactly one of the three documented states: referenced, in the table and off the list;
   unreferenced, in the table and on the list; referenced, not in the table and off the list.
   */
  lemma ThreeStates<H>(strict: bool, ratio: real, ops: seq<Op<H>>, h: H)
    requires ratio >= 0.0 && h in Reached(strict, ratio, ops).live
    ensures var s := Reached(strict, ratio, ops);
      var e := s.live[h];
      && (e.inCache <==> Bound(s, h))
      && (h in s.lru <==> e.inCache && e.refs == 0)
      && (e.inCache || e.refs > 0)
  {
    Reachable(strict, ratio, ops);
    Parts(Reached(strict, ratio, ops), {});
  }

  /** The assertion in Release: over capacity, there is nothing to evict. */
  lemma OverCapacityMeansPinned<H>(strict: bool, ratio: real, ops: seq<Op<H>>)
    requires ratio >= 0.0 && Reached(strict, ratio, ops).usage > Reached(strict, ratio, ops).capacity
    ensures Reached(strict, ratio, ops).lru == []
  {
    Reachable(strict, ratio, ops);
  }

  // ---- conservation

  /**
   `usage_` is the total charge of all live handles, erased but pinned ones included; `lru_usage_` is the total over
   the LRU list; and what GetPinnedUsage returns is the total over the referenced handles.
   */
  lemma Conservation<H>(strict: bool, ratio: real, ops: seq<Op<H>>)
    requires ratio >= 0.0
    ensures var s := Reached(strict, ratio, ops);
      && s.usage == TotalCharge(s.live) && s.lruUsage == ListCharge(s.live, s.lru)
      && s.usage - s.lruUsage == TotalCharge(Referenced(s.live))
      && s.low <= |s.lru| && s.highUsage == ListCharge(s.live, s.lru[s.low..])
  {
    var s := Reached(strict, ratio, ops);
    Reachable(strict, ratio, ops);
    PinnedIsReferenced(s);
  }

  /** The list is a low-priority prefix and a high-priority suffix, split at `lru_low_pri_`, as the pool flags say. */
  lemma ListIsSplit<H>(strict: bool, ratio: real, ops: seq<Op<H>>, p: nat)
    requires ratio >= 0.0 && p < |Reached(strict, ratio, ops).lru|
    ensures var s := Reached(strict, ratio, ops);
      s.lru[p] in s.live && (s.live[s.lru[p]].inHighPriPool <==> p >= s.low)
  {
    Reachable(strict, ratio, ops);
    Parts(Reached(strict, ratio, ops), {});
  }

  // ---- freeing

  /** No handle is freed twice, and no freed handle is live. */
  lemma FreedOnce<H>(strict: bool, ratio: real, ops: seq<Op<H>>)
    requires ratio >= 0.0
    ensures var s := Reached(strict, ratio, ops);
      && (forall i, j :: 0 <= i < j < |s.freed| ==> s.freed[i] != s.freed[j])
      && (forall h :: h in s.freed ==> h !in s.live)
  {
    Reachable(strict, ratio, ops);
    Parts(Reached(strict, ratio, ops), {});
  }

  lemma {:induction false} EraseUnRefSpares<H>(s: Shard<H>)
    requires Good(s)
    ensures Spares(s, EraseUnRefEntries(s))
    decreases |s.lru|
  {
    Parts(s, {});
    if |s.lru| > 0 {
      EvictOldestKeeps(s);
      EraseUnRefSpares(EvictOldest(s));
      assert EvictOldest(s).live == s.live - {s.lru[0]};
    }
  }

  lemma ReleaseSpares<H>(s: Shard<H>, h: H, force: bool, g: H)
    requires Inv(s) && h in s.live && s.live[h].refs > 0 && s.low <= |s.lru| && g in s.live
    requires (g != h || s.live[h].refs > 1)
    ensures g in Release(s, h, force).live
  {
    if s.live[h].refs == 1 && s.live[h].inCache && s.usage <= s.capacity && !force {
      CachedIsBound(s, h);
      DroppedKeeps(s, h, {h});
      LruInsertKeeps(Dropped(s, h), h);
      assert LruInsert(Dropped(s, h), h).live.Keys == Dropped(s, h).live.Keys;
    }
  }

  lemma EraseSpares<H>(s: Shard<H>, id: Key)
    requires Inv(s)
    ensures Spares(s, Erase(s, id))
  {
    Parts(s, {});
    if id in s.table { EraseIs(s, id); }
  }

  lemma SetRatioSpares<H>(s: Shard<H>, ratio: real)
    requires Inv(s) && ratio >= 0.0
    ensures Spares(s, SetHighPriorityPoolRatio(s, ratio))
  {
    ShareGrows(0, s.capacity, ratio);
    SetRatioMaintains(s, s.(ratio := ratio, poolCapacity := Share(s.capacity, ratio)));
  }

  lemma SetCapacitySpares<H>(s: Shard<H>, capacity: nat)
    requires Inv(s)
    ensures Spares(s, SetCapacity(s, capacity))
  {
    var s1 := s.(capacity := capacity, poolCapacity := Share(capacity, s.ratio));
    assert Nearly(s1, {}) by {
      Parts(s, {});
      ShareGrows(0, capacity, s.ratio);
      Whole(s1, {});
    }
    EvictSpares(s1, 0);
  }

  /** No operation frees a referenced handle, except the release of its last reference. */
  lemma ReferencedIsNotFreed<H>(strict: bool, ratio: real, ops: seq<Op<H>>, op: Op<H>, g: H)
    requires ratio >= 0.0
    requires var s := Reached(strict, ratio, ops);
      g in s.live && s.live[g].refs > 0 && !(op.OpRelease? && op.h == g && s.live[g].refs == 1)
    ensures g in Step(Reached(strict, ratio, ops), op).live
  {
    var s := Reached(strict, ratio, ops);
    Reachable(strict, ratio, ops);
    if Legal(s, op) && s.low <= |s.lru| {
      match op
      case OpInsert(h, r) => InsertSpares(s, h, r);
      case OpLookup(id) =>
      case OpRef(h) =>
      case OpRelease(h, force) => ReleaseSpares(s, h, force, g);
      case OpErase(id) => EraseSpares(s, id);
      case OpSetCapacity(c) => SetCapacitySpares(s, c);
      case OpSetStrict(b) =>
      case OpSetRatio(r) => SetRatioSpares(s, r);
      case OpEraseUnRef => EraseUnRefSpares(s);
    }
  }

  // ---- the table as a map from keys to the latest insertion

  /** The operation is an insertion of this key that enters the table. */
  predicate EntersAt<H(==)>(s: Shard<H>, op: Op<H>, id: Key) {
    Legal(s, op) && op.OpInsert? && op.r.id == id && Entering(s, op.r)
  }

  lemma BindingStep<H>(s: Shard<H>, op: Op<H>, id: Key)
    requires Inv(s) && id in Step(s, op).table
    ensures var s' := Step(s, op);
      s'.table[id] in s'.live &&
      if EntersAt(s, op, id) then s'.table[id] == op.h && s'.live[op.h].value == op.r.value
      else id in s.table && s'.table[id] == s.table[id] && s.table[id] in s.live
           && s'.live[s.table[id]].value == s.live[s.table[id]].value
  {
    StepKeeps(s, op);
    Parts(s, {});
    Parts(Step(s, op), {});
    if Legal(s, op) && s.low <= |s.lru| {
      match op
      case OpInsert(h, r) => if Entering(s, r) { InsertEnters(s, h, r); } else { InsertRefused(s, h, r); }
      case OpLookup(k) => LookupKeeps(s, k);
      case OpRef(h) => RefKeeps(s, h);
      case OpRelease(h, force) => ReleaseKeeps(s, h, force);
      case OpErase(k) => EraseKeeps(s, k);
      case OpSetCapacity(c) => SetCapacityInv(s, c);
      case OpSetStrict(b) =>
      case OpSetRatio(r) => SetRatioKeeps(s, r);
      case OpEraseUnRef => EraseUnRefKeeps(s);
    }
  }

  /** Operation `n` is the insertion that the table's binding of `id` comes from. */
  ghost predicate LatestAt<H>(strict: bool, ratio: real, ops: seq<Op<H>>, id: Key, n: nat) {
    var s := Reached(strict, ratio, ops);
    && n < |ops| && EntersAt(Reached(strict, ratio, ops[..n]), ops[n], id)
    && id in s.table && s.table[id] == ops[n].h && ops[n].h in s.live && s.live[ops[n].h].value == ops[n].r.value
    && (forall m :: n < m < |ops| ==> !EntersAt(Reached(strict, ratio, ops[..m]), ops[m], id))
    && (forall m :: n < m < |ops| ==> id in Reached(strict, ratio, ops[..m]).table)
  }

  /**
   Whatever the table binds a key to, hence whatever Lookup returns, is the value of the latest insertion of that key
   that entered the table, and the key has been in the table ever since.
   */
  lemma {:induction false} LookupFindsLatest<H>(strict: bool, ratio: real, ops: seq<Op<H>>, id: Key) returns (n: nat)
    requires ratio >= 0.0 && id in Reached(strict, ratio, ops).table
    ensures LatestAt(strict, ratio, ops, id, n)
    decreases |ops|
  {
    var last := |ops| - 1;
    var front, op := ops[..last], ops[last];
    var s := Reached(strict, ratio, front);
    Reachable(strict, ratio, front);
    BindingStep(s, op, id);
    if EntersAt(s, op, id) {
      n := last;
    } else {
      n := LookupFindsLatest(strict, ratio, front, id);
      assert front[..n] == ops[..n];
      forall m | n < m < |ops|
        ensures !EntersAt(Reached(strict, ratio, ops[..m]), ops[m], id) && id in Reached(strict, ratio, ops[..m]).table
      {
        if m < last { assert front[..m] == ops[..m] && front[m] == ops[m]; }
      }
    }
  }

  // ---- limits

  /** Under the strict limit, an insertion leaves the usage within capacity or no higher than it was. */
  lemma StrictLimit<H>(strict: bool, ratio: real, ops: seq<Op<H>>, h: H, r: Request)
    requires ratio >= 0.0 && Legal(Reached(strict, ratio, ops), OpInsert(h, r)) && Reached(strict, ratio, ops).strict
    ensures var s, s' := Reached(strict, ratio, ops), Step(Reached(strict, ratio, ops), OpInsert(h, r));
      s'.usage <= s.capacity || s'.usage <= s.usage
  {
    var s := Reached(strict, ratio, ops);
    Reachable(strict, ratio, ops);
    Parts(s, {});
    if Entering(s, r) {
      InsertEnters(s, h, r);
    } else {
      var k := EvictFrees(s, r.charge);
      ListNonNegative(s.live, s.lru[..k]);
    }
  }

  /** What is left of the high-priority pool once the capacity is set is within the new share. */
  ghost predicate Fits<H>(s: Shard<H>, capacity: nat) {
    s.low <= |s.lru| && PoolLeft(s, capacity) as real <= Share(capacity, s.ratio)
  }

  ghost predicate PoolInv<H>(s: Shard<H>) { ShareOk(s) && PoolOk(s) }

  lemma ShareStep<H>(s: Shard<H>, op: Op<H>)
    requires Inv(s) && ShareOk(s)
    ensures ShareOk(Step(s, op)) && (PoolOk(s) && !op.OpSetCapacity? ==> PoolOk(Step(s, op)))
  {
    if Legal(s, op) && s.low <= |s.lru| {
      match op
      case OpInsert(h, r) => if Entering(s, r) { InsertEnters(s, h, r); } else { InsertRefused(s, h, r); }
      case OpLookup(id) => LookupKeeps(s, id);
      case OpRef(h) =>
      case OpRelease(h, force) => ReleaseKeeps(s, h, force);
      case OpErase(id) => EraseKeeps(s, id);
      case OpSetCapacity(c) => SetCapacityPool(s, c);
      case OpSetStrict(b) =>
      case OpSetRatio(ratio) => SetRatioKeeps(s, ratio);
      case OpEraseUnRef => EraseUnRefKeeps(s);
    }
  }

  /** Only SetCapacity can take the pool above its share, and it does exactly if what is left does not fit. */
  lemma PoolStep<H>(s: Shard<H>, op: Op<H>)
    requires Inv(s) && PoolInv(s)
    ensures PoolInv(Step(s, op)) <==> (op.OpSetCapacity? ==> Fits(s, op.capacity))
  {
    ShareStep(s, op);
    if op.OpSetCapacity? { SetCapacityPoolExactly(s, op.capacity); }
  }

  /** A capacity that is not lowered always fits. */
  lemma GrowingFits<H>(s: Shard<H>, capacity: nat)
    requires Inv(s) && PoolInv(s) && capacity >= s.capacity
    ensures Fits(s, capacity)
  {
    SetCapacityPool(s, capacity);
    SetCapacityPoolExactly(s, capacity);
  }

  ghost predicate AlwaysWithinShare<H>(s: Shard<H>, ops: seq<Op<H>>) {
    forall n :: 0 <= n <= |ops| ==> PoolInv(Run(s, ops[..n]))
  }

  ghost predicate AlwaysFits<H>(s: Shard<H>, ops: seq<Op<H>>) {
    forall n :: 0 <= n < |ops| && ops[n].OpSetCapacity? ==> Fits(Run(s, ops[..n]), ops[n].capacity)
  }

  lemma RunOn<H>(s: Shard<H>, ops: seq<Op<H>>, n: nat)
    requires n < |ops|
    ensures Run(s, ops[..n + 1]) == Step(Run(s, ops[..n]), ops[n])
  {
    assert ops[..n + 1][..n] == ops[..n];
  }

  lemma {:induction false} PoolUpTo<H>(s: Shard<H>, ops: seq<Op<H>>, n: nat)
    requires Inv(s) && PoolInv(s) && AlwaysFits(s, ops) && n <= |ops|
    ensures PoolInv(Run(s, ops[..n]))
    decreases n
  {
    if n > 0 {
      PoolUpTo(s, ops, n - 1);
      RunKeeps(s, ops[..n - 1]);
      RunOn(s, ops, n - 1);
      PoolStep(Run(s, ops[..n - 1]), ops[n - 1]);
    } else {
      assert ops[..0] == [];
    }
  }

  lemma FitsIfWithin<H>(s: Shard<H>, ops: seq<Op<H>>, n: nat)
    requires Inv(s) && AlwaysWithinShare(s, ops) && n < |ops| && ops[n].OpSetCapacity?
    ensures Fits(Run(s, ops[..n]), ops[n].capacity)
  {
    RunKeeps(s, ops[..n]);
    RunOn(s, ops, n);
    assert PoolInv(Run(s, ops[..n])) && PoolInv(Run(s, ops[..n + 1]));
    PoolStep(Run(s, ops[..n]), ops[n]);
  }

  /**
   The high-priority pool stays within its share all through a run exactly if at every SetCapacity what is left of it
   fits the new share.
   */
  lemma PoolBound<H>(strict: bool, ratio: real, ops: seq<Op<H>>)
    requires ratio >= 0.0
    ensures AlwaysWithinShare(Empty(strict, ratio), ops) <==> AlwaysFits(Empty(strict, ratio), ops)
  {
    var s := Empty<H>(strict, ratio);
    EmptyOk<H>(strict, ratio);
    if AlwaysFits(s, ops) {
      forall n | 0 <= n <= |ops| ensures PoolInv(Run(s, ops[..n])) { PoolUpTo(s, ops, n); }
    }
    if AlwaysWithinShare(s, ops) {
      forall n | 0 <= n < |ops| && ops[n].OpSetCapacity? ensures Fits(Run(s, ops[..n]), ops[n].capacity) {
        FitsIfWithin(s, ops, n);
      }
    }
  }

  lemma {:induction false} RunThree<H>(s: Shard<H>, a: Op<H>, b: Op<H>, c: Op<H>)
    ensures Run(s, [a, b, c]) == Step(Step(Step(s, a), b), c)
  {
    assert [a, b, c][..2] == [a, b] && [a, b][..1] == [a] && [a][..0] == [];
    assert Run(s, [a]) == Step(Run(s, []), a);
    assert Run(s, [a, b]) == Step(Run(s, [a]), b);
  }

  /** Lowering the capacity can leave the pool over its share: SetCapacity evicts only for the total. */
  lemma PoolOverShare(h: int) returns (ops: seq<Op<int>>)
    ensures var s := Reached(false, 0.5, ops); s.highUsage as real > Share(s.capacity, s.ratio) && s.usage <= s.capacity
  {
    var r := Request(Key("k", 0), 0, 5, true, false);
    ops := [OpSetCapacity(10), OpInsert(h, r), OpSetCapacity(5)];
    var s0 := Empty<int>(false, 0.5);
    RunThree(s0, OpSetCapacity(10), OpInsert(h, r), OpSetCapacity(5));
    var s1 := Step(s0, OpSetCapacity(10));
    assert s1 == s0.(capacity := 10, poolCapacity := 5.0);
    var e := r.Fresh();
    var s2 := Step(s1, OpInsert(h, r));
    var s1' := s1.(table := map[r.id := h], live := map[h := e], usage := 5);
    assert s2 == LruInsert(s1', h);
    var s1'' := s1'.(lru := [h], live := map[h := e.(inHighPriPool := true)], highUsage := 5);
    assert s2 == MaintainPoolSize(s1'').(lruUsage := 5);
    assert s2 == s1''.(lruUsage := 5);
    assert Step(s2, OpSetCapacity(5)) == s2.(capacity := 5, poolCapacity := 2.5);
  }

  /** After an insertion that answered Ok, the key can still have its older value. */
  lemma OlderStays() returns (ops: seq<Op<int>>, r: Request)
    ensures var s := Reached(false, 0.0, ops);
      && Legal(s, OpInsert(2, r)) && InsertStatus(s, r).Ok?
      && var s' := Step(s, OpInsert(2, r));
         r.id in s'.table && s'.table[r.id] in s'.live && s'.live[s'.table[r.id]].value != r.value
  {
    var first := Request(Key("k", 0), 10, 5, false, true);
    r := Request(Key("k", 0), 20, 5, false, false);
    ops := [OpInsert(1, first)];
    var s0 := Empty<int>(false, 0.0);
    var s := Step(s0, OpInsert(1, first));
    assert ops[..0] == [];
    assert Run(s0, ops) == Step(Run(s0, []), OpInsert(1, first));
    assert s == s0.(table := map[first.id := 1], live := map[1 := first.Fresh()], usage := 5);
    assert Step(s, OpInsert(2, r)) == s.(freed := [2]);
  }
}
