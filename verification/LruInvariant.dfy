/** What every operation of the LRU shard keeps. */
module LruInvariant {
  import opened Basics
  import opened Sums
  import opened LruModel

  // ---- charges

  /** The total charge of a set of handles. */
  ghost function TotalCharge<H>(m: map<H, Entry>): int
    decreases |m|
  {
    if m == map[] then 0 else
      var h :| h in m;
      m[h].charge + TotalCharge(m - {h})
  }

  lemma {:induction false} TotalSplit<H>(m: map<H, Entry>, h: H)
    requires h in m
    ensures TotalCharge(m) == m[h].charge + TotalCharge(m - {h})
    decreases |m|
  {
    var g :| g in m && TotalCharge(m) == m[g].charge + TotalCharge(m - {g});
    if g != h {
      TotalSplit(m - {g}, h);
      TotalSplit(m - {h}, g);
      assert m - {g} - {h} == m - {h} - {g};
    }
  }

  lemma TotalUpdate<H>(m: map<H, Entry>, h: H, e: Entry)
    ensures TotalCharge(m[h := e]) == e.charge + if h in m then TotalCharge(m) - m[h].charge else TotalCharge(m)
  {
    var m' := m[h := e];
    TotalSplit(m', h);
    assert m' - {h} == m - {h};
    if h in m {
      TotalSplit(m, h);
    } else {
      assert m - {h} == m;
    }
  }

  function ChargeOf<H>(live: map<H, Entry>, h: H): int { if h in live then live[h].charge else 0 }

  /** The total charge of a stretch of the LRU list. */
  function ListCharge<H>(live: map<H, Entry>, xs: seq<H>): int {
    if |xs| == 0 then 0 else ListCharge(live, xs[..|xs| - 1]) + ChargeOf(live, xs[|xs| - 1])
  }

  lemma {:induction false} ListAppend<H>(live: map<H, Entry>, xs: seq<H>, ys: seq<H>)
    ensures ListCharge(live, xs + ys) == ListCharge(live, xs) + ListCharge(live, ys)
  {
    if |ys| == 0 {
      assert xs + ys == xs;
    } else {
      var n := |ys| - 1;
      assert (xs + ys)[..|xs| + n] == xs + ys[..n];
      ListAppend(live, xs, ys[..n]);
    }
  }

  lemma {:induction false} ListSame<H>(live: map<H, Entry>, live': map<H, Entry>, xs: seq<H>)
    requires forall h :: h in xs ==> ChargeOf(live, h) == ChargeOf(live', h)
    ensures ListCharge(live, xs) == ListCharge(live', xs)
  {
    if |xs| > 0 { ListSame(live, live', xs[..|xs| - 1]); }
  }

  lemma {:induction false} ListNonNegative<H>(live: map<H, Entry>, xs: seq<H>)
    ensures ListCharge(live, xs) >= 0
  {
    if |xs| > 0 { ListNonNegative(live, xs[..|xs| - 1]); }
  }

  lemma ListOne<H>(live: map<H, Entry>, h: H)
    ensures ListCharge(live, [h]) == ChargeOf(live, h)
  {
    assert [h][..0] == [];
  }

  // ---- the invariant, up to a set `x` of handles that an operation is in the middle of moving

  /** The table sends a key to a handle exactly when that handle is live, in cache and carries that key. */
  ghost predicate TableOk<H>(s: Shard<H>, x: set<H>) {
    && (forall id :: id in s.table ==>
        s.table[id] in s.live && s.live[s.table[id]].inCache && s.live[s.table[id]].id == id)
    && (forall h :: h in s.live && s.live[h].inCache && h !in x ==>
        s.live[h].id in s.table && s.table[s.live[h].id] == h)
  }

  /** The LRU list holds exactly the handles that are in cache and unreferenced. */
  ghost predicate ListOk<H>(s: Shard<H>, x: set<H>) {
    && Distinct(s.lru)
    && (forall h :: h in s.lru ==> h in s.live && h !in x && s.live[h].inCache && s.live[h].refs == 0)
    && (forall h :: h in s.live && h !in x && s.live[h].inCache && s.live[h].refs == 0 ==> h in s.lru)
  }

  /** The list is split at `low` into a low-priority prefix and a high-priority suffix, as the pool flags say. */
  ghost predicate PoolsOk<H>(live: map<H, Entry>, lru: seq<H>, low: nat) {
    && low <= |lru|
    && forall p :: 0 <= p < |lru| && lru[p] in live ==> (live[lru[p]].inHighPriPool <==> p >= low)
  }

  /** The three documented states: in cache and referenced, in cache and unreferenced, referenced and not in cache. */
  ghost predicate StatesOk<H>(s: Shard<H>, x: set<H>) {
    forall h :: h in s.live && h !in x ==> s.live[h].inCache || s.live[h].refs > 0
  }

  ghost predicate ChargesOk<H>(s: Shard<H>) {
    && s.usage == TotalCharge(s.live)
    && s.lruUsage == ListCharge(s.live, s.lru)
    && s.low <= |s.lru| && s.highUsage == ListCharge(s.live, s.lru[s.low..])
  }

  /** A freed handle is gone for good: it is not live, and it is freed once. */
  ghost predicate FreedOk<H>(s: Shard<H>) {
    Distinct(s.freed) && forall h :: h in s.freed ==> h !in s.live
  }

  ghost predicate Shaped<H>(s: Shard<H>, x: set<H>) {
    && TableOk(s, x) && ListOk(s, x) && PoolsOk(s.live, s.lru, s.low) && StatesOk(s, x) && FreedOk(s)
    && s.ratio >= 0.0 && s.poolCapacity >= 0.0
  }

  datatype Clause = OfShape | OfCharges

  ghost predicate Holds<H>(s: Shard<H>, x: set<H>, c: Clause) {
    match c
    case OfShape => Shaped(s, x)
    case OfCharges => ChargesOk(s)
  }

  ghost predicate Nearly<H>(s: Shard<H>, x: set<H>) { forall c: Clause :: Holds(s, x, c) }

  lemma Parts<H>(s: Shard<H>, x: set<H>)
    requires Nearly(s, x)
    ensures Shaped(s, x) && ChargesOk(s)
  {
    assert Holds(s, x, OfShape) && Holds(s, x, OfCharges);
  }

  lemma Whole<H>(s: Shard<H>, x: set<H>)
    requires Shaped(s, x) && ChargesOk(s)
    ensures Nearly(s, x)
  {}

  ghost predicate Good<H>(s: Shard<H>) { Nearly(s, {}) }

  /** The cache is over capacity only when nothing can be evicted. */
  ghost predicate FullOnlyIfPinned<H>(s: Shard<H>) {
    s.usage > s.capacity ==> s.lru == []
  }

  /** The high-priority pool is within its share. */
  ghost predicate PoolOk<H>(s: Shard<H>) {
    s.highUsage as real <= s.poolCapacity
  }

  // ---- the pieces of the operations

  lemma WithoutCharge<H>(live: map<H, Entry>, xs: seq<H>, p: nat)
    requires p < |xs|
    ensures ListCharge(live, Without(xs, p)) == ListCharge(live, xs) - ChargeOf(live, xs[p])
  {
    assert xs == xs[..p] + ([xs[p]] + xs[p + 1..]);
    ListAppend(live, xs[..p], [xs[p]] + xs[p + 1..]);
    ListAppend(live, [xs[p]], xs[p + 1..]);
    ListOne(live, xs[p]);
    ListAppend(live, xs[..p], xs[p + 1..]);
  }

  lemma SuffixWithout<H>(live: map<H, Entry>, lru: seq<H>, low: nat, p: nat)
    requires low <= |lru| && p < |lru|
    ensures var low' := if p < low then low - 1 else low;
      ListCharge(live, Without(lru, p)[low'..]) == ListCharge(live, lru[low..]) - if p < low then 0
          else ChargeOf(live, lru[p])
  {
    if p < low {
      assert Without(lru, p)[low - 1..] == lru[low..];
    } else {
      assert Without(lru, p)[low..] == Without(lru[low..], p - low);
      WithoutCharge(live, lru[low..], p - low);
    }
  }

  lemma LruRemoveCharges<H>(s: Shard<H>, h: H)
    requires ChargesOk(s) && PoolsOk(s.live, s.lru, s.low) && h in s.lru && h in s.live
    ensures ChargesOk(LruRemove(s, h))
  {
    var p := IndexOf(s.lru, h);
    WithoutCharge(s.live, s.lru, p);
    SuffixWithout(s.live, s.lru, s.low, p);
  }

  lemma PoolsWithout<H>(live: map<H, Entry>, lru: seq<H>, low: nat, p: nat)
    requires PoolsOk(live, lru, low) && p < |lru|
    ensures PoolsOk(live, Without(lru, p), if p < low then low - 1 else low)
  {
    var ys := Without(lru, p);
    forall q | 0 <= q < |ys| ensures ys[q] == lru[if q < p then q else q + 1] {}
  }

  lemma LruRemoveKeeps<H>(s: Shard<H>, x: set<H>, h: H, x': set<H>)
    requires Nearly(s, x) && h in s.lru && h in s.live && x' == x + {h}
    ensures Nearly(LruRemove(s, h), x') && h !in LruRemove(s, h).lru
  {
    Parts(s, x);
    var s', p := LruRemove(s, h), IndexOf(s.lru, h);
    LruRemoveCharges(s, h);
    WithoutOk(s.lru, p);
    PoolsWithout(s.live, s.lru, s.low, p);
    assert TableOk(s', x');
    assert ListOk(s', x');
    Whole(s', x');
  }

  lemma ChargesSame<H>(s: Shard<H>, live: map<H, Entry>, usage: int)
    requires ChargesOk(s) && usage == TotalCharge(live)
    requires forall h :: h in s.lru ==> h in s.live && h in live && live[h].charge == s.live[h].charge
    ensures ChargesOk(s.(live := live, usage := usage))
  {
    ListSame(s.live, live, s.lru);
    ListSame(s.live, live, s.lru[s.low..]);
  }

  /** Changing a handle that is off the list, without changing its charge or its key. */
  lemma OffListKeeps<H>(s: Shard<H>, x: set<H>, h: H, e: Entry, x': set<H>)
    requires Nearly(s, x) && h in s.live && h !in s.lru
    requires e.id == s.live[h].id && e.charge == s.live[h].charge
    requires x' == x || x' == x - {h} || x' == x + {h}
    requires h !in x' ==> (e.inCache ==> e.id in s.table && s.table[e.id] == h) && e.refs > 0
    requires e.id in s.table && s.table[e.id] == h ==> e.inCache
    ensures Nearly(s.(live := s.live[h := e]), x')
  {
    Parts(s, x);
    var s' := s.(live := s.live[h := e]);
    TotalUpdate(s.live, h, e);
    ChargesSame(s, s'.live, s.usage);
    assert TableOk(s', x');
    assert ListOk(s', x');
    Whole(s', x');
  }

  lemma FreeShape<H>(s: Shard<H>, x: set<H>, h: H, x': set<H>)
    requires Shaped(s, x) && h in s.live && h in x && !s.live[h].inCache && x' == x - {h}
    ensures Shaped(Free(s, h), x')
  {
    var s' := Free(s, h);
    FreedPush(s, h);
    assert TableOk(s', x');
    assert ListOk(s', x');
  }

  lemma FreeKeeps<H>(s: Shard<H>, x: set<H>, h: H, x': set<H>)
    requires Nearly(s, x) && h in s.live && h in x && !s.live[h].inCache && x' == x - {h}
    ensures Nearly(Free(s, h), x')
  {
    Parts(s, x);
    var s' := Free(s, h);
    TotalSplit(s.live, h);
    ChargesSame(s, s'.live, s'.usage);
    FreeShape(s, x, h, x');
    Whole(s', x');
  }

  lemma FreedPush<H>(s: Shard<H>, h: H)
    requires FreedOk(s) && h in s.live
    ensures FreedOk(Free(s, h))
  {
    assert h !in s.freed;
  }

  lemma UnlistKeeps<H>(s: Shard<H>, x: set<H>, h: H)
    requires Nearly(s, x) && h in s.live && h in x && s.live[h].inCache && s.live[h].id in s.table
    requires s.table[s.live[h].id] == h
    ensures Nearly(Unlist(s, h), x) && !Unlist(s, h).live[h].inCache
  {
    Parts(s, x);
    var s' := Unlist(s, h);
    TotalUpdate(s.live, h, s'.live[h]);
    ChargesSame(s, s'.live, s.usage);
    assert TableOk(s', x);
    assert ListOk(s', x);
    Whole(s', x);
  }

  /** A stretch with a positive total is not empty. */
  lemma SuffixStep<H>(live: map<H, Entry>, lru: seq<H>, low: nat)
    requires low < |lru|
    ensures ListCharge(live, lru[low..]) == ChargeOf(live, lru[low]) + ListCharge(live, lru[low + 1..])
  {
    assert lru[low..] == [lru[low]] + lru[low + 1..];
    ListAppend(live, [lru[low]], lru[low + 1..]);
    ListOne(live, lru[low]);
  }

  /** One turn of MaintainPoolSize: the oldest entry of the high-priority pool becomes the newest of the other one. */
  function Overflow<H>(s: Shard<H>): Shard<H>
    requires s.low < |s.lru| && s.lru[s.low] in s.live
  {
    var h := s.lru[s.low];
    s.(low := s.low + 1, live := s.live[h := s.live[h].(inHighPriPool := false)],
        highUsage := s.highUsage - s.live[h].charge)
  }

  lemma OverflowKeeps<H>(s: Shard<H>, x: set<H>)
    requires Shaped(s, x) && s.low < |s.lru|
    ensures s.lru[s.low] in s.live && Shaped(Overflow(s), x)
  {
    var s' := Overflow(s);
    assert forall h :: h in s.live ==> s'.live[h].(inHighPriPool := s.live[h].inHighPriPool) == s.live[h];
    assert ListOk(s', x) && TableOk(s', x);
  }

  /** MaintainPoolSize touches nothing but where the list is split and the flags that say so. */
  ghost predicate OnlyPools<H>(s: Shard<H>, s': Shard<H>) {
    && s' == s.(low := s'.low, live := s'.live, highUsage := s'.highUsage)
    && s'.live.Keys == s.live.Keys
    && forall h :: h in s.live ==> s'.live[h].(inHighPriPool := s.live[h].inHighPriPool) == s.live[h]
  }

  lemma {:induction false} MaintainShape<H>(s: Shard<H>, x: set<H>)
    requires Shaped(s, x)
    ensures Shaped(MaintainPoolSize(s), x) && OnlyPools(s, MaintainPoolSize(s))
    decreases |s.lru| - s.low
  {
    if s.highUsage as real > s.poolCapacity && s.low < |s.lru| {
      OverflowKeeps(s, x);
      MaintainShape(Overflow(s), x);
    }
  }

  /** It never reaches the dummy head: it stops because the pool fits. */
  lemma {:induction false} MaintainFits<H>(s: Shard<H>, x: set<H>)
    requires Shaped(s, x) && s.highUsage == ListCharge(s.live, s.lru[s.low..])
    ensures var s' := MaintainPoolSize(s);
      s'.low <= |s'.lru| && s'.highUsage == ListCharge(s'.live, s'.lru[s'.low..]) && PoolOk(s')
    decreases |s.lru| - s.low
  {
    if s.highUsage as real > s.poolCapacity {
      OverflowKeeps(s, x);
      var s1 := Overflow(s);
      SuffixStep(s.live, s.lru, s.low);
      ListSame(s.live, s1.live, s.lru[s1.low..]);
      MaintainFits(s1, x);
    }
  }

  lemma {:induction false} TotalSame<H>(m: map<H, Entry>, m': map<H, Entry>)
    requires m.Keys == m'.Keys && forall h :: h in m ==> m'[h].charge == m[h].charge
    ensures TotalCharge(m) == TotalCharge(m')
    decreases |m|
  {
    if m == map[] {
      assert m' == map[];
    } else {
      var h :| h in m;
      TotalSplit(m, h);
      TotalSplit(m', h);
      TotalSame(m - {h}, m' - {h});
    }
  }

  lemma MaintainKeeps<H>(s: Shard<H>, x: set<H>)
    requires Nearly(s, x)
    ensures Nearly(MaintainPoolSize(s), x) && PoolOk(MaintainPoolSize(s)) && OnlyPools(s, MaintainPoolSize(s))
  {
    Parts(s, x);
    var s' := MaintainPoolSize(s);
    MaintainShape(s, x);
    MaintainFits(s, x);
    TotalSame(s.live, s'.live);
    ListSame(s.live, s'.live, s.lru);
    Whole(s', x);
  }

  // ---- LRU_Insert

  lemma InsertedMembers<H>(lru: seq<H>, low: nat, h: H, ys: seq<H>)
    requires low <= |lru| && ys == lru[..low] + [h] + lru[low..]
    ensures forall g :: g in ys <==> g in lru || g == h
  {
    assert forall i :: 0 <= i < |lru| ==> lru[i] == ys[if i < low then i else i + 1];
    assert ys[low] == h;
  }

  lemma InsertedDistinct<H>(lru: seq<H>, low: nat, h: H, ys: seq<H>)
    requires low <= |lru| && Distinct(lru) && h !in lru && ys == lru[..low] + [h] + lru[low..]
    ensures Distinct(ys) && ys[low + 1..] == lru[low..]
  {
    forall i, j | 0 <= i < j < |ys| ensures ys[i] != ys[j] {
      var i', j' := if i < low then i else i - 1, if j < low then j else j - 1;
      if i == low {
        assert ys[j] == lru[j'];
      } else if j == low {
        assert ys[i] == lru[i'];
      } else {
        assert ys[i] == lru[i'] && ys[j] == lru[j'];
      }
    }
  }

  lemma InsertedCharge<H>(live: map<H, Entry>, lru: seq<H>, low: nat, h: H, ys: seq<H>)
    requires low <= |lru| && ys == lru[..low] + [h] + lru[low..]
    ensures ListCharge(live, ys) == ListCharge(live, lru) + ChargeOf(live, h)
  {
    assert lru == lru[..low] + lru[low..];
    ListAppend(live, lru[..low], lru[low..]);
    ListAppend(live, lru[..low] + [h], lru[low..]);
    ListAppend(live, lru[..low], [h]);
    ListOne(live, h);
  }

  /** The handle may be put on the list: it is in cache, unreferenced and off the list. */
  ghost predicate Listable<H>(s: Shard<H>, h: H) {
    && Nearly(s, {h}) && h in s.live && s.live[h].inCache && s.live[h].refs == 0
    && s.live[h].id in s.table && s.table[s.live[h].id] == h
  }

  /** With the handle on the list and its flag on the right side, every handle is where it should be. */
  lemma ListedShape<H>(s: Shard<H>, s': Shard<H>, h: H, pool: bool)
    requires Listable(s, h) && s'.live == s.live[h := s.live[h].(inHighPriPool := pool)]
    requires s'.table == s.table && s'.freed == s.freed && s'.ratio == s.ratio && s'.poolCapacity == s.poolCapacity
    requires Distinct(s'.lru) && (forall g :: g in s'.lru <==> g in s.lru || g == h)
    requires PoolsOk(s'.live, s'.lru, s'.low)
    ensures Shaped(s', {})
  {
    Parts(s, {h});
    assert TableOk(s', {});
    assert ListOk(s', {});
  }

  lemma ListedLive<H>(s: Shard<H>, live: map<H, Entry>, h: H, pool: bool)
    requires Listable(s, h) && live == s.live[h := s.live[h].(inHighPriPool := pool)]
    ensures TotalCharge(live) == s.usage && ListCharge(live, s.lru) == s.lruUsage
    ensures ChargeOf(live, h) == s.live[h].charge
    ensures s.low <= |s.lru| && ListCharge(live, s.lru[s.low..]) == s.highUsage && Distinct(s.lru) && h !in s.lru
    ensures PoolsOk(s.live, s.lru, s.low)
    ensures forall g :: g in s.lru ==> g in s.live && g in live && live[g] == s.live[g]
  {
    Parts(s, {h});
    TotalUpdate(s.live, h, live[h]);
    ListSame(s.live, live, s.lru);
    ListSame(s.live, live, s.lru[s.low..]);
  }

  lemma PoolsInsertLow<H>(live: map<H, Entry>, live': map<H, Entry>, lru: seq<H>, low: nat, h: H)
    requires PoolsOk(live, lru, low) && h !in lru && h in live' && !live'[h].inHighPriPool
    requires forall g :: g in lru ==> g in live && g in live' && live'[g] == live[g]
    ensures PoolsOk(live', lru[..low] + [h] + lru[low..], low + 1)
  {
    var ys := lru[..low] + [h] + lru[low..];
    forall q | 0 <= q < |ys| && q != low ensures ys[q] == lru[if q < low then q else q - 1] {}
  }

  lemma InsertedLowGood<H>(s: Shard<H>, h: H, s': Shard<H>)
    requires Listable(s, h) && s.low <= |s.lru| && !(s.ratio > 0.0 && (s.live[h].isHighPri || s.live[h].hasHit))
    requires s' == LruInsert(s, h)
    ensures Good(s')
  {
    ListedLive(s, s'.live, h, false);
    InsertedDistinct(s.lru, s.low, h, s'.lru);
    InsertedCharge(s'.live, s.lru, s.low, h, s'.lru);
    InsertedMembers(s.lru, s.low, h, s'.lru);
    PoolsInsertLow(s.live, s'.live, s.lru, s.low, h);
    ListedShape(s, s', h, false);
    Whole(s', {});
  }

  lemma LruInsertLow<H>(s: Shard<H>, h: H)
    requires Listable(s, h) && s.low <= |s.lru| && !(s.ratio > 0.0 && (s.live[h].isHighPri || s.live[h].hasHit))
    ensures Good(LruInsert(s, h)) && OnlyPools(s, LruInsert(s, h).(lru := s.lru, low := s.low, lruUsage := s.lruUsage))
    ensures LruInsert(s, h).highUsage == s.highUsage
  {
    InsertedLowGood(s, h, LruInsert(s, h));
  }

  /** The state in the middle of an insertion at the head of the list, before the pool is trimmed. */
  function AtHead<H>(s: Shard<H>, h: H): Shard<H>
    requires h in s.live
  {
    var e := s.live[h].(inHighPriPool := true);
    s.(lru := s.lru + [h], live := s.live[h := e], highUsage := s.highUsage + e.charge)
  }

  lemma PoolsInsertHigh<H>(live: map<H, Entry>, live': map<H, Entry>, lru: seq<H>, low: nat, h: H)
    requires PoolsOk(live, lru, low) && h !in lru && h in live' && live'[h].inHighPriPool
    requires forall g :: g in lru ==> g in live && g in live' && live'[g] == live[g]
    ensures PoolsOk(live', lru + [h], low)
  {
    var ys := lru + [h];
    forall q | 0 <= q < |lru| ensures ys[q] == lru[q] {}
  }

  lemma HeadListed<H>(lru: seq<H>, h: H)
    requires Distinct(lru) && h !in lru
    ensures Distinct(lru + [h]) && forall g :: g in lru + [h] <==> g in lru || g == h
  {}

  lemma AtHeadCharges<H>(live: map<H, Entry>, lru: seq<H>, low: nat, h: H)
    requires low <= |lru|
    ensures ListCharge(live, lru + [h]) == ListCharge(live, lru) + ChargeOf(live, h)
    ensures ListCharge(live, (lru + [h])[low..]) == ListCharge(live, lru[low..]) + ChargeOf(live, h)
  {
    ListAppend(live, lru, [h]);
    ListAppend(live, lru[low..], [h]);
    ListOne(live, h);
    assert (lru + [h])[low..] == lru[low..] + [h];
  }

  lemma AtHeadShape<H>(s: Shard<H>, h: H, s1: Shard<H>)
    requires Listable(s, h) && s1 == AtHead(s, h).(lruUsage := s.lruUsage + s.live[h].charge)
    ensures Shaped(s1, {})
  {
    ListedLive(s, s1.live, h, true);
    PoolsInsertHigh(s.live, s1.live, s.lru, s.low, h);
    HeadListed(s.lru, h);
    ListedShape(s, s1, h, true);
  }

  lemma AtHeadKeeps<H>(s: Shard<H>, h: H)
    requires Listable(s, h)
    ensures Nearly(AtHead(s, h).(lruUsage := s.lruUsage + s.live[h].charge), {})
  {
    var s1 := AtHead(s, h).(lruUsage := s.lruUsage + s.live[h].charge);
    AtHeadShape(s, h, s1);
    ListedLive(s, s1.live, h, true);
    AtHeadCharges(s1.live, s.lru, s.low, h);
    Whole(s1, {});
  }

  /** MaintainPoolSize does not look at the list's total, so that may be brought up to date before or after. */
  lemma {:induction false} MaintainIgnoresTotal<H>(s: Shard<H>, total: int)
    ensures MaintainPoolSize(s.(lruUsage := total)) == MaintainPoolSize(s).(lruUsage := total)
    ensures MaintainPoolSize(s).lruUsage == s.lruUsage
    decreases |s.lru| - s.low
  {
    if s.highUsage as real > s.poolCapacity && s.low < |s.lru| && s.lru[s.low] in s.live {
      MaintainIgnoresTotal(Overflow(s), total);
    }
  }

  lemma LruInsertIsHigh<H>(s: Shard<H>, h: H)
    requires h in s.live && s.low <= |s.lru| && s.ratio > 0.0 && (s.live[h].isHighPri || s.live[h].hasHit)
    ensures LruInsert(s, h) == MaintainPoolSize(AtHead(s, h).(lruUsage := s.lruUsage + s.live[h].charge))
  {
    MaintainIgnoresTotal(AtHead(s, h), s.lruUsage + s.live[h].charge);
  }

  lemma LruInsertHigh<H>(s: Shard<H>, h: H)
    requires Listable(s, h) && s.low <= |s.lru| && s.ratio > 0.0 && (s.live[h].isHighPri || s.live[h].hasHit)
    ensures Good(LruInsert(s, h)) && PoolOk(LruInsert(s, h))
    ensures OnlyPools(s, LruInsert(s, h).(lru := s.lru, low := s.low, lruUsage := s.lruUsage))
  {
    var s1 := AtHead(s, h).(lruUsage := s.lruUsage + s.live[h].charge);
    LruInsertIsHigh(s, h);
    AtHeadKeeps(s, h);
    MaintainKeeps(s1, {});
  }

  /** LRU_Insert makes the shard whole again; only the place in the list and the pool flags change. */
  lemma LruInsertKeeps<H>(s: Shard<H>, h: H)
    requires Listable(s, h) && s.low <= |s.lru|
    ensures Good(LruInsert(s, h)) && (PoolOk(s) ==> PoolOk(LruInsert(s, h)))
    ensures OnlyPools(s, LruInsert(s, h).(lru := s.lru, low := s.low, lruUsage := s.lruUsage))
  {
    if s.ratio > 0.0 && (s.live[h].isHighPri || s.live[h].hasHit) {
      LruInsertHigh(s, h);
    } else {
      LruInsertLow(s, h);
    }
  }
}
