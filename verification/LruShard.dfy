/** The LRU cache shard as it is: handles on an intrusive circular list around a dummy head, and the handle table. */
module LruShard {
  import opened Basics
  import opened LruModel
  import opened LruInvariant
  import opened LruOperations
  import opened LruChains
  import opened LruTable
  import opened LruSteps
  import opened Seals

  // ---- the circular list

  /** Following `next` from the dummy head visits `xs` and comes back, and `prev` is the way back. */
  ghost predicate Ring(d: LRUHandle, xs: seq<LRUHandle>)
    reads d`next, d`prev, xs`next, xs`prev
  {
    && d.next == (if |xs| > 0 then xs[0] else d) && d.prev == (if |xs| > 0 then xs[|xs| - 1] else d)
    && (forall i {:trigger xs[i].next} :: 0 <= i < |xs| ==> xs[i].next == if i + 1 < |xs| then xs[i + 1] else d)
    && (forall i {:trigger xs[i].prev} :: 0 <= i < |xs| ==> xs[i].prev == if i > 0 then xs[i - 1] else d)
  }

  function NodeBefore(d: LRUHandle, xs: seq<LRUHandle>, p: nat): LRUHandle
    requires p <= |xs|
  {
    if p > 0 then xs[p - 1] else d
  }

  function NodeAt(d: LRUHandle, xs: seq<LRUHandle>, p: nat): LRUHandle
    requires p <= |xs|
  {
    if p < |xs| then xs[p] else d
  }

  method Unlink(e: LRUHandle, ghost d: LRUHandle, ghost xs: seq<LRUHandle>, ghost p: nat)
    requires Ring(d, xs) && d !in xs && Distinct(xs) && p < |xs| && e == xs[p]
    modifies d`next, d`prev, xs`next, xs`prev
    ensures Ring(d, Without(xs, p)) && e.next == null && e.prev == null
  {
    var a, b := e.prev, e.next;
    assert a == NodeBefore(d, xs, p) && b == NodeAt(d, xs, p + 1);
    b.prev := a;
    a.next := b;
    e.prev, e.next := null, null;
    ghost var ys := Without(xs, p);
    forall i | 0 <= i < |ys|
      ensures ys[i].next == if i + 1 < |ys| then ys[i + 1] else d
      ensures ys[i].prev == if i > 0 then ys[i - 1] else d
    {
      assert ys[i] == xs[if i < p then i else i + 1] != e;
      assert i + 1 < |ys| ==> ys[i + 1] == xs[if i + 1 < p then i + 1 else i + 2];
      assert i > 0 ==> ys[i - 1] == xs[if i - 1 < p then i - 1 else i];
    }
  }

  method LinkBetween(e: LRUHandle, a: LRUHandle, b: LRUHandle, ghost d: LRUHandle, ghost xs: seq<LRUHandle>,
                     ghost p: nat)
    requires Ring(d, xs) && d !in xs && Distinct(xs) && p <= |xs| && e !in xs && e != d
    requires a == NodeBefore(d, xs, p) && b == NodeAt(d, xs, p)
    modifies d`next, d`prev, xs`next, xs`prev, e`next, e`prev
    ensures Ring(d, xs[..p] + [e] + xs[p..])
  {
    e.next, e.prev := b, a;
    a.next := e;
    b.prev := e;
  }

  // ---- the shard

  ghost predicate Shows(h: LRUHandle, e: Entry)
    reads h`refs, h`inCache, h`inHighPriPool, h`hasHit
  {
    && h.Id() == e.id && h.value == e.value && h.charge == e.charge && h.isHighPri == e.isHighPri
    && h.refs == e.refs && h.inCache == e.inCache && h.inHighPriPool == e.inHighPriPool && h.hasHit == e.hasHit
  }

  /**
   The fields, and what they are for a model `s` of the shard. Each part is stated under a seal, so that the proofs
   unfold only the part that a step changes.
   */
  class LRUCacheShard {
    var capacity: nat
    var strict: bool
    var ratio: real
    var poolCapacity: real
    const lru: LRUHandle
    var lowPri: LRUHandle
    const table: LRUHandleTable
    var usage: int
    var lruUsage: int
    var highUsage: int
    ghost var S: Shard<LRUHandle>

    ghost function Now(): Totals
      reads this`capacity, this`strict, this`ratio, this`poolCapacity, this`usage, this`lruUsage, this`highUsage
    {
      Totals(capacity, strict, ratio, poolCapacity, usage, lruUsage, highUsage)
    }

    ghost predicate Circles(seal: Seal, xs: seq<LRUHandle>, low: nat, hs: set<LRUHandle>)
      reads this`lowPri, lru`next, lru`prev, xs`next, xs`prev, hs`next, hs`prev
    {
      && Ring(lru, xs) && Distinct(xs) && lru !in xs && lru !in hs
      && low <= |xs| && lowPri == NodeBefore(lru, xs, low)
      && forall h :: h in hs && h !in xs ==> h.next == null && h.prev == null
    }

    /**
     The list is `xs`, split after its first `low` handles, and the handles `hs` that are not on it are on no list.
     */
    ghost predicate ListIs(xs: seq<LRUHandle>, low: nat, hs: set<LRUHandle>)
      reads this`lowPri, lru`next, lru`prev, xs`next, xs`prev, hs`next, hs`prev
    {
      forall seal: Seal :: Circles(seal, xs, low, hs)
    }

    ghost predicate Show(seal: Seal, live: map<LRUHandle, Entry>)
      reads live.Keys`refs, live.Keys`inCache, live.Keys`inHighPriPool, live.Keys`hasHit
    {
      forall h :: h in live ==> Shows(h, live[h])
    }

    ghost predicate EntriesAre(live: map<LRUHandle, Entry>)
      reads live.Keys`refs, live.Keys`inCache, live.Keys`inHighPriPool, live.Keys`hasHit
    {
      forall seal: Seal :: Show(seal, live)
    }

    ghost predicate Maps(seal: Seal, m: map<Key, LRUHandle>)
      reads table`list, table`length, table`elems, table`chains, table`contents, table.list
      reads table.contents.Values`next_hash
    {
      table.Valid() && table.contents == m
    }

    ghost predicate TableIs(m: map<Key, LRUHandle>)
      reads table`list, table`length, table`elems, table`chains, table`contents, table.list
      reads table.contents.Values`next_hash
    {
      forall seal: Seal :: Maps(seal, m)
    }

    /** The fields are what the model says. */
    ghost predicate Tied(s: Shard<LRUHandle>)
      reads this`capacity, this`strict, this`ratio, this`poolCapacity, this`usage, this`lruUsage, this`highUsage
      reads this`lowPri
      reads lru, s.live.Keys, s.lru, table, table.list, table.contents.Values
    {
      forall seal: Seal :: Ties(seal, s)
    }

    ghost predicate Ties(seal: Seal, s: Shard<LRUHandle>)
      reads this`capacity, this`strict, this`ratio, this`poolCapacity, this`usage, this`lruUsage, this`highUsage
      reads this`lowPri
      reads lru, s.live.Keys, s.lru, table, table.list, table.contents.Values
    {
      Now() == TotalsOf(s) && ListIs(s.lru, s.low, s.live.Keys) && EntriesAre(s.live) && TableIs(s.table)
    }

    constructor (capacity: nat, strict: bool, ratio: real)
      requires ratio >= 0.0
      ensures Valid() && S == LruModel.SetCapacity(Empty(strict, ratio), capacity)
      ensures fresh(lru) && fresh(table) && fresh(table.list)
    {
      this.capacity, this.strict, this.ratio, poolCapacity := 0, strict, ratio, 0.0;
      usage, lruUsage, highUsage := 0, 0, 0;
      var dummy := new LRUHandle("", 0, 0, 0, false);
      lru, lowPri := dummy, dummy;
      table := new LRUHandleTable();
      S := Empty(strict, ratio);
      new;
      Begin();
      var deleted := SetCapacity(capacity);
    }

    /** Make an empty circular list. */
    method Begin()
      requires table.Valid() && table.contents == map[] && lowPri == lru && ratio >= 0.0
      requires S == Empty(strict, ratio) && Now() == TotalsOf(S)
      modifies lru`next, lru`prev
      ensures Valid()
    {
      lru.next, lru.prev := lru, lru;
      assert Circles(Seal, [], 0, {});
      EmptyOk<LRUHandle>(strict, ratio);
    }

    // ---- single steps, each keeping the tie to the model

    method AddToUsage(d: int, ghost s: Shard<LRUHandle>)
      requires Tied(s)
      modifies this`usage
      ensures Tied(s.(usage := s.usage + d))
    {
      assert Ties(Seal, s);
      usage := usage + d;
    }

    method AddToLruUsage(d: int, ghost s: Shard<LRUHandle>)
      requires Tied(s)
      modifies this`lruUsage
      ensures Tied(s.(lruUsage := s.lruUsage + d))
    {
      assert Ties(Seal, s);
      lruUsage := lruUsage + d;
    }

    method AddToHighUsage(d: int, ghost s: Shard<LRUHandle>)
      requires Tied(s)
      modifies this`highUsage
      ensures Tied(s.(highUsage := s.highUsage + d))
    {
      assert Ties(Seal, s);
      highUsage := highUsage + d;
    }

    lemma Known(s: Shard<LRUHandle>)
      requires Tied(s)
      ensures Now() == TotalsOf(s)
    {
      assert Ties(Seal, s);
    }

    lemma Shown(s: Shard<LRUHandle>, h: LRUHandle)
      requires Tied(s) && h in s.live
      ensures Shows(h, s.live[h])
    {
      assert Ties(Seal, s);
      assert Show(Seal, s.live);
    }

    method SetInHighPriPool(h: LRUHandle, b: bool, ghost s: Shard<LRUHandle>)
      requires Tied(s) && h in s.live
      modifies h`inHighPriPool
      ensures Tied(s.(live := s.live[h := s.live[h].(inHighPriPool := b)]))
    {
      assert Ties(Seal, s);
      ghost var live' := s.live[h := s.live[h].(inHighPriPool := b)];
      assert Show(Seal, s.live);
      h.inHighPriPool := b;
      assert Show(Seal, live') && live'.Keys == s.live.Keys;
    }

    method SetInCache(h: LRUHandle, b: bool, ghost s: Shard<LRUHandle>)
      requires Tied(s) && h in s.live
      modifies h`inCache
      ensures Tied(s.(live := s.live[h := s.live[h].(inCache := b)]))
    {
      assert Ties(Seal, s);
      ghost var live' := s.live[h := s.live[h].(inCache := b)];
      assert Show(Seal, s.live);
      h.inCache := b;
      assert Show(Seal, live') && live'.Keys == s.live.Keys;
    }

    method SetHit(h: LRUHandle, ghost s: Shard<LRUHandle>)
      requires Tied(s) && h in s.live
      modifies h`hasHit
      ensures Tied(s.(live := s.live[h := s.live[h].(hasHit := true)]))
    {
      assert Ties(Seal, s);
      ghost var live' := s.live[h := s.live[h].(hasHit := true)];
      assert Show(Seal, s.live);
      h.hasHit := true;
      assert Show(Seal, live') && live'.Keys == s.live.Keys;
    }

    method SetRefs(h: LRUHandle, n: nat, ghost s: Shard<LRUHandle>)
      requires Tied(s) && h in s.live
      modifies h`refs
      ensures Tied(s.(live := s.live[h := s.live[h].(refs := n)]))
    {
      assert Ties(Seal, s);
      ghost var live' := s.live[h := s.live[h].(refs := n)];
      assert Show(Seal, s.live);
      h.refs := n;
      assert Show(Seal, live') && live'.Keys == s.live.Keys;
    }

    method RingRemove(e: LRUHandle, ghost xs: seq<LRUHandle>, ghost low: nat, ghost p: nat, ghost hs: set<LRUHandle>)
      requires ListIs(xs, low, hs) && p < |xs| && e == xs[p]
      modifies this`lowPri, lru`next, lru`prev, xs`next, xs`prev
      ensures ListIs(Without(xs, p), if p < low then low - 1 else low, hs)
    {
      assert Circles(Seal, xs, low, hs);
      ghost var ys, low' := Without(xs, p), if p < low then low - 1 else low;
      WithoutOk(xs, p);
      if lowPri == e {
        lowPri := e.prev;
      }
      Unlink(e, lru, xs, p);
      assert Circles(Seal, ys, low', hs);
    }

    method TakeOff(e: LRUHandle, ghost s: Shard<LRUHandle>, ghost p: nat)
      requires Tied(s) && p < |s.lru| && e == s.lru[p]
      modifies this`lowPri, lru`next, lru`prev, s.lru`next, s.lru`prev
      ensures Tied(s.(lru := Without(s.lru, p), low := if p < s.low then s.low - 1 else s.low))
    {
      assert Ties(Seal, s);
      RingRemove(e, s.lru, s.low, p, s.live.Keys);
    }

    method RingInsert(e: LRUHandle, a: LRUHandle, b: LRUHandle, ghost xs: seq<LRUHandle>, ghost low: nat, ghost p: nat,
                      ghost hs: set<LRUHandle>)
      requires ListIs(xs, low, hs) && low <= p <= |xs| && e !in xs && e in hs && lru !in hs
      requires a == NodeBefore(lru, xs, p) && b == NodeAt(lru, xs, p)
      modifies lru`next, lru`prev, xs`next, xs`prev, e`next, e`prev
      ensures ListIs(xs[..p] + [e] + xs[p..], low, hs)
    {
      assert Circles(Seal, xs, low, hs);
      ghost var ys := xs[..p] + [e] + xs[p..];
      InsertedDistinct(xs, p, e, ys);
      InsertedMembers(xs, p, e, ys);
      LinkBetween(e, a, b, lru, xs, p);
      assert Circles(Seal, ys, low, hs);
    }

    method RingInsertHead(e: LRUHandle, ghost xs: seq<LRUHandle>, ghost low: nat, ghost hs: set<LRUHandle>)
      requires ListIs(xs, low, hs) && e !in xs && e in hs
      modifies lru`next, lru`prev, xs`next, xs`prev, e`next, e`prev
      ensures ListIs(xs + [e], low, hs)
    {
      assert Circles(Seal, xs, low, hs);
      RingInsert(e, lru.prev, lru, xs, low, |xs|, hs);
      assert xs[..|xs|] + [e] + xs[|xs|..] == xs + [e];
    }

    method RingInsertLow(e: LRUHandle, ghost xs: seq<LRUHandle>, ghost low: nat, ghost hs: set<LRUHandle>)
      requires ListIs(xs, low, hs) && e !in xs && e in hs
      modifies this`lowPri, lru`next, lru`prev, xs`next, xs`prev, e`next, e`prev
      ensures low <= |xs| && ListIs(xs[..low] + [e] + xs[low..], low + 1, hs)
    {
      assert Circles(Seal, xs, low, hs);
      RingInsert(e, lowPri, lowPri.next, xs, low, low, hs);
      ghost var ys := xs[..low] + [e] + xs[low..];
      assert Circles(Seal, ys, low, hs);
      lowPri := e;
      assert Circles(Seal, ys, low + 1, hs);
    }

    /** To the newest end of the list. */
    method PutAtHead(e: LRUHandle, ghost s: Shard<LRUHandle>)
      requires Tied(s) && e in s.live && e !in s.lru
      modifies lru`next, lru`prev, s.lru`next, s.lru`prev, e`next, e`prev
      ensures Tied(s.(lru := s.lru + [e]))
    {
      assert Ties(Seal, s);
      RingInsertHead(e, s.lru, s.low, s.live.Keys);
    }

    /** To the newest end of the low-priority stretch of the list. */
    method PutAtLow(e: LRUHandle, ghost s: Shard<LRUHandle>)
      requires Tied(s) && e in s.live && e !in s.lru && s.low <= |s.lru|
      modifies this`lowPri, lru`next, lru`prev, s.lru`next, s.lru`prev, e`next, e`prev
      ensures Tied(s.(lru := s.lru[..s.low] + [e] + s.lru[s.low..], low := s.low + 1))
    {
      assert Ties(Seal, s);
      RingInsertLow(e, s.lru, s.low, s.live.Keys);
    }

    method NextLow(ghost s: Shard<LRUHandle>)
      requires Tied(s) && s.low < |s.lru|
      modifies this`lowPri
      ensures Tied(s.(low := s.low + 1)) && lowPri == s.lru[s.low]
    {
      assert Ties(Seal, s);
      assert Circles(Seal, s.lru, s.low, s.live.Keys);
      lowPri := lowPri.next;
      assert Circles(Seal, s.lru, s.low + 1, s.live.Keys);
    }

    // ---- the list

    /** The handle's charge leaves the totals of the list. */
    method Uncount(e: LRUHandle, ghost s: Shard<LRUHandle>)
      requires Tied(s) && e in s.live
      modifies this`lruUsage, this`highUsage
      ensures Tied(s.(lruUsage := s.lruUsage - s.live[e].charge,
                      highUsage := if s.live[e].inHighPriPool then s.highUsage - s.live[e].charge else s.highUsage))
    {
      Shown(s, e);
      var charge: int := e.charge;
      AddToLruUsage(-charge, s);
      if e.inHighPriPool {
        AddToHighUsage(-charge, s.(lruUsage := s.lruUsage - charge));
      }
    }

    method LRURemove(e: LRUHandle, ghost s: Shard<LRUHandle>)
      requires Tied(s) && e in s.lru && e in s.live
      modifies this`lowPri, this`lruUsage, this`highUsage, lru`next, lru`prev, s.lru`next, s.lru`prev
      ensures Tied(LruRemove(s, e))
    {
      ghost var p := IndexOf(s.lru, e);
      TakeOff(e, s, p);
      Uncount(e, s.(lru := Without(s.lru, p), low := if p < s.low then s.low - 1 else s.low));
    }

    method Overflows(ghost s: Shard<LRUHandle>)
      requires Tied(s) && s.low < |s.lru| && s.lru[s.low] in s.live
      modifies this`lowPri, this`highUsage, s.live.Keys`inHighPriPool
      ensures Tied(Overflow(s))
    {
      ghost var h, s1 := s.lru[s.low], s.(low := s.low + 1);
      NextLow(s);
      Shown(s1, h);
      SetInHighPriPool(lowPri, false, s1);
      var charge: int := lowPri.charge;
      AddToHighUsage(-charge, s1.(live := s1.live[h := s1.live[h].(inHighPriPool := false)]));
    }

    method MaintainPoolSize(ghost s: Shard<LRUHandle>)
      requires Tied(s) && Pooled(s)
      modifies this`lowPri, this`highUsage, s.live.Keys`inHighPriPool
      ensures Tied(LruModel.MaintainPoolSize(s))
    {
      ghost var s1 := s;
      Known(s1);
      while highUsage as real > poolCapacity
        invariant Tied(s1) && Now() == TotalsOf(s1) && Pooled(s1)
        invariant LruModel.MaintainPoolSize(s1) == LruModel.MaintainPoolSize(s) && s1.live.Keys == s.live.Keys
        decreases |s1.lru| - s1.low
      {
        PooledStep(s1);
        Overflows(s1);
        s1 := Overflow(s1);
        Known(s1);
      }
    }

    method PutHigh(e: LRUHandle, ghost s: Shard<LRUHandle>)
      requires Tied(s) && e in s.live && e !in s.lru
      modifies this`highUsage, lru`next, lru`prev, s.lru`next, s.lru`prev, e`next, e`prev, e`inHighPriPool
      ensures Tied(AtHead(s, e))
    {
      Shown(s, e);
      ghost var s1 := s.(lru := s.lru + [e]);
      PutAtHead(e, s);
      SetInHighPriPool(e, true, s1);
      AddToHighUsage(e.charge, s1.(live := s1.live[e := s1.live[e].(inHighPriPool := true)]));
    }

    method ListHigh(e: LRUHandle, ghost s: Shard<LRUHandle>)
      requires Tied(s) && Listable(s, e) && s.low <= |s.lru| && s.ratio > 0.0
      requires (s.live[e].isHighPri || s.live[e].hasHit)
      modifies this`lowPri, this`highUsage, this`lruUsage, lru`next, lru`prev, s.live.Keys`next, s.live.Keys`prev
      modifies s.live.Keys`inHighPriPool
      ensures Tied(LruInsert(s, e))
    {
      Listed(s, e);
      HeadPooled(s, e);
      ghost var s1 := AtHead(s, e);
      PutHigh(e, s);
      TrimHigh(e, s.live[e].charge, s1);
    }

    /** Bring the pool back to its size, and the total of the list up to date. */
    method TrimHigh(e: LRUHandle, ghost charge: nat, ghost s: Shard<LRUHandle>)
      requires Tied(s) && Pooled(s) && e in s.live && s.live[e].charge == charge
      modifies this`lowPri, this`highUsage, this`lruUsage, s.live.Keys`inHighPriPool
      ensures Tied(LruModel.MaintainPoolSize(s).(lruUsage := LruModel.MaintainPoolSize(s).lruUsage + charge))
    {
      Shown(s, e);
      MaintainPoolSize(s);
      AddToLruUsage(e.charge, LruModel.MaintainPoolSize(s));
    }

    method PutLow(e: LRUHandle, ghost s: Shard<LRUHandle>)
      requires Tied(s) && e in s.live && e !in s.lru && s.low <= |s.lru|
      modifies this`lowPri, lru`next, lru`prev, s.lru`next, s.lru`prev, e`next, e`prev, e`inHighPriPool
      ensures Tied(s.(lru := s.lru[..s.low] + [e] + s.lru[s.low..], low := s.low + 1,
        live := s.live[e := s.live[e].(inHighPriPool := false)]))
    {
      PutAtLow(e, s);
      SetInHighPriPool(e, false, s.(lru := s.lru[..s.low] + [e] + s.lru[s.low..], low := s.low + 1));
    }

    method ListLow(e: LRUHandle, ghost s: Shard<LRUHandle>)
      requires Tied(s) && e in s.live && e !in s.lru && s.low <= |s.lru|
      requires !(s.ratio > 0.0 && (s.live[e].isHighPri || s.live[e].hasHit))
      modifies this`lowPri, this`lruUsage, lru`next, lru`prev, s.lru`next, s.lru`prev, e`next, e`prev, e`inHighPriPool
      ensures Tied(LruInsert(s, e))
    {
      Shown(s, e);
      PutLow(e, s);
      AddToLruUsage(e.charge, LruInsert(s, e).(lruUsage := s.lruUsage));
    }

    method LRUInsert(e: LRUHandle, ghost s: Shard<LRUHandle>)
      requires Tied(s) && Listable(s, e) && s.low <= |s.lru|
      modifies this`lowPri, this`highUsage, this`lruUsage, lru`next, lru`prev, s.live.Keys`next, s.live.Keys`prev
      modifies s.live.Keys`inHighPriPool
      ensures Tied(LruInsert(s, e))
    {
      Known(s);
      Shown(s, e);
      Listed(s, e);
      if ratio > 0.0 && (e.isHighPri || e.hasHit) {
        ListHigh(e, s);
      } else {
        ListLow(e, s);
      }
    }

    // ---- the table

    method RemoveKey(key: string, hash: nat, ghost m: map<Key, LRUHandle>) returns (r: LRUHandle?)
      requires TableIs(m)
      modifies table`chains, table`contents, table`elems, table.list, m.Values`next_hash
      ensures TableIs(m - {Key(key, hash)})
      ensures r == if Key(key, hash) in m then m[Key(key, hash)] else null
    {
      assert Maps(Seal, m);
      r := table.Remove(key, hash);
      assert Maps(Seal, m - {Key(key, hash)});
    }

    method TableRemove(key: string, hash: nat, ghost s: Shard<LRUHandle>) returns (r: LRUHandle?)
      requires Tied(s)
      modifies table`chains, table`contents, table`elems, table.list, s.table.Values`next_hash
      ensures Tied(s.(table := s.table - {Key(key, hash)}))
      ensures r == if Key(key, hash) in s.table then s.table[Key(key, hash)] else null
    {
      assert Ties(Seal, s);
      r := RemoveKey(key, hash, s.table);
    }

    method TableInsert(e: LRUHandle, ghost s: Shard<LRUHandle>) returns (prior: LRUHandle?)
      requires Tied(s) && e !in s.table.Values
      modifies table, table.list, s.table.Values`next_hash, e`next_hash
      ensures Tied(s.(table := s.table[e.Id() := e])) && (table.list == old(table.list) || fresh(table.list))
      ensures prior == if e.Id() in s.table then s.table[e.Id()] else null
    {
      assert Ties(Seal, s);
      assert Maps(Seal, s.table);
      prior := table.Insert(e);
      assert Maps(Seal, s.table[e.Id() := e]);
    }

    method TableLookup(key: string, hash: nat, ghost s: Shard<LRUHandle>) returns (r: LRUHandle?)
      requires Tied(s)
      ensures r == if Key(key, hash) in s.table then s.table[Key(key, hash)] else null
    {
      assert Ties(Seal, s);
      assert Maps(Seal, s.table);
      r := table.Lookup(key, hash);
    }

    // ---- handles that come and go

    lemma Forget(h: LRUHandle, s: Shard<LRUHandle>)
      requires Tied(s) && h !in s.lru
      ensures Tied(s.(live := s.live - {h}, freed := s.freed + [h]))
    {
      assert Ties(Seal, s);
      assert Show(Seal, s.live) && Circles(Seal, s.lru, s.low, s.live.Keys);
      var s' := s.(live := s.live - {h}, freed := s.freed + [h]);
      assert Show(Seal, s'.live) && Circles(Seal, s'.lru, s'.low, s'.live.Keys);
      assert Ties(Seal, s');
    }

    lemma Adopt(h: LRUHandle, e: Entry, s: Shard<LRUHandle>)
      requires Tied(s) && h !in s.lru && h != lru && Shows(h, e) && h.next == null && h.prev == null
      ensures Tied(s.(live := s.live[h := e]))
    {
      assert Ties(Seal, s);
      assert Show(Seal, s.live) && Circles(Seal, s.lru, s.low, s.live.Keys);
      var s' := s.(live := s.live[h := e]);
      assert Show(Seal, s'.live) && Circles(Seal, s'.lru, s'.low, s'.live.Keys);
      assert Ties(Seal, s');
    }

    /** The first handle of the list, or the dummy head. */
    lemma First(s: Shard<LRUHandle>)
      requires Tied(s)
      ensures lru.next == (if |s.lru| > 0 then s.lru[0] else lru) && lru !in s.lru && lru !in s.live
    {
      assert Ties(Seal, s);
      assert Circles(Seal, s.lru, s.low, s.live.Keys);
    }

    // ---- eviction

    /** The handle leaves the table and the cache. */
    method Unlists(h: LRUHandle, ghost s: Shard<LRUHandle>)
      requires Tied(s) && h in s.live
      modifies table`chains, table`contents, table`elems, table.list, s.table.Values`next_hash, h`inCache
      ensures Tied(Unlist(s, h))
    {
      Shown(s, h);
      var removed := TableRemove(h.key, h.hash, s);
      SetInCache(h, false, s.(table := s.table - {s.live[h].id}));
    }

    /** The handle's charge leaves the total, and the handle is freed. */
    method Frees(h: LRUHandle, ghost s: Shard<LRUHandle>)
      requires Tied(s) && h in s.live && h !in s.lru
      modifies this`usage
      ensures Tied(Free(s, h))
    {
      Shown(s, h);
      var charge: int := h.charge;
      AddToUsage(-charge, s);
      Forget(h, s.(usage := s.usage - charge));
    }

    method EvictOne(ghost s: Shard<LRUHandle>) returns (h: LRUHandle)
      requires Tied(s) && Good(s) && |s.lru| > 0 && s.lru[0] in s.live
      modifies this`lowPri, this`lruUsage, this`highUsage, this`usage, lru, s.live.Keys
      modifies table`chains, table`contents, table`elems, table.list
      ensures Tied(EvictOldest(s)) && h == s.lru[0]
    {
      First(s);
      h := lru.next;
      ghost var s1 := LruRemove(s, h);
      Within(s);
      NotListed(s);
      LRURemove(h, s);
      Unlists(h, s1);
      Frees(h, Unlist(s1, h));
    }

    /** Evict the oldest handle; the loops below go on from there. */
    method EvictNext(ghost plan: Plan, ghost s: Shard<LRUHandle>, ghost goal: Shard<LRUHandle>)
      returns (h: LRUHandle, ghost s': Shard<LRUHandle>)
      requires Tied(s) && Good(s) && GoesOn(plan, s) && Leads(plan, s, goal)
      modifies this`lowPri, this`lruUsage, this`highUsage, this`usage, lru, s.live.Keys
      modifies table`chains, table`contents, table`elems, table.list
      ensures Ready(s') && s'.freed == s.freed + [h] && s'.live.Keys <= s.live.Keys && |s'.lru| < |s.lru|
      ensures Leads(plan, s', goal)
    {
      Within(s);
      EvictOldestKeeps(s);
      LeadsOn(plan, s, goal);
      h := EvictOne(s);
      s' := EvictOldest(s);
      Start(s');
    }

    /** What the eviction loops look at. */
    ghost predicate Ready(s: Shard<LRUHandle>)
      reads this`capacity, this`strict, this`ratio, this`poolCapacity, this`usage, this`lruUsage, this`highUsage
      reads this`lowPri
      reads lru, s.live.Keys, s.lru, table, table.list, table.contents.Values
    {
      Tied(s) && Good(s) && Now() == TotalsOf(s) && (lru.next == lru <==> |s.lru| == 0)
    }

    lemma Start(s: Shard<LRUHandle>)
      requires Tied(s) && Good(s)
      ensures Ready(s)
    {
      Known(s);
      First(s);
    }

    method MakeRoomFor(charge: nat, ghost s: Shard<LRUHandle>, ghost goal: Shard<LRUHandle>)
      returns (deleted: seq<LRUHandle>)
      requires Tied(s) && Good(s) && Leads(MakeRoom(charge), s, goal)
      modifies this`lowPri, this`lruUsage, this`highUsage, this`usage, lru, s.live.Keys
      modifies table`chains, table`contents, table`elems, table.list
      ensures Tied(goal) && goal.freed == s.freed + deleted
    {
      deleted := [];
      ghost var s1 := s;
      Start(s1);
      while usage + charge > capacity && lru.next != lru
        invariant Ready(s1) && Leads(MakeRoom(charge), s1, goal)
        invariant s1.freed == s.freed + deleted && s1.live.Keys <= s.live.Keys
        decreases |s1.lru|
      {
        var h;
        h, s1 := EvictNext(MakeRoom(charge), s1, goal);
        deleted := deleted + [h];
      }
      Arrives(MakeRoom(charge), s1, goal);
    }

    method EvictFromLRU(charge: nat, ghost s: Shard<LRUHandle>) returns (deleted: seq<LRUHandle>)
      requires Tied(s) && Good(s)
      modifies this`lowPri, this`lruUsage, this`highUsage, this`usage, lru, s.live.Keys
      modifies table`chains, table`contents, table`elems, table.list
      ensures Tied(EvictFromLru(s, charge)) && EvictFromLru(s, charge).freed == s.freed + deleted
    {
      deleted := MakeRoomFor(charge, s, EvictFromLru(s, charge));
    }

    method EvictAll(ghost s: Shard<LRUHandle>, ghost goal: Shard<LRUHandle>) returns (deleted: seq<LRUHandle>)
      requires Tied(s) && Good(s) && Leads(Everything, s, goal)
      modifies this`lowPri, this`lruUsage, this`highUsage, this`usage, lru, s.live.Keys
      modifies table`chains, table`contents, table`elems, table.list
      ensures Tied(goal) && goal.freed == s.freed + deleted
    {
      deleted := [];
      ghost var s1 := s;
      Start(s1);
      while lru.next != lru
        invariant Ready(s1) && Leads(Everything, s1, goal)
        invariant s1.freed == s.freed + deleted && s1.live.Keys <= s.live.Keys
        decreases |s1.lru|
      {
        var h;
        h, s1 := EvictNext(Everything, s1, goal);
        deleted := deleted + [h];
      }
      Arrives(Everything, s1, goal);
    }

    method SetLimits(capacity: nat, ratio: real, ghost s: Shard<LRUHandle>)
      requires Tied(s)
      modifies this`capacity, this`ratio, this`poolCapacity
      ensures Tied(s.(capacity := capacity, ratio := ratio, poolCapacity := Share(capacity, ratio)))
    {
      assert Ties(Seal, s);
      this.capacity, this.ratio := capacity, ratio;
      poolCapacity := capacity as real * ratio;
    }

    // ---- the public methods, each under the shard's mutex

    ghost predicate Valid()
      reads this, lru, S.live.Keys, S.lru, table, table.list, table.contents.Values
    {
      Tied(S) && Inv(S)
    }

    method SetCapacity(capacity: nat) returns (deleted: seq<LRUHandle>)
      requires Valid()
      modifies this, lru, S.live.Keys, table`chains, table`contents, table`elems, table.list
      ensures Valid() && S == LruModel.SetCapacity(old(S), capacity) && S.freed == old(S.freed) + deleted
    {
      ghost var s := S;
      ghost var s1 := s.(capacity := capacity, poolCapacity := Share(capacity, s.ratio));
      Known(s);
      SetCapacityInv(s, capacity);
      ResizedGood(s, capacity);
      SetLimits(capacity, ratio, s);
      deleted := EvictFromLRU(0, s1);
      S := LruModel.SetCapacity(s, capacity);
    }

    method EraseUnRefEntries() returns (deleted: seq<LRUHandle>)
      requires Valid()
      modifies this, lru, S.live.Keys, table`chains, table`contents, table`elems, table.list
      ensures Valid() && S == LruModel.EraseUnRefEntries(old(S)) && S.freed == old(S.freed) + deleted
    {
      EraseUnRefKeeps(S);
      deleted := EvictAll(S, LruModel.EraseUnRefEntries(S));
      S := LruModel.EraseUnRefEntries(S);
    }

    method SetHighPriorityPoolRatio(ratio: real)
      requires Valid() && ratio >= 0.0
      modifies this, lru, S.live.Keys, table`chains, table`contents, table`elems, table.list
      ensures Valid() && S == LruModel.SetHighPriorityPoolRatio(old(S), ratio)
    {
      ghost var s := S;
      Known(s);
      SetRatioKeeps(s, ratio);
      RatioPooled(s, ratio);
      SetLimits(capacity, ratio, s);
      MaintainPoolSize(s.(ratio := ratio, poolCapacity := Share(s.capacity, ratio)));
      S := LruModel.SetHighPriorityPoolRatio(s, ratio);
    }

    /** One more reference, and a hit. */
    method Touch(h: LRUHandle, ghost s: Shard<LRUHandle>)
      requires Tied(s) && h in s.live
      modifies h`refs, h`hasHit
      ensures Tied(s.(live := s.live[h := s.live[h].(refs := s.live[h].refs + 1, hasHit := true)]))
    {
      Shown(s, h);
      ghost var e := s.live[h].(refs := s.live[h].refs + 1);
      SetRefs(h, h.refs + 1, s);
      SetHit(h, s.(live := s.live[h := e]));
      assert s.live[h := e][h := e.(hasHit := true)] == s.live[h := e.(hasHit := true)];
    }

    /** Off the list, if it is on it. */
    method OffList(h: LRUHandle, ghost s: Shard<LRUHandle>)
      requires Tied(s) && h in s.live && (h in s.lru <==> s.live[h].refs == 0)
      modifies this`lowPri, this`lruUsage, this`highUsage, lru`next, lru`prev, s.lru`next, s.lru`prev
      ensures Tied(if h in s.lru then LruRemove(s, h) else s)
    {
      Shown(s, h);
      if h.refs == 0 {
        LRURemove(h, s);
      }
    }

    /** The handle that was found leaves the list if it is on it, and gets a reference. */
    method Pin(h: LRUHandle, ghost id: Key, ghost s: Shard<LRUHandle>)
      requires Tied(s) && Good(s) && id in s.table && s.table[id] == h && h in s.live
      requires forall g :: g in s.lru ==> g in s.live
      modifies this`lowPri, this`lruUsage, this`highUsage, lru`next, lru`prev, s.live.Keys`next, s.live.Keys`prev
      modifies h`refs, h`hasHit
      ensures Tied(LruModel.Lookup(s, id))
    {
      TabledIsListed(s, id);
      OffList(h, s);
      Touch(h, if h in s.lru then LruRemove(s, h) else s);
    }

    method Lookup(key: string, hash: nat) returns (e: LRUHandle?)
      requires Valid()
      modifies this, lru, S.live.Keys, table`chains, table`contents, table`elems, table.list
      ensures Valid() && S == LruModel.Lookup(old(S), Key(key, hash))
      ensures e == if Key(key, hash) in old(S.table) then old(S.table)[Key(key, hash)] else null
    {
      ghost var s := S;
      LookupKeeps(s, Key(key, hash));
      e := TableLookup(key, hash, s);
      if e != null {
        Within(s);
        Pin(e, Key(key, hash), s);
      }
      S := LruModel.Lookup(s, Key(key, hash));
    }

    method Ref(h: LRUHandle) returns (ok: bool)
      requires Valid() && h in S.live && S.live[h].refs > 0
      modifies this, lru, S.live.Keys, table`chains, table`contents, table`elems, table.list
      ensures Valid() && S == LruModel.Ref(old(S), h) && ok
    {
      RefKeeps(S, h);
      Shown(S, h);
      SetRefs(h, h.refs + 1, S);
      S := LruModel.Ref(S, h);
      ok := true;
    }

    /** The last reference to a handle has been dropped: the handle is freed, erased and freed, or put on the list. */
    method DropLast(h: LRUHandle, forceErase: bool, ghost s: Shard<LRUHandle>) returns (last: bool)
      requires Inv(s) && h in s.live && s.live[h].refs == 1 && s.low <= |s.lru| && Tied(Dropped(s, h))
      modifies this`lowPri, this`highUsage, this`lruUsage, this`usage, lru`next, lru`prev
      modifies s.live.Keys`next, s.live.Keys`prev, s.live.Keys`inHighPriPool, s.live.Keys`inCache, s.live.Keys`next_hash
      modifies table`chains, table`contents, table`elems, table.list
      ensures Tied(LruModel.Release(s, h, forceErase)) && last == LastReference(s, h, forceErase)
    {
      ghost var s1 := Dropped(s, h);
      Within(s);
      OffTheList(s, h);
      Shown(s1, h);
      Known(s1);
      last := true;
      if !h.inCache {
        Frees(h, s1);
      } else if usage > capacity || forceErase {
        assert |s.lru| == 0 || forceErase;
        Unlists(h, s1);
        Frees(h, Unlist(s1, h));
      } else {
        DroppedListable(s, h);
        LRUInsert(h, s1);
        last := false;
      }
    }

    method Drop(h: LRUHandle, forceErase: bool, ghost s: Shard<LRUHandle>) returns (last: bool)
      requires Tied(s) && Inv(s) && h in s.live && s.live[h].refs > 0 && s.low <= |s.lru|
      modifies this`lowPri, this`highUsage, this`lruUsage, this`usage, lru`next, lru`prev, h`refs
      modifies s.live.Keys`next, s.live.Keys`prev, s.live.Keys`inHighPriPool, s.live.Keys`inCache, s.live.Keys`next_hash
      modifies table`chains, table`contents, table`elems, table.list
      ensures Tied(LruModel.Release(s, h, forceErase)) && last == LastReference(s, h, forceErase)
    {
      Shown(s, h);
      last := h.refs == 1;
      SetRefs(h, h.refs - 1, s);
      if last {
        last := DropLast(h, forceErase, s);
      }
    }

    method Release(h: LRUHandle?, forceErase: bool) returns (last: bool)
      requires Valid() && (h != null ==> h in S.live && S.live[h].refs > 0)
      modifies this, lru, S.live.Keys, table`chains, table`contents, table`elems, table.list
      ensures Valid()
      ensures h == null ==> !last && S == old(S)
      ensures h != null ==>
        old(S).low <= |old(S).lru| && S == LruModel.Release<LRUHandle>(old(S), h, forceErase)
            && last == LastReference<LRUHandle>(old(S), h, forceErase)
    {
      if h == null {
        return false;
      }
      var e: LRUHandle := h;
      ghost var s := S;
      SplitInRange(s);
      ReleaseKeeps(s, e, forceErase);
      last := Drop(e, forceErase, s);
      S := LruModel.Release(s, e, forceErase);
    }

    /** A handle whose place in the table is gone leaves the cache, and is freed unless it is referenced. */
    method Displaces(h: LRUHandle, ghost s: Shard<LRUHandle>) returns (last: bool)
      requires Tied(s) && h in s.live && (h in s.lru <==> s.live[h].refs == 0) && Distinct(s.lru)
      modifies this`lowPri, this`lruUsage, this`highUsage, this`usage, lru`next, lru`prev, s.lru`next, s.lru`prev
      modifies h`inCache
      ensures Tied(Displace(s, h)) && last == (s.live[h].refs == 0)
    {
      Shown(s, h);
      ghost var s1 := s.(live := s.live[h := s.live[h].(inCache := false)]);
      SetInCache(h, false, s);
      last := h.refs == 0;
      if last {
        WithoutOk(s.lru, IndexOf(s.lru, h));
        LRURemove(h, s1);
        Frees(h, LruRemove(s1, h));
      }
    }

    method Removes(key: string, hash: nat, ghost s: Shard<LRUHandle>) returns (last: bool)
      requires Tied(s) && Good(s)
      modifies this`lowPri, this`lruUsage, this`highUsage, this`usage, lru`next, lru`prev
      modifies s.live.Keys`next, s.live.Keys`prev, s.live.Keys`inCache, s.live.Keys`next_hash
      modifies table`chains, table`contents, table`elems, table.list
      ensures Tied(LruModel.Erase(s, Key(key, hash)))
      ensures last == (Key(key, hash) in s.table && s.table[Key(key, hash)] !in LruModel.Erase(s, Key(key, hash)).live)
    {
      ghost var id := Key(key, hash);
      Within(s);
      last := false;
      var e := TableRemove(key, hash, s);
      if e != null {
        TabledIsListed(s, id);
        ErasedIsGone(s, id);
        last := Displaces(e, s.(table := s.table - {id}));
      } else {
        assert s.table - {id} == s.table;
      }
    }

    method Erase(key: string, hash: nat) returns (last: bool)
      requires Valid()
      modifies this, lru, S.live.Keys, table`chains, table`contents, table`elems, table.list
      ensures Valid() && S == LruModel.Erase(old(S), Key(key, hash))
      ensures last == (Key(key, hash) in old(S.table) && old(S.table)[Key(key, hash)] !in S.live)
    {
      EraseKeeps(S, Key(key, hash));
      last := Removes(key, hash, S);
      S := LruModel.Erase(S, Key(key, hash));
    }

    method AddToTable(e: LRUHandle, ghost s: Shard<LRUHandle>, ghost r: Request) returns (prior: LRUHandle?)
      requires Tied(s) && Unknown(s, e) && e !in s.lru && e !in s.table.Values && e != lru && e.next == null
      requires e.prev == null
      requires Shows(e, r.Fresh())
      modifies this`usage, s.table.Values`next_hash, e`next_hash, table, table.list
      ensures Tied(AddNew(s, e, r)) && (table.list == old(table.list) || fresh(table.list))
      ensures prior == if r.id in s.table then s.table[r.id] else null
    {
      ghost var s1 := s.(table := s.table[r.id := e]);
      prior := TableInsert(e, s);
      Adopt(e, r.Fresh(), s1);
      AddToUsage(e.charge, s1.(live := s1.live[e := r.Fresh()]));
    }

    /** Put a new handle in the table and displace the one it takes the place of. */
    method Enters(e: LRUHandle, ghost s: Shard<LRUHandle>, ghost r: Request)
      requires Tied(s) && Good(s) && Unknown(s, e) && e != lru && e.next == null && e.prev == null
      requires !r.wantsHandle && Shows(e, r.Fresh())
      modifies this`lowPri, this`lruUsage, this`highUsage, this`usage, lru`next, lru`prev, s.live.Keys`next
      modifies s.live.Keys`prev
      modifies s.live.Keys`inCache, s.live.Keys`next_hash, e`next_hash, table, table.list
      ensures Tied(AddNew(Vacated(s, r.id), e, r)) && (table.list == old(table.list) || fresh(table.list))
    {
      Within(s);
      var prior := AddToTable(e, s, r);
      if prior != null {
        PriorDisplaced(s, e, r, prior);
        var last := Displaces(prior, AddNew(s, e, r));
      }
    }

    /** The new handle is in the table: it goes on the list, or to the caller with a reference. */
    method Hands(e: LRUHandle, ghost s: Shard<LRUHandle>, ghost r: Request, wantsHandle: bool,
                 ghost s2: Shard<LRUHandle>)
      requires Good(s) && Unknown(s, e) && s.low <= |s.lru| && wantsHandle == r.wantsHandle
      requires s2 == AddNew(Vacated(s, r.id), e, r.(wantsHandle := false)) && Tied(s2)
      modifies this`lowPri, this`lruUsage, this`highUsage, lru`next, lru`prev, e`refs
      modifies s2.live.Keys`next, s2.live.Keys`prev, s2.live.Keys`inHighPriPool
      ensures Tied(Enter(s, e, r))
    {
      EnterIs(s, e, r);
      if wantsHandle {
        Shown(s2, e);
        SetRefs(e, e.refs + 1, s2);
        assert s2.live[e := r.Fresh()] == AddNew(Vacated(s, r.id), e, r).live;
      } else {
        NewListable(s, e, r);
        LRUInsert(e, s2);
      }
    }

    lemma FreedToo(h: LRUHandle, s: Shard<LRUHandle>)
      requires Tied(s)
      ensures Tied(s.(freed := s.freed + [h]))
    {
      assert Ties(Seal, s);
      assert Ties(Seal, s.(freed := s.freed + [h]));
    }

    method Add(h: LRUHandle, r: Request, ghost s: Shard<LRUHandle>)
      requires Tied(s) && Good(s) && Unknown(s, h) && s.low <= |s.lru| && h.next == null && h.prev == null && h != lru
      requires Shows(h, r.(wantsHandle := false).Fresh())
      modifies this`lowPri, this`lruUsage, this`highUsage, this`usage, lru, s.live.Keys, h, table, table.list
      ensures Tied(Enter(s, h, r))
    {
      ghost var r0 := r.(wantsHandle := false);
      ghost var s2 := AddNew(Vacated(s, r.id), h, r0);
      VacatedKeeps(s, r.id);
      assert s2.live.Keys <= s.live.Keys + {h};
      Enters(h, s, r0);
      Hands(h, s, r, r.wantsHandle, s2);
    }

    /** After the eviction: refuse the new handle, free it at once, or add it. */
    method Settles(h: LRUHandle, r: Request, ghost s: Shard<LRUHandle>) returns (status: Status, handle: LRUHandle?)
      requires Tied(s) && Good(s) && Unknown(s, h) && s.low <= |s.lru| && h.next == null && h.prev == null && h != lru
      requires Shows(h, r.(wantsHandle := false).Fresh())
      modifies this`lowPri, this`lruUsage, this`highUsage, this`usage, lru, s.live.Keys, h, table, table.list
      ensures Tied(Settle(s, h, r)) && status == (if Refused(s, r) && r.wantsHandle then Incomplete else Ok)
      ensures handle == if r.wantsHandle && !Refused(s, r) then h else null
    {
      status, handle := Ok, null;
      Known(s);
      if usage + r.charge > capacity && (strict || !r.wantsHandle) {
        if !r.wantsHandle {
          FreedToo(h, s);
        } else {
          status := Incomplete;
        }
      } else {
        Add(h, r, s);
        if r.wantsHandle {
          handle := h;
        }
      }
    }

    /** Evict until there is room, then settle what becomes of the new handle. */
    method InsertHandle(h: LRUHandle, r: Request, ghost s: Shard<LRUHandle>)
      returns (status: Status, handle: LRUHandle?)
      requires Tied(s) && Inv(s) && Unknown(s, h) && s.low <= |s.lru| && h.next == null && h.prev == null && h != lru
      requires Shows(h, r.(wantsHandle := false).Fresh())
      modifies this`lowPri, this`lruUsage, this`highUsage, this`usage, lru, s.live.Keys, h, table, table.list
      ensures Tied(LruModel.Insert(s, h, r)) && Inv(LruModel.Insert(s, h, r)) && status == InsertStatus(s, r)
      ensures handle == if r.wantsHandle && Entering(s, r) then h else null
    {
      InsertOk(s, h, r, EvictFromLru(s, r.charge));
      var deleted := EvictFromLRU(r.charge, s);
      status, handle := Settles(h, r, EvictFromLru(s, r.charge));
    }

    /** `r` is what the caller asks for; `e` is the handle that is allocated for it. */
    method Insert(r: Request) returns (status: Status, handle: LRUHandle?, ghost e: LRUHandle)
      requires Valid()
      modifies this, lru, S.live.Keys, table, table.list
      ensures Valid() && fresh(e)
      ensures old(S).low <= |old(S).lru| && S == LruModel.Insert(old(S), e, r) && status == InsertStatus(old(S), r)
      ensures handle == if r.wantsHandle && Entering(old(S), r) then e else null
    {
      var h := new LRUHandle(r.id.key, r.id.hash, r.value, r.charge, r.isHighPri);
      e := h;
      SplitInRange(S);
      status, handle := InsertHandle(h, r, S);
      S := LruModel.Insert(S, e, r);
    }

    method SetStrictCapacityLimit(strict: bool)
      requires Valid()
      modifies this`strict, this`S
      ensures Valid() && S == old(S).(strict := strict)
    {
      assert Ties(Seal, S);
      SetStrictKeeps(S, strict);
      this.strict := strict;
      S := S.(strict := strict);
    }

    method GetUsage() returns (r: int)
      requires Valid()
      ensures r == TotalCharge(S.live) && r >= 0
    {
      assert Ties(Seal, S);
      PinnedTotal(S);
      r := usage;
    }

    method GetPinnedUsage() returns (r: int)
      requires Valid()
      ensures r == TotalCharge(Referenced(S.live)) && r >= 0
    {
      assert Ties(Seal, S);
      PinnedTotal(S);
      r := usage - lruUsage;
    }
  }
}
