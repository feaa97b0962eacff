/**
 A shard of the LRU cache as values. Every public method runs under the shard's mutex, so each is one function from
 a state to a state. `H` is the identity of a handle: an address in the implementation, anything with equality here.
 */
module LruModel {
  import opened Basics

  datatype Key = Key(key: string, hash: nat)

  /** A handle. `charge` is its total charge, metadata included. */
  datatype Entry = Entry(id: Key, value: int, charge: nat, refs: nat,
                         inCache: bool, isHighPri: bool, inHighPriPool: bool, hasHit: bool)

  /**
   `live` holds every handle that has not been freed. `lru` is the circular list without its dummy head, oldest
   first, and `low` is how many of its handles lie at or before `lru_low_pri_`. `freed` is history: the handles
   freed so far, in order.
   */
  datatype Shard<H> = Shard(
    capacity: nat, strict: bool, ratio: real, poolCapacity: real, live: map<H, Entry>, table: map<Key, H>,
        lru: seq<H>, low: nat,
    usage: int, lruUsage: int, highUsage: int, freed: seq<H>)

  /** The share of the capacity that a ratio gives to the high-priority pool. */
  function Share(capacity: nat, ratio: real): real { capacity as real * ratio }

  function Empty<H>(strict: bool, ratio: real): Shard<H> {
    Shard(0, strict, ratio, 0.0, map[], map[], [], 0, 0, 0, 0, [])
  }

  function IndexOf<H(==)>(xs: seq<H>, h: H): (p: nat)
    requires h in xs
    ensures p < |xs| && xs[p] == h && h !in xs[..p]
  {
    if xs[0] == h then 0 else 1 + IndexOf(xs[1..], h)
  }

  // ---- the LRU list

  function LruRemove<H>(s: Shard<H>, h: H): Shard<H>
    requires h in s.lru && h in s.live
  {
    var p, e := IndexOf(s.lru, h), s.live[h];
    s.(lru := Without(s.lru, p), low := if p < s.low then s.low - 1 else s.low,
       lruUsage := s.lruUsage - e.charge, highUsage := if e.inHighPriPool then s.highUsage - e.charge else s.highUsage)
  }

  /** Overflow the last entries of the high-priority pool to the low-priority one. */
  function MaintainPoolSize<H>(s: Shard<H>): Shard<H>
    decreases |s.lru| - s.low
  {
    if s.highUsage as real > s.poolCapacity && s.low < |s.lru| && s.lru[s.low] in s.live then
      var h := s.lru[s.low];
      var e := s.live[h];
      MaintainPoolSize(s.(low := s.low + 1, live := s.live[h := e.(inHighPriPool := false)],
          highUsage := s.highUsage - e.charge))
    else s
  }

  function LruInsert<H>(s: Shard<H>, h: H): Shard<H>
    requires h in s.live && s.low <= |s.lru|
  {
    var e := s.live[h];
    if s.ratio > 0.0 && (e.isHighPri || e.hasHit) then
      var s1 := s.(lru := s.lru + [h], live := s.live[h := e.(inHighPriPool := true)],
          highUsage := s.highUsage + e.charge);
      var s2 := MaintainPoolSize(s1);
      s2.(lruUsage := s2.lruUsage + e.charge)
    else
      s.(lru := s.lru[..s.low] + [h] + s.lru[s.low..], live := s.live[h := e.(inHighPriPool := false)],
          low := s.low + 1,
         lruUsage := s.lruUsage + e.charge)
  }

  // ---- leaving the cache

  /** The handle is freed: its charge leaves `usage_`. */
  function Free<H>(s: Shard<H>, h: H): Shard<H>
    requires h in s.live
  {
    s.(usage := s.usage - s.live[h].charge, live := s.live - {h}, freed := s.freed + [h])
  }

  function Unlist<H>(s: Shard<H>, h: H): Shard<H>
    requires h in s.live
  {
    s.(table := s.table - {s.live[h].id}, live := s.live[h := s.live[h].(inCache := false)])
  }

  /** Evict the oldest entry. */
  function EvictOldest<H>(s: Shard<H>): Shard<H>
    requires |s.lru| > 0 && s.lru[0] in s.live
  {
    var h := s.lru[0];
    Free(Unlist(LruRemove(s, h), h), h)
  }

  function EvictFromLru<H>(s: Shard<H>, charge: nat): Shard<H>
    decreases |s.lru|
  {
    if s.usage + charge > s.capacity && |s.lru| > 0 && s.lru[0] in s.live then EvictFromLru(EvictOldest(s), charge)
        else s
  }

  function EraseUnRefEntries<H>(s: Shard<H>): Shard<H>
    decreases |s.lru|
  {
    if |s.lru| > 0 && s.lru[0] in s.live then EraseUnRefEntries(EvictOldest(s)) else s
  }

  // ---- the public methods

  function SetCapacity<H>(s: Shard<H>, capacity: nat): Shard<H> {
    EvictFromLru(s.(capacity := capacity, poolCapacity := Share(capacity, s.ratio)), 0)
  }

  function SetHighPriorityPoolRatio<H>(s: Shard<H>, ratio: real): Shard<H> {
    MaintainPoolSize(s.(ratio := ratio, poolCapacity := Share(s.capacity, ratio)))
  }

  function Lookup<H>(s: Shard<H>, id: Key): Shard<H> {
    if id in s.table && s.table[id] in s.live then
      var h := s.table[id];
      var s1 := if s.live[h].refs == 0 && h in s.lru then LruRemove(s, h) else s;
      var e := s1.live[h];
      s1.(live := s1.live[h := e.(refs := e.refs + 1, hasHit := true)])
    else s
  }

  function Ref<H>(s: Shard<H>, h: H): Shard<H>
    requires h in s.live
  {
    s.(live := s.live[h := s.live[h].(refs := s.live[h].refs + 1)])
  }

  /** Whether Release frees the handle. */
  predicate LastReference<H>(s: Shard<H>, h: H, forceErase: bool)
    requires h in s.live
  {
    s.live[h].refs == 1 && (!s.live[h].inCache || s.usage > s.capacity || forceErase)
  }

  function Release<H>(s: Shard<H>, h: H, forceErase: bool): Shard<H>
    requires h in s.live && s.live[h].refs > 0 && s.low <= |s.lru|
  {
    var e := s.live[h];
    var s1 := s.(live := s.live[h := e.(refs := e.refs - 1)]);
    if e.refs > 1 then s1
    else if !e.inCache then Free(s1, h)
    else if s.usage > s.capacity || forceErase then Free(Unlist(s1, h), h)
    else LruInsert(s1, h)
  }

  /** What Insert was told. */
  datatype Request = Request(id: Key, value: int, charge: nat, isHighPri: bool, wantsHandle: bool) {
    function Fresh(): Entry { Entry(id, value, charge, if wantsHandle then 1 else 0, true, isHighPri, false, false) }
  }

  datatype Status = Ok | Incomplete

  /** After the eviction: is there still no room, and does that refuse the entry? */
  predicate Refused<H>(s: Shard<H>, r: Request) {
    s.usage + r.charge > s.capacity && (s.strict || !r.wantsHandle)
  }

  /** The entry whose place in the table is taken leaves the cache, and is freed unless it is referenced. */
  function Displace<H>(s: Shard<H>, h: H): Shard<H>
    requires h in s.live
  {
    var s1 := s.(live := s.live[h := s.live[h].(inCache := false)]);
    if s.live[h].refs == 0 && h in s.lru then Free(LruRemove(s1, h), h) else s1
  }

  function Enter<H>(s: Shard<H>, h: H, r: Request): Shard<H>
    requires s.low <= |s.lru|
  {
    var s1 := s.(table := s.table[r.id := h], live := s.live[h := r.Fresh()], usage := s.usage + r.charge);
    var s2 := if r.id in s.table && s.table[r.id] in s.live && s.table[r.id] != h then Displace(s1, s.table[r.id])
        else s1;
    if !r.wantsHandle && h in s2.live && s2.low <= |s2.lru| then LruInsert(s2, h) else s2
  }

  /** `h` is the handle that Insert allocated. */
  function Insert<H>(s: Shard<H>, h: H, r: Request): Shard<H>
    requires s.low <= |s.lru|
  {
    var s1 := EvictFromLru(s, r.charge);
    if Refused(s1, r) then (if r.wantsHandle then s1 else s1.(freed := s1.freed + [h]))
    else if s1.low <= |s1.lru| then Enter(s1, h, r) else s1
  }

  function InsertStatus<H>(s: Shard<H>, r: Request): Status {
    if Refused(EvictFromLru(s, r.charge), r) && r.wantsHandle then Incomplete else Ok
  }

  function Erase<H>(s: Shard<H>, id: Key): Shard<H> {
    if id in s.table && s.table[id] in s.live then
      Displace(s.(table := s.table - {id}), s.table[id])
    else s
  }
}
