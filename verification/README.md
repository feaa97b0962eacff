# Verified models of the caches, encrypted files and file utilities

The search engine in this repository vendors RocksDB beside its own code. This project models the parts of that code
whose correctness is hardest to see, and proves what they are for, for every input, every run or every interleaving.
`dafny verify dfyconfig.toml` checks all of it.

## What is modelled, and how

- **CLOCK cache** (`Clock*.dfy`). The lock-light protocol is a state machine: any number of threads interleave one
  shared access at a time (`ClockModel.Step`), under sequential consistency. `ClockInvariant.Inv` is what every action
  keeps; the theorems are about every schedule. Owners, holders, occupancies and the drift are history that no action
  reads; grants stand for the pointers that callers hold. `ClockEviction` is `EvictFromCache` by itself, as a class, and
  `ClockAlone` proves that it is what the protocol does when one thread moves alone. `ClockSerial` and `ClockInsertion`
  say what each call makes of the shard when no other thread moves meanwhile.
- **LRU cache** (`Lru*.dfy`). Each public method holds the mutex, so a shard is a value and a method is a function on
  it (`LruModel`), and the theorems are about every sequence of operations (`LruRuns`). The code itself is there as
  well: `LruTable`, over `LruChains`, is the hash table with its buckets linked through `next_hash`; `LruShard`, over
  `LruSteps`, is the shard with its circular list around a dummy head. Every public
  method of `LruShard.LRUCacheShard` is proved to do to the handles exactly what the function of the same name does to
  the value `S`, and to keep the invariant. `LruEffects` and `LruOrder` say, without those functions, what each
  operation does to the handles and to the order of the list.
- **Encrypted files** (`Encryption`, `EncryptedFiles`). Counter mode over arbitrary offsets (section 6.5 of NIST SP
  800-38A) with partial first and last blocks, in place on arrays. The block cipher is an arbitrary function that may fail.
- **Batched reads** (`MultiRead`). What the kernel does is a script: which request completes next, with how many bytes.
- **Prefetch buffer** (`Prefetch`), **throttled deletion** (`DeleteScheduler`, interleaved like the CLOCK cache, with
  failing file system calls), **order-preserving keys** (`KeyGen`), **file names** (`FileName`, `FileNameForms`, `Decimal`), and the
  **Porter stemmer** (`Porter`, with laws on its answers in `PorterLaws`; M. F. Porter, "An algorithm for suffix
  stripping", 1980).

Proofs that unfold too much are kept small by *seals* (`Seals`): a predicate `P` is stated as `forall seal: Seal :: Q(seal, ...)`,
so that the verifier looks inside only where a proof names `Q(Seal, ...)`.

## Where code and documentation disagree, or a natural claim fails

The model follows the code. For each of these there is a witness and the condition under which the claim holds.

- `pinned_usage_` of the CLOCK cache can be wrong for good, because `Unref` computes the total charge after it has
  dropped its reference: the handle may have been filled anew by then (`ClockDrift.PinnedUsageDrifts`), or just
  recycled, which clears the key and with it the key's part of the total (`ClockDrift.PinnedUsageDriftsByRecycling`).
  However operations overlap, it is exact all through a run if and only if no step fills or recycles a handle, and
  thereby changes its total, while a thread is between that drop and that read (`ClockPinned.PinnedUsageStaysExact`);
  hence it is when operations do not overlap (`ClockLife.SerialPinnedUsage`).
- The comment on CLOCK handles says that a handle is unused when its flags equal zero. A handle in the recycle bin may
  have its usage bit set (`ClockDrift.BinnedWithUsageBit`). In-cache bit and count are always clear there
  (`ClockBin.BinFlags`), the usage bit is what it was before recycling or cleared since (`ClockBin.BinnedFlags`), and it is clear
  if `TryEvict` recycled the handle (`ClockBin.EvictedFlagsAreClear`).
- A CLOCK insertion can raise the usage above the capacity while the limit is strict, if the flag is set after the
  insertion has read it (`ClockRuns.StrictSetLate`). By the flag that the insertion read, the limit holds in every
  interleaving (`ClockStrict.StrictInsert`).
- A CLOCK Lookup that overlaps an insertion of the same key can miss although the old handle and the new one are
  both in cache with that key (`ClockRuns.MissDuringReplacement`). A miss means that at some moment
  of the call the key was not bound to a handle in cache, and any handle in cache with that key was then being worked on
  inside the mutex (`ClockLookup.LookupSawItGone`).
- `EvictFromCache` can answer false although its last eviction made room (`ClockEviction.RoomButRefused`). It does so
  exactly if the slot just behind the hand is cached, unreferenced and used, and the charge fits only without it
  (`ClockEviction.RefusedWithRoom`). With nothing charged it examines nothing, so false then says nothing about
  references (`ClockEviction.ZeroChargeStays`); with something charged it means that all entries left are referenced.
- Lowering an LRU shard's capacity can leave the high-priority pool above its share (`LruRuns.PoolOverShare`). It does
  so exactly if what the eviction leaves of the pool does not fit the new share (`LruOperations.SetCapacityPoolExactly`),
  and the bound holds all through a run exactly if no SetCapacity does that (`LruRuns.PoolBound`).
- After an LRU insertion that answers Ok, the key can still have its older value (`LruRuns.OlderStays`): exactly if no
  handle was asked for, the charge does not fit beside the referenced handles, and one of those is bound to the key
  (`LruOperations.OkButOlder`).
- A positioned read can put an encrypted sequential file out of step, so that the next sequential read is decrypted at
  the wrong offset (`EncryptedFiles.ReadAfterPositionedRead`). The contract of `PositionedRead` says exactly when it
  stays in step; sequential reads and skips always do.
- A prefetch whose read fails leaves the buffer's offset, but not always its contents, so that it answers for bytes it
  does not hold: the tail has been moved to the front (`Prefetch.FailedRead`), or what was read before the error has
  been written over the contents (`Prefetch.HalfRead`). The buffer stays right if it is empty, if all of it was to be
  reused, or if nothing was and a new buffer was needed (`Prefetch.StillRight`); without that guard there are a file and
  a failing read after which it is wrong (`Prefetch.GuardIsNeeded`), and `Prefetch.FailureExactly` says exactly when.
  A slice returned for a request that reaches past the end of the file is not the file's bytes:
  `Prefetch.FilePrefetchBuffer.TryReadFromCache` states exactly when it is.
- `ParseFileName` accepts some names that begin with the info log prefix and sets neither number nor type
  (`FileName.LoggerIsUnset`); `FileName.AcceptedUnset` says exactly which.
- The stemmer takes a y at the beginning of a word for a consonant in the measure, and for a vowel in the
  consonant-vowel-consonant condition on words of three letters (`Porter.YesIsNotCvc`, `Porter.InitialY`); apart from
  such words the condition is the measure's own (`Porter.CvcExactly`). A word that consists of a suffix does not end in
  it (`Porter.EndsInExactly`).

## Model

| member | source | states |
|---|---|---|
| `ClockTheorems.InvStep` | lib/rocksdb-master/cache/clock_cache.cc:424-701 | every atomic action of every operation keeps the invariant: owners, reference counts equal to the set of holders, table, bin, usage and pinned usage |
| `ClockTheorems.Reachable` | lib/rocksdb-master/cache/clock_cache.cc:424-701 | every state of every interleaving of any number of threads satisfies the invariant |
| `ClockTheorems.NeverStuck` | lib/rocksdb-master/cache/clock_cache.cc:424-610 | in no interleaving does an action name a handle out of range or fail an assertion of the source |
| `ClockTheorems.RecycledAtMostOnce` | lib/rocksdb-master/cache/clock_cache.cc:424-436 | each occupancy of a handle is recycled at most once |
| `ClockLife.LifeCycle` | lib/rocksdb-master/cache/clock_cache.cc:424-521 | every action moves every handle only along its life cycle: taken from the bin, filled, published, brought to in-cache bit and count both zero by one thread, recycled by that thread; entries change only while being filled |
| `ClockLife.ReferencedIsKept` | lib/rocksdb-master/cache/clock_cache.cc:449-506 | a handle with a positive count is neither recycled nor refilled by any action |
| `ClockLife.OnlyTheFinisherRecycles` | lib/rocksdb-master/cache/clock_cache.cc:470-521 | only the thread whose action brought in-cache bit and count both to zero recycles the handle |
| `ClockLife.LookupResultIsStable` | lib/rocksdb-master/cache/clock_cache.cc:636-659 | a handle returned by Lookup holds the requested key and hash, and key, hash, value and charge stay until the caller releases it, whatever runs in between |
| `ClockLookup.LookupSawItCached` | lib/rocksdb-master/cache/clock_cache.cc:449-468 | when Lookup returns a handle, there was one step of that call at which the handle was in cache with the requested key and hash and the value and charge returned |
| `ClockLookup.LookupSawItGone` | lib/rocksdb-master/cache/clock_cache.cc:636-657 | when Lookup returns none, there was a moment of that call at which the key was not bound to a handle in cache, and any handle in cache with that key was being worked on inside the mutex |
| `ClockSerial.MissAtOnce` | lib/rocksdb-master/cache/clock_cache.cc:636-641 | a Lookup is over at once iff the key is not bound, and then the key is not cached and nothing changes |
| `ClockSerial.LookupHits` | lib/rocksdb-master/cache/clock_cache.cc:636-659 | undisturbed, a Lookup of a cached key hands out the handle to which the key is bound, with one more reference, and changes nothing else but the pinned usage |
| `ClockSerial.RefRefs` | lib/rocksdb-master/cache/clock_cache.cc:449-468 | undisturbed, Ref gains a reference iff the handle is in cache |
| `ClockSerial.ReleaseReleases` | lib/rocksdb-master/cache/clock_cache.cc:661-670 | undisturbed, Release gives the reference back and sets the usage bit; with the last one a handle out of cache is freed, and a forced release unbinds the handle's key otherwise |
| `ClockSerial.EraseErases` | lib/rocksdb-master/cache/clock_cache.cc:672-689 | undisturbed, Erase unbinds the key and takes its handle out of the cache, into the bin if it is not referenced |
| `ClockSerial.ClearClears` | lib/rocksdb-master/cache/clock_cache.cc:691-701 | undisturbed, EraseUnRefEntries unbinds every key and takes every handle out of the cache |
| `ClockSerial.ClearedAt` | lib/rocksdb-master/cache/clock_cache.cc:695-697 | every handle is then what taking it out by itself makes of it |
| `ClockInsertion.InsertInserts` | lib/rocksdb-master/cache/clock_cache.cc:564-610 | undisturbed, Insert evicts as EvictFromCache does, and then enters the entry or gives up |
| `ClockInsertion.InsertEnters` | lib/rocksdb-master/cache/clock_cache.cc:576-609 | an insertion that goes on binds the key to a handle from the bin or a new one, with the entry, takes the key's old handle out of the cache and counts the charge |
| `ClockInsertion.SetCapacitySets` | lib/rocksdb-master/cache/clock_cache.cc:549-557 | undisturbed, SetCapacity sets the capacity and evicts for it as EvictFromCache does |
| `ClockLookup.BindingStays` | lib/rocksdb-master/cache/clock_cache.cc:595-602 | no action rebinds a bound key to another handle: it is unbound first |
| `ClockRuns.MissDuringReplacement` | lib/rocksdb-master/cache/clock_cache.cc:592-602 | a run in which Lookup misses although two handles are in cache with the key |
| `ClockTheorems.WhenMutexIsFree` | lib/rocksdb-master/cache/clock_cache.cc:564-610 | whenever the mutex is free, the map sends a key to a handle iff that handle is in cache with that key, and usage is the charge of all handles not in the bin |
| `ClockStrict.StrictInsert` | lib/rocksdb-master/cache/clock_cache.cc:564-610 | in every interleaving, an insertion that adds its charge decided to go on at one step of its call; if its eviction had answered true, the flag it read was on, or no handle was asked for, the usage stays within the capacity |
| `ClockRuns.StrictSetLate` | lib/rocksdb-master/cache/clock_cache.cc:559-575 | a run in which an insertion exceeds the capacity while the limit is strict, set after it read the flag |
| `ClockLife.PinnedUsageAtRest` | lib/rocksdb-master/cache/clock_cache.cc:470-491 | with no operation in progress, pinned usage is the charge of the referenced handles iff the differences between charges at dropping and charges read afterwards add up to zero |
| `ClockLife.SerialPinnedUsage` | lib/rocksdb-master/cache/clock_cache.cc:470-491 | when operations run one at a time, pinned usage at rest is exact |
| `ClockPinned.ExactStep` | lib/rocksdb-master/cache/clock_cache.cc:424-491 | an action keeps pinned usage, with the corrections still owed, exact iff it does not change the total charge of a handle that some thread has dropped and not read yet |
| `ClockPinned.PinnedUsageStaysExact` | lib/rocksdb-master/cache/clock_cache.cc:424-491 | however operations overlap, pinned usage, with the corrections still owed, is exact and those corrections are right all through a run iff no action fills or recycles a handle, changing its total charge, while a thread is between dropping its last reference and reading the total |
| `ClockPinned.PinnedUsageIsExact` | lib/rocksdb-master/cache/clock_cache.cc:478-483 | in such a run pinned usage at rest is the charge of the referenced handles |
| `ClockDrift.PinnedUsageDrifts` | lib/rocksdb-master/cache/clock_cache.cc:478-483 | a run of overlapping operations after which pinned usage is 6 and the referenced charge 8 |
| `ClockDrift.PinnedUsageDriftsByRecycling` | lib/rocksdb-master/cache/clock_cache.cc:430-431 | a run in which the only handle is filled once, after which nothing is referenced and pinned usage is 1 |
| `ClockDrift.BinnedWithUsageBit` | lib/rocksdb-master/cache/clock_cache.cc:183-190 | a run after which a handle in the bin has its usage bit set |
| `ClockBin.BinFlags` | lib/rocksdb-master/cache/clock_cache.cc:424-436 | in every interleaving a handle in the bin has in-cache bit and count clear |
| `ClockBin.BinnedFlags` | lib/rocksdb-master/cache/clock_cache.cc:424-521 | in every interleaving a handle enters the bin with the flags it had, and in the bin its usage bit can be cleared but not set |
| `ClockBin.EvictedFlagsAreClear` | lib/rocksdb-master/cache/clock_cache.cc:508-521 | in every interleaving what TryEvict puts in the bin has no flag set |
| `ClockEdges.StepMoves` | lib/rocksdb-master/cache/clock_cache.cc:424-701 | a step moves one thread only, along an edge of the control flow |
| `ClockAlone.LoopIsTurns` | lib/rocksdb-master/cache/clock_cache.cc:508-547 | the actions of one undisturbed thread in the eviction loop have the list, usage, hand and answer of `Turns` |
| `ClockEviction.Shard.TryEvict` | lib/rocksdb-master/cache/clock_cache.cc:508-521 | evicts iff in cache, unused and unreferenced; otherwise only clears the usage bit; usage, bin and table follow |
| `ClockEviction.Shard.EvictFromCache` | lib/rocksdb-master/cache/clock_cache.cc:523-547 | the loop over the circular list does what `Turns` says, stops within two rounds, keeps usage, bin and table consistent, and returns true iff the charge fits beside what is unavoidable |
| `ClockEviction.EvictionOutcome` | lib/rocksdb-master/cache/clock_cache.cc:523-547 | true means the charge fits; false means two full rounds were made and every entry still in cache is referenced; only unreferenced entries were evicted |
| `ClockEviction.ExactAnswer` | lib/rocksdb-master/cache/clock_cache.cc:523-547 | the answer is true iff the charge fits beside the referenced entries and, if the slot just behind the hand is cached, unreferenced and used, beside that one; a false answer leaves the referenced entries only |
| `ClockEviction.RefusedWithRoom` | lib/rocksdb-master/cache/clock_cache.cc:533-544 | a request is refused with room iff that slot is such and the charge fits only without it |
| `ClockEviction.SecondChance` | lib/rocksdb-master/cache/clock_cache.cc:508-547 | within one round no entry with its usage bit set is evicted |
| `ClockEviction.RoomButRefused` | lib/rocksdb-master/cache/clock_cache.cc:533-544 | an instance: false is returned although the charge fits by then |
| `ClockEviction.ZeroChargeStays` | lib/rocksdb-master/cache/clock_cache.cc:523-528 | with usage zero nothing is examined, so an unreferenced entry can remain after false |
| `LruRuns.StepKeeps` | lib/rocksdb-master/cache/lru_cache.cc:118-443 | every operation keeps the shard's invariant |
| `LruRuns.ThreeStates` | lib/rocksdb-master/cache/lru_cache.h:28-48 | after any operations, every live handle is in exactly one of the three documented states: in the table iff in cache, on the list iff in cache and unreferenced, in cache or referenced |
| `LruRuns.LookupFindsLatest` | lib/rocksdb-master/cache/lru_cache.cc:271-284 | what the table binds a key to is the value of the latest insertion of that key that entered the table, and the key has been bound ever since |
| `LruRuns.Conservation` | lib/rocksdb-master/cache/lru_cache.cc:302-454 | usage is the charge of all live handles, list usage that of the list, their difference that of the referenced handles, pool usage that of the high-priority stretch |
| `LruRuns.FreedOnce` | lib/rocksdb-master/cache/lru_cache.cc:302-443 | no handle is freed twice and no freed handle is live |
| `LruRuns.ReferencedIsNotFreed` | lib/rocksdb-master/cache/lru_cache.cc:302-443 | no operation frees a referenced handle, except the release of its last reference |
| `LruRuns.ListIsSplit` | lib/rocksdb-master/cache/lru_cache.cc:178-233 | the list splits at `lru_low_pri_` into a low-priority prefix and a high-priority suffix exactly as the flags say |
| `LruInvariant.MaintainFits` | lib/rocksdb-master/cache/lru_cache.cc:222-233 | MaintainPoolSize stops because the pool fits, before it would reach the dummy head |
| `LruOperations.SetCapacityPoolExactly` | lib/rocksdb-master/cache/lru_cache.cc:235-258 | SetCapacity leaves the pool within its share iff what the eviction leaves of it fits the new share |
| `LruRuns.PoolStep` | lib/rocksdb-master/cache/lru_cache.cc:178-300 | from a state with the pool within its share every operation keeps it there, but SetCapacity iff what is left fits |
| `LruRuns.GrowingFits` | lib/rocksdb-master/cache/lru_cache.cc:251-258 | a capacity that is not lowered always fits |
| `LruRuns.PoolBound` | lib/rocksdb-master/cache/lru_cache.cc:196-300 | the pool is within its share all through a run iff at every SetCapacity what is left of it fits |
| `LruRuns.PoolOverShare` | lib/rocksdb-master/cache/lru_cache.cc:251-258 | an instance: a run that lowers the capacity leaves the pool above its share |
| `LruRuns.OverCapacityMeansPinned` | lib/rocksdb-master/cache/lru_cache.cc:312-316 | in every reachable state, usage above capacity implies an empty list |
| `LruOperations.EvictFrees` | lib/rocksdb-master/cache/lru_cache.cc:235-249 | EvictFromLRU frees exactly the shortest oldest-first stretch that makes room, or the whole list |
| `LruOperations.NoUnderflow` | lib/rocksdb-master/cache/lru_cache.cc:187-192 | the charge subtracted from a total is never more than the total |
| `LruRuns.StrictLimit` | lib/rocksdb-master/cache/lru_cache.cc:369-381 | under the strict limit an insertion leaves usage within capacity or no higher than it was |
| `LruOperations.EnteringExactly` | lib/rocksdb-master/cache/lru_cache.cc:367-381 | an insertion enters iff its charge fits beside the referenced handles, or a handle is asked for and the limit is not strict |
| `LruOperations.InsertEnters` | lib/rocksdb-master/cache/lru_cache.cc:382-404 | an insertion that enters binds its key to the new handle and otherwise only unbinds and frees; every referenced handle stays live |
| `LruOperations.InsertRefused` | lib/rocksdb-master/cache/lru_cache.cc:369-381 | a refused insertion binds nothing, leaves the list empty, keeps every referenced handle, and frees the new handle iff no handle was asked for |
| `LruOperations.OkButOlder` | lib/rocksdb-master/cache/lru_cache.cc:369-381 | an insertion answers Ok and leaves the key bound to an older handle iff no handle was asked for, the charge does not fit beside the referenced handles, and one of these is bound to the key |
| `LruRuns.OlderStays` | lib/rocksdb-master/cache/lru_cache.cc:369-376 | a run after which an insertion answers Ok and the key keeps its older value |
| `LruEffects.StepDoes` | lib/rocksdb-master/cache/lru_cache.cc:118-443 | which handles each operation takes out of the shard, and what changes in the entries of the others |
| `LruEffects.StepBrings` | lib/rocksdb-master/cache/lru_cache.cc:339-404 | a handle comes into the shard exactly by an insertion that enters, with what it was inserted with |
| `LruEffects.StepLimits` | lib/rocksdb-master/cache/lru_cache.cc:251-300 | capacity, strictness and ratio change only by the operations that set them |
| `LruOrder.ListStep` | lib/rocksdb-master/cache/lru_cache.cc:178-249 | every operation leaves the handles that stay on the list in their order; the one it puts there goes to the very end if it is favoured and else to the end of the low stretch; the split moves back only as far as the pool's share demands |
| `LruOrder.InOrderOfUse` | lib/rocksdb-master/cache/lru_cache.cc:196-249 | without a pool, in every run, the list is in the order in which its handles were put there |
| `LruOrder.PoolInOrder` | lib/rocksdb-master/cache/lru_cache.cc:196-233 | in every run the pool is in the order in which its handles were put there |
| `LruEffects.FavouredIs` | lib/rocksdb-master/cache/lru_cache.cc:196-203 | in every run, a handle is favoured iff there is a pool and the handle was inserted with high priority or a Lookup has found it since |
| `LruChains.BucketIsRemainder` | lib/rocksdb-master/cache/lru_cache.cc:64-65 | masking with length minus one is the remainder by a power of two |
| `LruTable.LRUHandleTable.constructor` | lib/rocksdb-master/cache/lru_cache.cc:21-23 | a new table is the empty map with a valid power-of-two length |
| `LruTable.LRUHandleTable.FindPointer` | lib/rocksdb-master/cache/lru_cache.cc:64-70 | finds the place that points to the key's handle iff the map has the key, else the end of its bucket |
| `LruTable.LRUHandleTable.Lookup` | lib/rocksdb-master/cache/lru_cache.cc:34-36 | returns the handle that the map sends the key to, or null |
| `LruTable.LRUHandleTable.Insert` | lib/rocksdb-master/cache/lru_cache.cc:38-52 | updates the map at the handle's key, returns the previous handle, keeps every handle in bucket `hash & (length - 1)`, and leaves at most as many handles as buckets |
| `LruTable.LRUHandleTable.Remove` | lib/rocksdb-master/cache/lru_cache.cc:54-62 | removes the key from the map and returns its handle, or null |
| `LruTable.LRUHandleTable.Resize` | lib/rocksdb-master/cache/lru_cache.cc:72-96 | relinks every handle into the new list and keeps the map; the length is a power of two from 16 on, at least one and a half times the handles and not doubled more than needed |
| `LruShard.LRUCacheShard.constructor` | lib/rocksdb-master/cache/lru_cache.cc:98-116 | the linked shard starts as the empty model shard with its capacity set |
| `LruShard.LRUCacheShard.LRURemove` | lib/rocksdb-master/cache/lru_cache.cc:178-194 | unlinking a handle from the circular list removes it from the model's list, moves the split and updates the totals |
| `LruShard.LRUCacheShard.LRUInsert` | lib/rocksdb-master/cache/lru_cache.cc:196-220 | linking a handle in at either head inserts it in the model's list and restores the pool size |
| `LruShard.LRUCacheShard.MaintainPoolSize` | lib/rocksdb-master/cache/lru_cache.cc:222-233 | the pointer loop moves the split as the model does and never reaches the dummy head |
| `LruShard.LRUCacheShard.EvictFromLRU` | lib/rocksdb-master/cache/lru_cache.cc:235-249 | the pointer loop evicts and returns exactly what the model evicts |
| `LruShard.LRUCacheShard.SetCapacity` | lib/rocksdb-master/cache/lru_cache.cc:251-264 | refines the model's SetCapacity and keeps the invariant |
| `LruShard.LRUCacheShard.SetStrictCapacityLimit` | lib/rocksdb-master/cache/lru_cache.cc:266-269 | only the flag changes and the invariant is kept |
| `LruShard.LRUCacheShard.Lookup` | lib/rocksdb-master/cache/lru_cache.cc:271-284 | refines the model's Lookup and returns the bound handle or null |
| `LruShard.LRUCacheShard.Ref` | lib/rocksdb-master/cache/lru_cache.cc:286-293 | refines the model's Ref |
| `LruShard.LRUCacheShard.SetHighPriorityPoolRatio` | lib/rocksdb-master/cache/lru_cache.cc:295-300 | refines the model's SetHighPriorityPoolRatio |
| `LruShard.LRUCacheShard.Release` | lib/rocksdb-master/cache/lru_cache.cc:302-337 | refines the model's Release; returns whether the handle was freed; the source's assertion on the list holds |
| `LruShard.LRUCacheShard.Insert` | lib/rocksdb-master/cache/lru_cache.cc:339-416 | refines the model's Insert with a newly allocated handle, its status and its returned handle |
| `LruShard.LRUCacheShard.Erase` | lib/rocksdb-master/cache/lru_cache.cc:418-443 | refines the model's Erase |
| `LruShard.LRUCacheShard.EraseUnRefEntries` | lib/rocksdb-master/cache/lru_cache.cc:118-139 | refines the model's EraseUnRefEntries |
| `LruShard.LRUCacheShard.GetUsage` | lib/rocksdb-master/cache/lru_cache.cc:445-448 | returns the total charge of the live handles |
| `LruShard.LRUCacheShard.GetPinnedUsage` | lib/rocksdb-master/cache/lru_cache.cc:450-454 | returns the total charge of the referenced handles |
| `Encryption.EncryptBlock` | lib/rocksdb-master/env/env_encryption.cc:836-862 | in place, a block gets the encrypted counter block added bytewise; nothing changes if the cipher fails |
| `Encryption.CryptAll` | lib/rocksdb-master/env/env_encryption.cc:717-816 | the loop of Encrypt and Decrypt adds to each byte the keystream byte of its absolute position; it succeeds iff the cipher works for every block touched; on failure a prefix is done and the rest untouched |
| `Encryption.CryptUndone` | lib/rocksdb-master/env/env_encryption.cc:762-816 | Decrypt undoes Encrypt at any offset and length |
| `Encryption.CryptWindow` | lib/rocksdb-master/env/env_encryption.cc:717-757 | a window of an encryption is the encryption of the window at its own offset |
| `Encryption.CountersDiffer` | lib/rocksdb-master/env/env_encryption.cc:840-841 | two blocks share a counter block iff their indices agree modulo 2^64 |
| `Encryption.CounterHolds` | lib/rocksdb-master/env/env_encryption.cc:836-841 | the counter block decodes to the block's number counted on from the initial counter, and carries the rest of the IV |
| `Encryption.KeyByteIs` | lib/rocksdb-master/env/env_encryption.cc:834-853 | a byte of the keystream is that place of the encryption of any block with that number and the rest of the IV |
| `Encryption.KeyShift` | lib/rocksdb-master/env/env_encryption.cc:841 | the initial counter shifts the keystream by that many blocks |
| `Encryption.XorAt` | lib/rocksdb-master/env/env_encryption.cc:850-852 | the exclusive or, bit by bit |
| `Encryption.LittleEndianAt` | lib/rocksdb-master/util/coding.h:188-201 | fixed-width numbers have their lowest byte first |
| `EncryptedFiles.PrefixLayout` | lib/rocksdb-master/env/env_encryption.cc:871-878 | a prefix of a number, a filler and a block is for the stream with that counter and that IV |
| `EncryptedFiles.CreateNewPrefix` | lib/rocksdb-master/env/env_encryption.cc:882-914 | the first two blocks stay as generated; the rest is encrypted as of offset zero with the stream they define; succeeds iff the cipher works for the blocks touched |
| `EncryptedFiles.CreateCipherStream` | lib/rocksdb-master/env/env_encryption.cc:926-958 | a prefix shorter than two blocks is corruption; otherwise, iff the cipher works for the blocks touched, the stream of its first two blocks and the decrypted rest |
| `EncryptedFiles.PrefixRoundTrip` | lib/rocksdb-master/env/env_encryption.cc:873-958 | opening a file gives the stream it was created with and the secret part of its prefix |
| `EncryptedFiles.ReadsBack` | lib/rocksdb-master/env/env_encryption.cc:136-237 | any sequence of appends to a new file reads back as the plain text through any window, with the stream derived again from the prefix on disk |
| `EncryptedFiles.EncryptedWritableFile.Append` | lib/rocksdb-master/env/env_encryption.cc:210-237 | the plain text grows by the data; a cipher failure leaves the file alone |
| `EncryptedFiles.EncryptedWritableFile.PositionedAppend` | lib/rocksdb-master/env/env_encryption.cc:239-265 | iff the cipher works for the blocks touched, the plain text has the data at the offset, the keystream in a hole and is otherwise unchanged; else nothing changes |
| `EncryptedFiles.EncryptedWritableFile.GetFileSize` | lib/rocksdb-master/env/env_encryption.cc:279-281 | returns the length of the plain text |
| `EncryptedFiles.EncryptedWritableFile.Truncate` | lib/rocksdb-master/env/env_encryption.cc:287-289 | trims the plain text, or extends it by the keystream |
| `EncryptedFiles.ReadAt` | lib/rocksdb-master/env/env_encryption.cc:136-149 | a random read returns the window of the plain text |
| `EncryptedFiles.EncryptedRandomRWFile.Write` | lib/rocksdb-master/env/env_encryption.cc:347-369 | iff the cipher works for the blocks touched, the plain text has the data at the offset, the keystream in a hole and is otherwise unchanged; else nothing changes |
| `EncryptedFiles.EncryptedRandomRWFile.Read` | lib/rocksdb-master/env/env_encryption.cc:374-387 | returns the window of the plain text iff the cipher works for the blocks touched |
| `EncryptedFiles.EncryptedSequentialFile.Read` | lib/rocksdb-master/env/env_encryption.cc:48-61 | returns the next bytes of the plain text while the wrapper is in step, and stays in step |
| `EncryptedFiles.EncryptedSequentialFile.Skip` | lib/rocksdb-master/env/env_encryption.cc:70-77 | stays in step, also past the end of the file |
| `EncryptedFiles.EncryptedSequentialFile.PositionedRead` | lib/rocksdb-master/env/env_encryption.cc:98-112 | returns the window of the plain text and moves the wrapper's offset but not the file; says exactly when it succeeds and when the wrapper stays in step |
| `EncryptedFiles.ReadAfterPositionedRead` | lib/rocksdb-master/env/env_encryption.cc:98-112 | a sequential read after a positioned one that decrypts wrongly |
| `MultiRead.ReapOk` | lib/rocksdb-master/env/io_posix.cc:684-723 | a reaped completion keeps buffer and result equal to the file's bytes and lowers what is left to read |
| `MultiRead.Reaped` | lib/rocksdb-master/env/io_posix.cc:684-723 | reaping moves a request from in flight to done or incomplete and keeps every request in exactly one place |
| `MultiRead.Submit` | lib/rocksdb-master/env/io_posix.cc:652-673 | submits the incomplete requests first, then new ones, and keeps every request in exactly one place |
| `MultiRead.ReapAll` | lib/rocksdb-master/env/io_posix.cc:684-724 | for every order of completions a batch leaves nothing in flight and strictly less to read |
| `MultiRead.MultiRead` | lib/rocksdb-master/env/io_posix.cc:607-727 | terminates for every order and every pattern of partial reads; each outcome is an error or exactly the file's bytes of the range up to its end; a request fails iff one of its own completions was an error, too long, or empty with no way to read on |
| `Prefetch.Rounddown` | lib/rocksdb-master/util/aligned_buffer.h:41 | the quotient times the divisor is the last aligned number up to the argument |
| `Prefetch.Roundup` | lib/rocksdb-master/util/aligned_buffer.h:33-35 | the first aligned number from the argument on |
| `Prefetch.AlignedBuffer.AllocateNewBuffer` | lib/rocksdb-master/util/aligned_buffer.h:147-178 | a new buffer of the rounded-up capacity with the stretch asked for, of the given length or of all; a copy that does not fit is ignored |
| `Prefetch.AlignedBuffer.RefitTail` | lib/rocksdb-master/util/aligned_buffer.h:235-240 | the overlapping move brings the tail to the front |
| `Prefetch.ChunkFits` | lib/rocksdb-master/file/file_prefetch_buffer.cc:58-66 | the reused part of the buffer is the file's bytes from the rounded-down offset on |
| `Prefetch.ChunkAligned` | lib/rocksdb-master/file/file_prefetch_buffer.cc:60-63 | for a request within the file the reused part is a whole number of alignment units |
| `Prefetch.ReadIsRight` | lib/rocksdb-master/file/file_prefetch_buffer.cc:86-96 | a successful read leaves the file's bytes of a stretch that covers the request |
| `Prefetch.FailureExactly` | lib/rocksdb-master/file/file_prefetch_buffer.cc:73-96 | whatever a failed read has written, the contents are right afterwards iff nothing was reused and a new buffer was needed, or the moved tail equals what was in front, or what was written equals what was there |
| `Prefetch.StillRight` | lib/rocksdb-master/file/file_prefetch_buffer.cc:73-96 | a failed read leaves the buffer right, whatever it has written, if the buffer is empty, all of it was to be reused, or nothing was and a new buffer was needed |
| `Prefetch.GuardIsNeeded` | lib/rocksdb-master/file/file_prefetch_buffer.cc:73-96 | without that guard there are a file and a failed read after which the buffer is wrong |
| `Prefetch.FilePrefetchBuffer.Prefetch` | lib/rocksdb-master/file/file_prefetch_buffer.cc:24-97 | in any state says what contents and capacity become; a right buffer stays right and covers the request on success, stays right on failure under a guard on the arguments, and is right after a failure exactly under a condition on the contents |
| `Prefetch.FilePrefetchBuffer.TryReadFromCache` | lib/rocksdb-master/file/file_prefetch_buffer.cc:99-135 | in any state answers from the contents what lies within them; from a right buffer a slice is what a read of the file gives iff the request lies within the file; none is returned only without readahead, before the buffer, or on error; each time it reads ahead twice as far, up to the maximum |
| `Prefetch.FailedRead` | lib/rocksdb-master/file/file_prefetch_buffer.cc:86-96 | after a failed read with a moved tail TryReadFromCache gives, for every alignment, the second unit of a file of three for the first |
| `Prefetch.HalfRead` | lib/rocksdb-master/file/file_prefetch_buffer.cc:88-96 | after a read that failed half way TryReadFromCache gives, for every alignment, the fifth unit of a file of six for the first |
| `DeleteScheduler.MarkAsTrash` | lib/rocksdb-master/file/delete_scheduler.cc:149-188 | terminates; renames the file to the first trash name that does not exist, leaves trash files alone, rejects paths without a file name, and reports which call failed |
| `DeleteScheduler.CandidatesDiffer` | lib/rocksdb-master/file/delete_scheduler.cc:166-180 | the names that are tried are pairwise different |
| `DeleteScheduler.InvStep` | lib/rocksdb-master/file/delete_scheduler.cc:55-346 | every step of any caller and of the background thread keeps the invariant |
| `DeleteScheduler.Conservation` | lib/rocksdb-master/file/delete_scheduler.cc:262-346 | in every interleaving the total trash size is the bytes held by the trashed files, partly truncated ones included, plus what is about to be subtracted, plus what failed deletions left |
| `DeleteScheduler.PickedExists` | lib/rocksdb-master/file/delete_scheduler.cc:219-231 | a file picked for deletion exists and is counted |
| `DeleteScheduler.WaitForEmptyTrash` | lib/rocksdb-master/file/delete_scheduler.cc:348-353 | no pending files means everything ever queued was taken off the queue and, without file system errors, removed, with nothing of it left in the total |
| `DeleteScheduler.QueuedIsDeleted` | lib/rocksdb-master/file/delete_scheduler.cc:190-260 | in every interleaving, when the trash is empty and no caller is under way, every file that was queued is gone from the file system or was reported as failed |
| `DeleteScheduler.FilesAfter` | lib/rocksdb-master/file/delete_scheduler.cc:55-346 | no step does anything to a file but delete, move, truncate or remove it as said; the only new files are moved ones |
| `DeleteScheduler.GoneIsRemoved` | lib/rocksdb-master/file/delete_scheduler.cc:262-328 | what is recorded as removed was in the file system before the step and is not after it |
| `DeleteScheduler.DeletionTakesPlace` | lib/rocksdb-master/file/delete_scheduler.cc:262-328 | a legal deletion takes place: at once, by moving, or by truncating or removing a picked file |
| `DeleteScheduler.PenaltyExactly` | lib/rocksdb-master/file/delete_scheduler.cc:236-246 | the penalty is exactly the time after which the bytes deleted are within the rate |
| `DeleteScheduler.RateBound` | lib/rocksdb-master/file/delete_scheduler.cc:202-253 | before each next deletion at an unchanged rate the bytes deleted are within rate times elapsed time, up to one microsecond |
| `KeyGen.GetStringFromInt` | lib/rocksdb-master/db_stress_tool/db_stress_common.h:364-374 | reversing the fixed-width encoding gives the big-endian one |
| `KeyGen.Key` | lib/rocksdb-master/db_stress_tool/db_stress_common.h:395-424 | the loop over levels computes the recursive encoding |
| `KeyGen.KeysInOrder` | lib/rocksdb-master/db_stress_tool/db_stress_common.h:385-424 | smaller values have smaller keys in unsigned lexicographic order, for any positive weights that add up to the window |
| `KeyGen.KeysDiffer` | lib/rocksdb-master/db_stress_tool/db_stress_common.h:385-424 | keys are ordered iff their values are, and equal iff their values are |
| `KeyGen.KeyShape` | lib/rocksdb-master/db_stress_tool/db_stress_common.h:385-424 | the words of a key, their number and the letters x behind them, from the weights and the value's offset in the window |
| `Decimal.DigitsUnique` | lib/rocksdb-master/file/filename.cc:59-65 | the numeral of a number is the only string of digits of that value without leading zeros |
| `FileName.ConsumeDecimalNumber` | lib/rocksdb-master/util/string_util.cc:158-180 | consumes exactly the leading digits, and fails iff there are none or the number does not fit 64 bits |
| `FileName.ParsesBack` | lib/rocksdb-master/file/filename.cc:256-369 | every made log, archived log, table, blob, temp, manifest, options, temp options and meta-database name parses back to its number and type, for every 64-bit number and every prefix that info logs can have |
| `FileName.GetInfoLogPrefix` | lib/rocksdb-master/file/filename.cc:31-58 | as much of the flattened path as fits, and `_LOG`; hence a prefix that no other file name begins with |
| `FileName.OldInfoLogBack` | lib/rocksdb-master/file/filename.cc:198-209 | old info log names parse back to their time under any prefix |
| `FileName.AcceptedUnset` | lib/rocksdb-master/file/filename.cc:276-291 | exactly which names are accepted without number or type |
| `FileNameForms.ParsesExactly` | lib/rocksdb-master/file/filename.cc:256-369 | a name is parsed to a number and types iff it has one of the known forms |
| `FileNameForms.FixedBack` | lib/rocksdb-master/file/filename.cc:162-235 | the names CURRENT, LOCK and IDENTITY parse back under every info log prefix |
| `FileName.LoggerIsUnset` | lib/rocksdb-master/file/filename.cc:276-291 | an instance of such a name |
| `FileName.TableFileNameToNumber` | lib/rocksdb-master/file/filename.cc:119-128 | the right-to-left loop computes the value of the digits before the last dot, modulo 2^64 |
| `FileName.TableNumberBack` | lib/rocksdb-master/file/filename.cc:102-128 | it undoes MakeTableFileName under any directory path |
| `FileName.NormalizePath` | lib/rocksdb-master/file/filename.cc:456-466 | the loop computes the normal form |
| `FileName.NormalizeOk` | lib/rocksdb-master/file/filename.cc:456-466 | a normal form has no adjacent separators and the same components |
| `FileName.NormalizeTwice` | lib/rocksdb-master/file/filename.cc:456-466 | normalizing is idempotent |
| `Porter.Measure` | Porter.java:84-118 | the nested loops count exactly the transitions from vowel to consonant |
| `Porter.DropFinalVowel` | Porter.java:320-337 | dropping a final vowel preserves the measure |
| `Porter.InitialY` | Porter.java:91-98 | the two readings of a first letter differ iff it is y |
| `Porter.CvcExactly` | Porter.java:135-160 | the consonant-vowel-consonant condition is the measure's own, except on words of three letters that begin with y |
| `Porter.YesIsNotCvc` | Porter.java:145-150 | an instance of such a word |
| `Porter.EndsInExactly` | Porter.java:43-44 | a word ends in a suffix iff it is something and then the suffix |
| `Porter.ContainsVowel` | Porter.java:120-133 | finds a vowel iff there is one |
| `Porter.HasSuffix` | Porter.java:39-62 | true iff the word ends in the suffix and is longer, and then the stem is the rest |
| `Porter.Step1` | Porter.java:162-238 | helper: the nested tests are the rules for plurals, for ed and ing, and for y, one after the other |
| `Porter.TryRules` | Porter.java:240-318 | the table loops apply the first rule whose suffix ends the word after a stem of sufficient measure |
| `Porter.DropEByStem` | Porter.java:320-337 | the rule for a final e, which measures the word, is the published one, which measures the stem |
| `Porter.Step5` | Porter.java:320-350 | helper: removes a final e and a double l under their conditions, and never indexes out of range |
| `Porter.StripPrefixes` | Porter.java:352-367 | helper: removes the first prefix of the list that the word begins with |
| `Porter.StripSuffixes` | Porter.java:370-383 | helper: the steps in order, skipped once nothing is left |
| `PorterLaws.LawsOfStep2` | Porter.java:240-277 | after a stem of positive measure, fulness and ful, ization and ize and thirteen more pairs of endings lead to the same stem |
| `PorterLaws.MoreLawsOfStep2` | Porter.java:240-277 | so do alli, alism and aliti, and ousli and ousness |
| `PorterLaws.LawsOfTion` | Porter.java:240-277 | so do tional and tion, and ation and ate, unless a longer ending is there |
| `PorterLaws.LawsOfStep3` | Porter.java:279-299 | so do icate, iciti and ical with ic |
| `PorterLaws.LawOfNess` | Porter.java:279-299 | ness goes unless step 2 takes it |
| `PorterLaws.LawsOfStep4` | Porter.java:301-318 | after a stem of measure above one each ending goes that the steps before leave alone |
| `PorterLaws.MoreLawsOfStep4` | Porter.java:301-318 | ance, ence, ic, able, ible, ant, ement, sion and ou go always |
| `PorterLaws.LawOfMent` | Porter.java:301-318 | ment and ent go unless a longer ending is there |
| `PorterLaws.LawOfE` | Porter.java:320-338 | a final e goes iff the measure is above one, or is one and no short word would be left |
| `PorterLaws.LawOfLl` | Porter.java:340-349 | a double l becomes single iff the measure is above one |
| `PorterLaws.LawOfPlural` | Porter.java:166-185 | a word and its plural have the same stem |
| `PorterLaws.LawOfEs` | Porter.java:166-172 | sses becomes ss and ies becomes i |
| `PorterLaws.LawOfEed` | Porter.java:187-194 | eed becomes ee iff the measure before it is positive |
| `PorterLaws.LawOfEdAndIng` | Porter.java:195-228 | with ed and with ing a stem with a vowel has the same stem |
| `PorterLaws.LawOfLostE` | Porter.java:206-224 | what ends in at, bl or iz, or is short, has with ed the stem that it has with e |
| `PorterLaws.LawOfDouble` | Porter.java:210-219 | a double letter before ed counts as single |
| `PorterLaws.LawOfY` | Porter.java:230-236 | a final y becomes i iff a vowel is before it |
| `PorterLaws.LawOfPrefixes` | Porter.java:352-367 | a prefix makes no difference to the stem of what follows, and a word without one is stemmed as it is |
| `PorterLaws.MeasureMore` | Porter.java:84-118 | a consonant after a vowel adds one to the measure, and nothing else does |
| `PorterLaws.CleanedJoin` | Porter.java:25-37 | cleaning goes letter by letter |
| `PorterLaws.CleanedIs` | Porter.java:25-37 | it keeps the letters and digits, and only these |
| `Porter.StripAffixes` | Porter.java:386-400 | for every non-empty word terminates and returns a stem no longer than the cleaned word |
| `Porter.StemShort` | Porter.java:386-400 | a stem is no longer than its word, and empty only if at most one letter is left after the prefix |

## Left out

- CLOCK flags word: a record with an unbounded count, so counts from 2^30 on are not modelled; weak memory orders are not modelled. A handle is filled in two steps, key with hash and value first, then the charge.
- Deleters, logging and statistics: a freed handle is an entry of a history log; an LRU charge is one number that includes the metadata; a CLOCK total is computed from charge and key length, and the size of a handle is part of the charge.
- 32-bit wrap-around of table lengths and element counts of the LRU hash table, and of reference counts.
- LRU flags byte: one boolean field for each bit.
- ApplyToAllCacheEntries, sharding of both caches and the options they print: delegation.
- Ciphers with blocks of fewer than eight bytes, in which the counter does not fit, and negative pool ratios, which the cache's factory rejects.
- Cipher streams: CreateCipherStream decodes the prefix before it checks its length; the model checks first, since reading past a short prefix has no defined result.
- Encrypted environment: ReopenWritableFile, reuse, renaming and directory listing; failing calls of the underlying file.
- ROT13BlockCipher: the block cipher is an arbitrary function.
- MultiRead.MultiRead: takes positive lengths and full submission for granted, as the source asserts; the fallback read is modelled by its contract, not by its loop.
- Prefetch.FilePrefetchBuffer.Prefetch: requests are as the source asserts (not empty at an aligned offset); readers that return their data in another buffer, for which prefetching is switched off, are not modelled; sizes do not wrap.
- DeleteScheduler.Conservation: adding a file's size to the total is taken to succeed; file names are only changed by the scheduler and its callers, which delete distinct files.
- CleanupDirectory, background errors by name, SetRateBytesPerSecond beyond its effect on the rate.
- GetIntVal: it is not an inverse of `Key`, since it is low by one for each word but the last and keeps the trailer.
- KeyGen.KeysInOrder: values below 2^64.
- SetCurrentFile, SetIdentityFile, GetInfoLogFiles: file system work.
- Porter.StripAffixes: takes the word in lower case and the test for letters and digits as parameters, since Unicode case mapping is not part of this model.
- Crawler, search engine and indexers: network, HTML and storage through libraries; posting lists are edited by substring search.
- Mutexes, condition variables and clocks: a mutex is a field of the state, waiting is a step that becomes possible, time is an action.
