/** The chained hash table of the LRU cache: buckets of handles linked through `next_hash`, refining a finite map. */
module LruTable {
  import opened Basics
  import opened Seals
  import opened LruModel
  import opened LruChains

  /** Move a handle to the front of a bucket of another list. */
  method MoveToFront(list: array<LRUHandle?>, ghost chains: seq<seq<LRUHandle>>, b: nat, h: LRUHandle)
    returns (next: LRUHandle?)
    requires |chains| == list.Length && b < list.Length
    requires forall c :: 0 <= c < |chains| ==> Linked(list[c], chains[c]) && h !in chains[c]
    modifies list, h`next_hash
    ensures next == old(h.next_hash)
    ensures forall c :: 0 <= c < |chains| ==> Linked(list[c], chains[b := [h] + chains[b]][c])
  {
    next := h.next_hash;
    assert Linked(list[b], chains[b]);
    h.next_hash := list[b];
    list[b] := h;
  }

  /** Follow the links of a bucket up to the key's handle. */
  method Walk(bucket: nat, first: LRUHandle?, ghost chain: seq<LRUHandle>, key: string, hash: nat)
    returns (slot: Slot, found: LRUHandle?, ghost j: nat)
    requires Linked(first, chain)
    ensures j <= |chain| && slot == (if j == 0 then Head(bucket) else After(chain[j - 1]))
    ensures found == (if j < |chain| then chain[j] else null)
    ensures Missing(chain, j, Key(key, hash)) && (j < |chain| ==> chain[j].Id() == Key(key, hash))
  {
    slot, found, j := Head(bucket), first, 0;
    while found != null && (found.hash != hash || key != found.key)
      invariant j <= |chain| && slot == (if j == 0 then Head(bucket) else After(chain[j - 1]))
      invariant found == if j < |chain| then chain[j] else null
      invariant Missing(chain, j, Key(key, hash))
      decreases |chain| - j
    {
      slot, found, j := After(found), found.next_hash, j + 1;
    }
  }

  // ---- the table

  class LRUHandleTable {
    var list: array<LRUHandle?>
    var length: nat
    var elems: nat
    ghost var chains: seq<seq<LRUHandle>>
    ghost var contents: map<Key, LRUHandle>

    ghost predicate Sound()
      reads this`list, this`length, this`elems, this`chains, this`contents, list, contents.Values`next_hash
    {
      && list.Length == length && Placed(chains, length, contents) && elems == |contents|
      && (forall b :: 0 <= b < length ==> InMap(chains[b], contents) && Linked(list[b], chains[b]))
    }

    ghost predicate PowerOfTwo()
      reads this`length
    {
      length >= 16 && exists k: nat :: length == Pow2(k)
    }

    ghost predicate Valid()
      reads this`list, this`length, this`elems, this`chains, this`contents, list, contents.Values`next_hash
    {
      Sound() && PowerOfTwo() && elems <= length
    }

    /** The `j`-th place of a bucket. */
    ghost function SlotAt(b: nat, j: nat): Slot
      reads this`chains
      requires b < |chains| && j <= |chains[b]|
    {
      if j == 0 then Head(b) else After(chains[b][j - 1])
    }

    ghost predicate Finds(b: nat, j: nat, id: Key)
      reads this`chains, this`contents, this`length
    {
      && b == Bucket(id.hash, length) && b < |chains| && j <= |chains[b]|
      && (j < |chains[b]| ==> chains[b][j].Id() == id && id in contents && contents[id] == chains[b][j])
      && (j == |chains[b]| ==> id !in contents)
    }

    ghost function At(b: nat, j: nat): LRUHandle?
      reads this`chains
      requires b < |chains| && j <= |chains[b]|
    {
      if j < |chains[b]| then chains[b][j] else null
    }

    lemma BucketInRange(hash: nat)
      requires PowerOfTwo()
      ensures Bucket(hash, length) < length
    {
      var k: nat :| length == Pow2(k);
      BucketIsRemainder(hash, k);
    }

    /** The place that points to the key's handle in its bucket, or else the end of the bucket. */
    method FindPointer(key: string, hash: nat) returns (slot: Slot, found: LRUHandle?, ghost b: nat, ghost j: nat)
      requires Sound() && PowerOfTwo()
      ensures Finds(b, j, Key(key, hash)) && slot == SlotAt(b, j) && found == At(b, j)
    {
      BucketInRange(hash);
      var bucket := Bucket(hash, length);
      b := bucket;
      slot, found, j := Walk(bucket, list[bucket], chains[bucket], key, hash);
      FoundThere(chains, length, contents, b, j, Key(key, hash));
    }

    /** The handle that the map sends the key to, if any. */
    method Lookup(key: string, hash: nat) returns (r: LRUHandle?)
      requires Valid()
      ensures r == if Key(key, hash) in contents then contents[Key(key, hash)] else null
    {
      var slot, found, b, j := FindPointer(key, hash);
      r := found;
    }

    /** Write the place, so that the bucket goes on with another stretch of handles. */
    method Store(slot: Slot, x: LRUHandle?, ghost b: nat, ghost j: nat, ghost tail: seq<LRUHandle>)
      requires |chains| == list.Length && b < |chains| && j <= |chains[b]| && slot == SlotAt(b, j)
      requires forall c :: 0 <= c < |chains| ==> Linked(list[c], chains[c])
      requires Linked(x, tail) && Distinct(chains[b])
      requires slot.After? ==>
        slot.handle !in tail && forall c :: 0 <= c < |chains| && c != b ==> slot.handle !in chains[c]
      modifies list, this`chains, (if slot.After? then {slot.handle} else {})`next_hash
      ensures chains == old(chains)[b := old(chains)[b][..j] + tail]
      ensures forall c :: 0 <= c < |chains| ==> Linked(list[c], chains[c])
    {
      ghost var chain, first := chains[b], list[b];
      assert Linked(first, chain);
      if slot.Head? {
        list[slot.bucket] := x;
      } else {
        slot.handle.next_hash := x;
      }
      assert Linked(x, tail);
      LinkedJoin(list[b], chain, j, x, tail);
      chains := chains[b := chain[..j] + tail];
    }

    /** No handle outside the bucket is in the bucket, and the new handle is in none. */
    ghost predicate Apart(b: nat, h: LRUHandle)
      reads this`chains
    {
      && b < |chains| && Distinct(chains[b]) && (forall c :: 0 <= c < |chains| ==> h !in chains[c])
      && forall c, j :: 0 <= c < |chains| && c != b && 0 <= j < |chains[b]| ==> chains[b][j] !in chains[c]
    }

    /** Link the handle in at a place, in place of the handle there if there is one. */
    method LinkAt(slot: Slot, prior: LRUHandle?, h: LRUHandle, ghost b: nat, ghost j: nat, ghost tail: seq<LRUHandle>)
      requires |chains| == list.Length && Apart(b, h) && j <= |chains[b]| && slot == SlotAt(b, j) && prior == At(b, j)
      requires forall c :: 0 <= c < |chains| ==> Linked(list[c], chains[c])
      requires tail == [h] + if j < |chains[b]| then chains[b][j + 1..] else []
      modifies list, this`chains, (if slot.After? then {h, slot.handle} else {h})`next_hash
      ensures chains == old(chains)[b := old(chains)[b][..j] + tail]
      ensures forall c :: 0 <= c < |chains| ==> Linked(list[c], chains[c])
    {
      assert Linked(list[b], chains[b]);
      h.next_hash := if prior == null then null else prior.next_hash;
      Store(slot, h, b, j, tail);
    }

    lemma IsApart(b: nat, h: LRUHandle)
      requires Placed(chains, length, contents) && b < length && h !in contents.Values
      ensures Apart(b, h)
    {
      PlacedApart(chains, length, contents, b, h);
    }

    lemma SoundAgain()
      requires list.Length == length && Placed(chains, length, contents) && elems == |contents|
      requires forall c :: 0 <= c < |chains| ==> Linked(list[c], chains[c])
      ensures Sound()
    {
      PlacedInMap(chains, length, contents);
    }

    /** Put the handle in the map, in place of the one with the same key if there is one. */
    method Put(h: LRUHandle) returns (prior: LRUHandle?)
      requires Sound() && PowerOfTwo() && h !in contents.Values
      modifies this`chains, this`contents, this`elems, list, contents.Values`next_hash, h`next_hash
      ensures Sound()
      ensures contents == old(contents)[h.Id() := h]
      ensures prior == if h.Id() in old(contents) then old(contents)[h.Id()] else null
    {
      var slot, found, b, j := FindPointer(h.key, h.hash);
      prior := found;
      ghost var tail := [h] + if j < |chains[b]| then chains[b][j + 1..] else [];
      IsApart(b, h);
      PutChain(chains, length, contents, b, j, h, tail);
      assert slot.After? ==> slot.handle in contents.Values;
      LinkAt(slot, prior, h, b, j, tail);
      contents := contents[h.Id() := h];
      if prior == null {
        elems := elems + 1;
      }
      SoundAgain();
    }

    /** Take the handle that carries the key out of the map. */
    method Remove(key: string, hash: nat) returns (r: LRUHandle?)
      requires Valid()
      modifies this`chains, this`contents, this`elems, list, contents.Values`next_hash
      ensures Valid() && contents == old(contents) - {Key(key, hash)}
      ensures r == if Key(key, hash) in old(contents) then old(contents)[Key(key, hash)] else null
    {
      var slot, found, b, j := FindPointer(key, hash);
      r := found;
      if r != null {
        ghost var chain := chains[b];
        assert Linked(list[b], chain);
        TakeChain(chains, length, contents, b, j);
        ChainApart(b);
        assert slot.After? ==> slot.handle in contents.Values;
        ghost var tail := chain[j + 1..];
        assert Linked(r.next_hash, tail);
        Store(slot, r.next_hash, b, j, tail);
        contents := contents - {Key(key, hash)};
        elems := elems - 1;
        SoundAgain();
      }
    }

    lemma ChainApart(b: nat)
      requires Placed(chains, length, contents) && b < length
      ensures Distinct(chains[b])
      ensures forall c, j :: 0 <= c < length && c != b && 0 <= j < |chains[b]| ==> chains[b][j] !in chains[c]
    {
      assert Arranged(Seal, chains, length, contents);
      assert Holds(chains[b], b, length, contents);
      forall c | 0 <= c < length && c != b ensures forall j :: 0 <= j < |chains[b]| ==> chains[b][j] !in chains[c] {
        assert Holds(chains[c], c, length, contents);
      }
    }

    /**
     What rehashing keeps: `rest` is left of bucket `i`, the buckets above it are as they were, `moved` is the new list.
     */
    ghost predicate Rehashing(i: nat, h: LRUHandle?, rest: seq<LRUHandle>, newList: array<LRUHandle?>,
                              moved: seq<seq<LRUHandle>>)
      reads this`list, this`chains, list, newList, rest`next_hash
      reads set c, j | 0 <= c < |chains| && 0 <= j < |chains[c]| :: chains[c][j]`next_hash
      reads set c, j | 0 <= c < |moved| && 0 <= j < |moved[c]| :: moved[c][j]`next_hash
    {
      && |chains| == list.Length && |moved| == newList.Length && Linked(h, rest)
      && (forall c :: i < c < |chains| ==> Linked(list[c], chains[c]))
      && (forall c :: 0 <= c < |moved| ==> Linked(newList[c], moved[c]))
    }

    method RehashOne(i: nat, h: LRUHandle, newList: array<LRUHandle?>, b: nat, ghost rest: seq<LRUHandle>,
                     ghost moved: seq<seq<LRUHandle>>)
      returns (next: LRUHandle?)
      requires Rehashing(i, h, rest, newList, moved) && |rest| > 0 && list != newList && b < newList.Length
      requires h == rest[0]
      requires h !in rest[1..] && (forall c :: 0 <= c < |moved| ==> h !in moved[c])
      requires (forall c :: i < c < |chains| ==> h !in chains[c])
      modifies newList, h`next_hash
      ensures Rehashing(i, next, rest[1..], newList, moved[b := [h] + moved[b]])
    {
      assert rest[0].next_hash == if 1 < |rest| then rest[1] else null;
      next := MoveToFront(newList, moved, b, h);
      ghost var tail := rest[1..];
      forall j | 0 <= j < |tail| ensures tail[j].next_hash == if j + 1 < |tail| then tail[j + 1] else null {
        assert rest[j + 1] == tail[j] && rest[j + 1].next_hash == if j + 2 < |rest| then rest[j + 2] else null;
      }
    }

    /** How far rehashing has got: `moved` holds `done`, which is what lies before handle `m` of bucket `i`. */
    ghost predicate GotTo(i: nat, m: nat, newLength: nat, moved: seq<seq<LRUHandle>>, done: map<Key, LRUHandle>)
      reads this`length, this`chains, this`contents
    {
      |moved| == newLength &&
      forall seal: Seal :: Arranged(seal, moved, newLength, done) && DoneUpTo(chains, length, contents, i, m, done)
    }

    lemma GetTo(i: nat, m: nat, newLength: nat, moved: seq<seq<LRUHandle>>, done: map<Key, LRUHandle>)
      requires Placed(moved, newLength, done) && DoneUpTo(chains, length, contents, i, m, done)
      ensures GotTo(i, m, newLength, moved, done)
    {
      forall seal: Seal ensures Arranged(seal, moved, newLength, done) {}
    }

    lemma GotToParts(i: nat, m: nat, newLength: nat, moved: seq<seq<LRUHandle>>, done: map<Key, LRUHandle>)
      requires GotTo(i, m, newLength, moved, done)
      ensures Placed(moved, newLength, done) && DoneUpTo(chains, length, contents, i, m, done)
    {
      assert Arranged(Seal, moved, newLength, done);
      forall seal: Seal ensures Arranged(seal, moved, newLength, done) {}
    }

    /** The next handle of the bucket is in no other place, and rehashing gets past it by pushing it. */
    lemma GetsPast(i: nat, m: nat, rest: seq<LRUHandle>, newLength: nat, k: nat, moved: seq<seq<LRUHandle>>,
                   done: map<Key, LRUHandle>)
      requires Placed(chains, length, contents) && i < length && m < |chains[i]| && rest == chains[i][m..]
      requires newLength == Pow2(k) && GotTo(i, m, newLength, moved, done)
      ensures rest[0] !in rest[1..] && (forall c :: i < c < |chains| ==> rest[0] !in chains[c])
      ensures rest[1..] == chains[i][m + 1..]
      ensures forall c :: 0 <= c < newLength ==> rest[0] !in moved[c]
      ensures rest[0].Id() !in done && rest[0] in contents.Values
      ensures var b := Bucket(rest[0].hash, newLength);
        b < newLength && GotTo(i, m + 1, newLength, moved[b := [rest[0]] + moved[b]], done[rest[0].Id() := rest[0]])
    {
      var h := rest[0];
      GotToParts(i, m, newLength, moved, done);
      DoneStep(chains, length, contents, i, m, done);
      ChainApart(i);
      BucketIsRemainder(h.hash, k);
      var b := Bucket(h.hash, newLength);
      PushPlaced(moved, newLength, done, b, h);
      GetTo(i, m + 1, newLength, moved[b := [h] + moved[b]], done[h.Id() := h]);
    }

    /** Move the handles of one bucket to their buckets in the new list. */
    method RehashBucket(i: nat, newList: array<LRUHandle?>, ghost k: nat, ghost moved: seq<seq<LRUHandle>>,
                        ghost done: map<Key, LRUHandle>)
      returns (count: nat, ghost moved': seq<seq<LRUHandle>>, ghost done': map<Key, LRUHandle>)
      requires Placed(chains, length, contents) && i < length && list.Length == length
      requires Rehashing(i, list[i], chains[i], newList, moved) && list != newList
      requires newList.Length == Pow2(k) && GotTo(i, 0, newList.Length, moved, done)
      modifies newList, contents.Values`next_hash
      ensures GotTo(i + 1, 0, newList.Length, moved', done')
      ensures forall c :: i < c < length ==> Linked(list[c], chains[c])
      ensures forall c :: 0 <= c < newList.Length ==> Linked(newList[c], moved'[c])
      ensures |done'| == |done| + count
    {
      moved', done', count := moved, done, 0;
      var h := list[i];
      ghost var m, rest := 0, chains[i];
      while h != null
        invariant m <= |chains[i]| && rest == chains[i][m..] && Rehashing(i, h, rest, newList, moved')
        invariant GotTo(i, m, newList.Length, moved', done') && |done'| == |done| + count
        decreases |chains[i]| - m
      {
        var x: LRUHandle := h;
        GetsPast(i, m, rest, newList.Length, k, moved', done');
        var b := Bucket(x.hash, newList.Length);
        h := RehashOne(i, x, newList, b, rest, moved');
        moved', done', rest := moved'[b := [x] + moved'[b]], done'[x.Id() := x], rest[1..];
        m, count := m + 1, count + 1;
      }
      GotToParts(i, m, newList.Length, moved', done');
      DoneNext(chains, length, contents, i, m, done');
      GetTo(i + 1, 0, newList.Length, moved', done');
    }

    method NewLength() returns (newLength: nat, ghost k: nat)
      ensures newLength == Pow2(k) && newLength >= 16 && 2 * newLength >= 3 * elems
      ensures newLength == 16 || newLength < 3 * elems
    {
      newLength, k := 16, 4;
      assert Pow2(4) == 2 * (2 * (2 * (2 * Pow2(0))));
      while 2 * newLength < 3 * elems
        invariant newLength == Pow2(k) && newLength >= 16 && (newLength == 16 || newLength < 3 * elems)
        decreases 3 * elems - 2 * newLength
      {
        newLength, k := newLength * 2, k + 1;
      }
    }

    /** Rehash into the smallest power of two that is at least half as large again as the number of handles. */
    method Resize()
      requires Sound()
      modifies this`list, this`length, this`chains, contents.Values`next_hash
      ensures Sound() && PowerOfTwo() && 2 * length >= 3 * elems && (length == 16 || length < 3 * elems) && fresh(list)
    {
      var newLength, k := NewLength();
      var newList := new LRUHandle?[newLength](_ => null);
      ghost var moved: seq<seq<LRUHandle>> := seq(newLength, _ => []);
      ghost var done: map<Key, LRUHandle> := map[];
      NoneDone(chains, length, contents, moved);
      GetTo(0, 0, newLength, moved, done);
      var count := 0;
      for i := 0 to length
        invariant GotTo(i, 0, newLength, moved, done) && |done| == count
        invariant forall c :: i <= c < length ==> Linked(list[c], chains[c])
        invariant forall c :: 0 <= c < newLength ==> Linked(newList[c], moved[c])
        modifies newList, contents.Values`next_hash
      {
        var n;
        n, moved, done := RehashBucket(i, newList, k, moved, done);
        count := count + n;
      }
      GotToParts(length, 0, newLength, moved, done);
      DoneAll(chains, length, contents, done);
      assert elems == count;
      list, length, chains := newList, newLength, moved;
      SoundAgain();
    }

    constructor ()
      ensures Valid() && contents == map[] && fresh(list)
    {
      list, length, elems := new LRUHandle?[0], 0, 0;
      chains, contents := [], map[];
      new;
      assert Placed([], 0, map[]);
      Resize();
    }

    /** Put the handle in the map, in place of the one with the same key if there is one; the table grows as needed. */
    method Insert(h: LRUHandle) returns (prior: LRUHandle?)
      requires Valid() && h !in contents.Values
      modifies this, list, contents.Values`next_hash, h`next_hash
      ensures Valid() && (list == old(list) || fresh(list))
      ensures contents == old(contents)[h.Id() := h]
      ensures prior == if h.Id() in old(contents) then old(contents)[h.Id()] else null
    {
      prior := Put(h);
      if prior == null && elems > length {
        Resize();
      }
    }
  }
}
