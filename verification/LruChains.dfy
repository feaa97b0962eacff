/**
 Handles of the LRU cache, the chains that they form in the buckets of a hash table, and the finite map that the chains
 hold.
 */
module LruChains {
  import opened Basics
  import opened Seals
  import opened LruModel

  // ---- buckets

  /** The bitwise and of two words. */
  function And(a: nat, b: nat): nat {
    if a == 0 || b == 0 then 0 else (if a % 2 == 1 && b % 2 == 1 then 1 else 0) + 2 * And(a / 2, b / 2)
  }

  /** `hash & (length - 1)`; a table of length zero has no buckets. */
  function Bucket(hash: nat, length: nat): nat {
    if length == 0 then 0 else And(hash, length - 1)
  }

  lemma HalfMod(a: nat, n: nat)
    requires n > 0
    ensures a % (2 * n) == a % 2 + 2 * ((a / 2) % n)
  {
    var q := a / 2 / n;
    var r := a % 2 + 2 * ((a / 2) % n);
    assert a / 2 == n * q + (a / 2) % n;
    assert a == 2 * n * q + r;
    ModUnique(a, 2 * n, q, r);
  }

  lemma ModUnique(a: int, n: int, q: int, r: int)
    requires n > 0 && 0 <= r < n && a == n * q + r
    ensures a % n == r
  {
    var d := q - a / n;
    assert n * d == n * q - n * (a / n);
    MultipleGrows(n, d);
  }

  /** Masking with one less than a power of two takes the remainder. */
  lemma {:induction false} BucketIsRemainder(hash: nat, k: nat)
    ensures Bucket(hash, Pow2(k)) == hash % Pow2(k)
  {
    if k > 0 {
      var n := Pow2(k - 1);
      HalfMod(hash, n);
      BucketIsRemainder(hash / 2, k - 1);
      assert Pow2(k) - 1 == 2 * (n - 1) + 1;
      assert (Pow2(k) - 1) % 2 == 1 && (Pow2(k) - 1) / 2 == n - 1;
    }
  }

  // ---- handles

  class LRUHandle {
    const key: string
    const hash: nat
    const value: int
    const charge: nat
    const isHighPri: bool
    var next_hash: LRUHandle?
    var next: LRUHandle?
    var prev: LRUHandle?
    var refs: nat
    var inCache: bool
    var inHighPriPool: bool
    var hasHit: bool

    constructor (key: string, hash: nat, value: int, charge: nat, isHighPri: bool)
      ensures this.key == key && this.hash == hash && this.value == value && this.charge == charge
      ensures this.isHighPri == isHighPri
      ensures next == null && prev == null && refs == 0 && inCache && !inHighPriPool && !hasHit
    {
      this.key, this.hash, this.value, this.charge, this.isHighPri := key, hash, value, charge, isHighPri;
      next_hash, next, prev := null, null, null;
      refs, inCache, inHighPriPool, hasHit := 0, true, false, false;
    }

    function Id(): Key { Key(key, hash) }
  }

  /** The place that points to a handle of a bucket: the bucket itself, or the link of the handle before it. */
  datatype Slot = Head(bucket: nat) | After(handle: LRUHandle)

  /** `chain` is what following `next_hash` from `first` visits. */
  ghost predicate Linked(first: LRUHandle?, chain: seq<LRUHandle>)
    reads chain`next_hash
  {
    && first == (if |chain| > 0 then chain[0] else null)
    && forall j {:trigger chain[j].next_hash} :: 0 <= j < |chain| ==>
        chain[j].next_hash == if j + 1 < |chain| then chain[j + 1] else null
  }

  // ---- the map that the chains hold

  ghost predicate Holds(chain: seq<LRUHandle>, b: nat, length: nat, contents: map<Key, LRUHandle>) {
    && Distinct(chain)
    && forall h :: h in chain ==> Bucket(h.hash, length) == b && h.Id() in contents && contents[h.Id()] == h
  }

  ghost predicate InMap(chain: seq<LRUHandle>, contents: map<Key, LRUHandle>) {
    forall j :: 0 <= j < |chain| ==> chain[j] in contents.Values
  }

  /** Every handle of the map is in the chain of its bucket, under its own key, and the chains hold no other. */
  ghost predicate Arranged(seal: Seal, chains: seq<seq<LRUHandle>>, length: nat, contents: map<Key, LRUHandle>) {
    && |chains| == length
    && (forall b :: 0 <= b < length ==> Holds(chains[b], b, length, contents))
    && (forall id :: id in contents ==>
          && contents[id].Id() == id && Bucket(id.hash, length) < length
          && contents[id] in chains[Bucket(id.hash, length)])
  }

  ghost predicate Placed(chains: seq<seq<LRUHandle>>, length: nat, contents: map<Key, LRUHandle>) {
    |chains| == length && forall seal: Seal :: Arranged(seal, chains, length, contents)
  }

  lemma PlacedPut(chains: seq<seq<LRUHandle>>, length: nat, contents: map<Key, LRUHandle>, b: nat,
                  chain: seq<LRUHandle>, h: LRUHandle)
    requires Placed(chains, length, contents) && b < length && Bucket(h.hash, length) == b && Distinct(chain)
    requires h in chain && forall g :: g != h ==> (g in chain <==> g in chains[b] && g.Id() != h.Id())
    ensures Placed(chains[b := chain], length, contents[h.Id() := h])
  {
    var chains', contents' := chains[b := chain], contents[h.Id() := h];
    assert Arranged(Seal, chains, length, contents);
    forall c | 0 <= c < length ensures Holds(chains'[c], c, length, contents') {
      assert Holds(chains[c], c, length, contents);
    }
  }

  lemma PlacedTake(chains: seq<seq<LRUHandle>>, length: nat, contents: map<Key, LRUHandle>, b: nat,
                   chain: seq<LRUHandle>, h: LRUHandle)
    requires Placed(chains, length, contents) && b < length && h in chains[b] && Distinct(chain)
    requires forall g :: g in chain <==> g in chains[b] && g != h
    ensures Placed(chains[b := chain], length, contents - {h.Id()})
  {
    var chains', contents' := chains[b := chain], contents - {h.Id()};
    assert Arranged(Seal, chains, length, contents);
    assert Holds(chains[b], b, length, contents);
    forall c | 0 <= c < length ensures Holds(chains'[c], c, length, contents') {
      assert Holds(chains[c], c, length, contents);
    }
  }

  /** None of the first `n` handles of the chain carries the key. */
  ghost predicate Missing(chain: seq<LRUHandle>, n: nat, id: Key) {
    n <= |chain| && forall i :: 0 <= i < n ==> chain[i].Id() != id
  }

  lemma FoundThere(chains: seq<seq<LRUHandle>>, length: nat, contents: map<Key, LRUHandle>, b: nat, j: nat, id: Key)
    requires Placed(chains, length, contents) && b == Bucket(id.hash, length) && b < length && j <= |chains[b]|
    requires Missing(chains[b], j, id) && (j < |chains[b]| ==> chains[b][j].Id() == id)
    ensures j < |chains[b]| ==> id in contents && contents[id] == chains[b][j]
    ensures j == |chains[b]| ==> id !in contents
  {
    assert Arranged(Seal, chains, length, contents);
    assert Holds(chains[b], b, length, contents);
    if j < |chains[b]| { assert chains[b][j] in chains[b]; }
  }

  lemma PlacedInMap(chains: seq<seq<LRUHandle>>, length: nat, contents: map<Key, LRUHandle>)
    requires Placed(chains, length, contents)
    ensures forall c :: 0 <= c < length ==> InMap(chains[c], contents)
  {
    assert Arranged(Seal, chains, length, contents);
    forall c | 0 <= c < length ensures InMap(chains[c], contents) {
      assert Holds(chains[c], c, length, contents);
      forall j | 0 <= j < |chains[c]| ensures chains[c][j] in contents.Values {
        assert chains[c][j] in chains[c];
        assert contents[chains[c][j].Id()] == chains[c][j];
      }
    }
  }

  /** A handle that is not in the map is in no chain, and one of a bucket's handles is in no other bucket. */
  lemma PlacedApart(chains: seq<seq<LRUHandle>>, length: nat, contents: map<Key, LRUHandle>, b: nat, h: LRUHandle)
    requires Placed(chains, length, contents) && b < length && h !in contents.Values
    ensures forall c :: 0 <= c < length ==> h !in chains[c]
    ensures forall c, j :: 0 <= c < length && c != b && 0 <= j < |chains[b]| ==> chains[b][j] !in chains[c]
    ensures Distinct(chains[b])
  {
    assert Arranged(Seal, chains, length, contents);
    assert Holds(chains[b], b, length, contents);
    forall c | 0 <= c < length ensures h !in chains[c]
        && (c != b ==> forall j :: 0 <= j < |chains[b]| ==> chains[b][j] !in chains[c]) {
      assert Holds(chains[c], c, length, contents);
    }
  }

  lemma PutChain(chains: seq<seq<LRUHandle>>, length: nat, contents: map<Key, LRUHandle>, b: nat, j: nat, h: LRUHandle,
                 tail: seq<LRUHandle>)
    requires Placed(chains, length, contents) && b < length && b == Bucket(h.hash, length) && j <= |chains[b]|
    requires h !in contents.Values
    requires if j < |chains[b]| then chains[b][j].Id() == h.Id() && tail == [h] + chains[b][j + 1..]
      else h.Id() !in contents && tail == [h]
    ensures Placed(chains[b := chains[b][..j] + tail], length, contents[h.Id() := h])
  {
    var chain := chains[b];
    var ys := chain[..j] + tail;
    assert Arranged(Seal, chains, length, contents);
    assert Holds(chain, b, length, contents);
    assert ys[j] == h;
    forall i | 0 <= i < |ys| && i != j ensures i < |chain| && ys[i] == chain[i] && ys[i].Id() != h.Id() {
      assert chain[i] in chain;
    }
    forall g | g != h && g in chain && g.Id() != h.Id() ensures g in ys {
      var i :| 0 <= i < |chain| && chain[i] == g;
      assert ys[i] == g;
    }
    PlacedPut(chains, length, contents, b, ys, h);
  }

  lemma TakeChain(chains: seq<seq<LRUHandle>>, length: nat, contents: map<Key, LRUHandle>, b: nat, j: nat)
    requires Placed(chains, length, contents) && b < length && j < |chains[b]|
    ensures Placed(chains[b := chains[b][..j] + chains[b][j + 1..]], length, contents - {chains[b][j].Id()})
  {
    var chain := chains[b];
    var ys := chain[..j] + chain[j + 1..];
    assert Arranged(Seal, chains, length, contents);
    assert Holds(chain, b, length, contents);
    forall g | g in chain && g != chain[j] ensures g in ys {
      var i :| 0 <= i < |chain| && chain[i] == g;
      assert ys[if i < j then i else i - 1] == g;
    }
    PlacedTake(chains, length, contents, b, ys, chain[j]);
  }

  // ---- rehashing

  /** `done` is what rehashing has moved: the buckets below `i` and the first `m` handles of bucket `i`. */
  ghost predicate DoneUpTo(chains: seq<seq<LRUHandle>>, length: nat, contents: map<Key, LRUHandle>, i: nat, m: nat,
                           done: map<Key, LRUHandle>) {
    && (forall id :: id in done ==> id in contents && done[id] == contents[id])
    && (forall id :: id in contents ==>
          (id in done <==> Bucket(id.hash, length) < i
                           || (Bucket(id.hash, length) == i < |chains| && m <= |chains[i]|
                               && contents[id] in chains[i][..m])))
  }

  lemma DoneStep(chains: seq<seq<LRUHandle>>, length: nat, contents: map<Key, LRUHandle>, i: nat, m: nat, done: map<Key,
                 LRUHandle>)
    requires Placed(chains, length, contents) && i < length && m < |chains[i]|
    requires DoneUpTo(chains, length, contents, i, m, done)
    ensures var x := chains[i][m];
      && x.Id() !in done && x !in done.Values && x in contents.Values
      && DoneUpTo(chains, length, contents, i, m + 1, done[x.Id() := x])
  {
    var x := chains[i][m];
    assert Arranged(Seal, chains, length, contents);
    assert Holds(chains[i], i, length, contents);
    assert x in chains[i] && contents[x.Id()] == x;
    assert chains[i][..m + 1] == chains[i][..m] + [x];
  }

  lemma DoneNext(chains: seq<seq<LRUHandle>>, length: nat, contents: map<Key, LRUHandle>, i: nat, m: nat, done: map<Key,
                 LRUHandle>)
    requires Placed(chains, length, contents) && i < length && m == |chains[i]|
    requires DoneUpTo(chains, length, contents, i, m, done)
    ensures DoneUpTo(chains, length, contents, i + 1, 0, done)
  {
    assert Arranged(Seal, chains, length, contents);
    assert chains[i][..m] == chains[i];
    assert i + 1 < length ==> chains[i + 1][..0] == [];
  }

  lemma DoneAll(chains: seq<seq<LRUHandle>>, length: nat, contents: map<Key, LRUHandle>, done: map<Key, LRUHandle>)
    requires Placed(chains, length, contents) && DoneUpTo(chains, length, contents, length, 0, done)
    ensures done == contents
  {
    assert Arranged(Seal, chains, length, contents);
  }

  lemma PushPlaced(chains: seq<seq<LRUHandle>>, length: nat, contents: map<Key, LRUHandle>, b: nat, h: LRUHandle)
    requires Placed(chains, length, contents) && b < length && b == Bucket(h.hash, length)
    requires h !in contents.Values && h.Id() !in contents
    ensures Placed(chains[b := [h] + chains[b]], length, contents[h.Id() := h])
    ensures forall c :: 0 <= c < length ==> h !in chains[c]
  {
    assert Arranged(Seal, chains, length, contents);
    PlacedApart(chains, length, contents, b, h);
    var ys := [h] + chains[b];
    assert Holds(chains[b], b, length, contents);
    assert ys[0] == h;
    forall g | g in chains[b] ensures g in ys {
      var i :| 0 <= i < |chains[b]| && chains[b][i] == g;
      assert ys[i + 1] == g;
    }
    PlacedPut(chains, length, contents, b, ys, h);
  }

  lemma NoneDone(chains: seq<seq<LRUHandle>>, length: nat, contents: map<Key, LRUHandle>, blank: seq<seq<LRUHandle>>)
    requires Placed(chains, length, contents) && forall c :: 0 <= c < |blank| ==> blank[c] == []
    ensures DoneUpTo(chains, length, contents, 0, 0, map[]) && Placed(blank, |blank|, map[])
  {
    assert Arranged(Seal, chains, length, contents);
    forall c | 0 <= c < |blank| ensures Holds(blank[c], c, |blank|, map[]) {}
    assert length > 0 ==> chains[0][..0] == [];
  }

  lemma LinkedJoin(first: LRUHandle?, chain: seq<LRUHandle>, j: nat, x: LRUHandle?, tail: seq<LRUHandle>)
    requires j <= |chain| && Linked(x, tail)
    requires first == if j > 0 then chain[0] else x
    requires forall i {:trigger chain[i].next_hash} :: 0 <= i < j - 1 ==> chain[i].next_hash == chain[i + 1]
    requires j > 0 ==> chain[j - 1].next_hash == x
    ensures Linked(first, chain[..j] + tail)
  {
    var ys := chain[..j] + tail;
    forall i | 0 <= i < |ys| ensures ys[i].next_hash == if i + 1 < |ys| then ys[i + 1] else null {
      if i + 1 < j {
        assert ys[i] == chain[i] && ys[i + 1] == chain[i + 1];
      } else if i < j {
        assert ys[i] == chain[i] && chain[i].next_hash == x;
        assert |tail| > 0 ==> ys[i + 1] == tail[0];
      } else {
        assert ys[i] == tail[i - j] && tail[i - j].next_hash == if i - j + 1 < |tail| then tail[i - j + 1] else null;
      }
    }
  }
}
