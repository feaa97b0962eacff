/** The variable-length keys of the stress test: an order-preserving encoding of the non-negative integers. */
module KeyGen {
  import opened Basics
  import opened Encryption

  /** Unsigned lexicographic order on byte strings; a proper prefix comes first. */
  predicate Less(a: seq<Byte>, b: seq<Byte>) {
    if |b| == 0 then false
    else if |a| == 0 then true
    else a[0] < b[0] || (a[0] == b[0] && Less(a[1..], b[1..]))
  }

  lemma {:induction false} LessIrreflexive(a: seq<Byte>)
    ensures !Less(a, a)
  {
    if |a| > 0 { LessIrreflexive(a[1..]); }
  }

  lemma {:induction false} LessAfter(p: seq<Byte>, a: seq<Byte>, b: seq<Byte>)
    requires Less(a, b)
    ensures Less(p + a, p + b)
  {
    if |p| == 0 {
      assert p + a == a && p + b == b;
    } else {
      LessAfter(p[1..], a, b);
      assert (p + a)[1..] == p[1..] + a && (p + b)[1..] == p[1..] + b;
    }
  }

  // ---- fixed-width big-endian numbers

  function BigEndian(v: nat, n: nat): (s: seq<Byte>)
    ensures |s| == n
  {
    if n == 0 then [] else BigEndian(v / 256, n - 1) + [v % 256]
  }

  /** Whatever follows, a smaller number comes first. */
  lemma {:induction false} BigEndianLess(u: nat, v: nat, n: nat, x: seq<Byte>, y: seq<Byte>)
    requires u < v < Pow256(n)
    ensures Less(BigEndian(u, n) + x, BigEndian(v, n) + y)
    decreases n
  {
    if n > 0 {
      var p, q := BigEndian(u / 256, n - 1), BigEndian(v / 256, n - 1);
      assert BigEndian(u, n) + x == p + ([u % 256] + x) && BigEndian(v, n) + y == q + ([v % 256] + y);
      if u / 256 < v / 256 {
        BigEndianLess(u / 256, v / 256, n - 1, [u % 256] + x, [v % 256] + y);
      } else {
        assert Less([u % 256] + x, [v % 256] + y);
        LessAfter(p, [u % 256] + x, [v % 256] + y);
      }
    }
  }

  lemma {:induction false} BigEndianReverses(v: nat, n: nat, i: nat)
    requires i < n
    ensures BigEndian(v, n)[i] == LittleEndian(v, n)[n - 1 - i]
    decreases n
  {
    if i < n - 1 { BigEndianReverses(v / 256, n - 1, i); }
  }

  method GetStringFromInt(val: nat) returns (key: seq<Byte>)
    ensures key == BigEndian(val, 8)
  {
    var little := EncodeFixed64(val);
    key := [];
    for i := 0 to 8
      invariant |key| == i && key == BigEndian(val, 8)[..i]
    {
      BigEndianReverses(val, 8, i);
      key := key + [little[7 - i]];
    }
  }

  // ---- keys

  function Sum(weights: seq<nat>): nat {
    if |weights| == 0 then 0 else weights[0] + Sum(weights[1..])
  }

  /** Positive weights that add up to the window. */
  predicate Proper(window: nat, weights: seq<nat>) {
    |weights| > 0 && window == Sum(weights) && forall i :: 0 <= i < |weights| ==> weights[i] > 0
  }

  lemma ProperTail(window: nat, weights: seq<nat>)
    requires Proper(window, weights)
    ensures window >= weights[0] > 0
    ensures if |weights| == 1 then window == weights[0] else Proper(window - weights[0], weights[1..])
  {
    if |weights| == 1 { assert weights[1..] == []; }
  }

  /** Which key of a window's first length a value falls on: a value with a longer key falls on the last one. */
  function Prefix(val: nat, window: nat, weight: nat): nat
    requires window > 0 && weight > 0
  {
    (val / window) * weight + if val % window >= weight then weight - 1 else val % window
  }

  function Trailer(offset: nat, weight: nat, last: bool): seq<Byte> {
    if offset + 1 < weight && !last then seq(offset % 8, _ => 'x' as int) else []
  }

  /** The key of a value. */
  function KeyOf(val: nat, window: nat, weights: seq<nat>): seq<Byte>
    requires Proper(window, weights)
    decreases |weights|
  {
    ProperTail(window, weights);
    var weight, offset := weights[0], val % window;
    var head := BigEndian(Prefix(val, window, weight), 8);
    if offset < weight then head + Trailer(offset, weight, |weights| == 1)
    else head + KeyOf(offset - weight, window - weight, weights[1..])
  }

  lemma Parts(v: nat, w: nat)
    requires w > 0
    ensures v / w >= 0 && 0 <= v % w < w && v % w <= v
  {
    Product(v / w, w);
  }

  lemma Product(x: nat, y: nat)
    ensures x * y >= 0
  {}

  /** The part of the key that one level contributes, and the value's offset in the window. */
  method Level(val: nat, window: nat, weight: nat) returns (part: seq<Byte>, offset: nat)
    requires window > 0 && weight > 0
    ensures part == BigEndian(Prefix(val, window, weight), 8) && offset == val % window
  {
    Parts(val, window);
    offset := val % window;
    var mult: nat := val / window;
    Product(mult, weight);
    part := GetStringFromInt(mult * weight + if offset >= weight then weight - 1 else offset);
  }

  method Key(val: nat, window: nat, weights: seq<nat>) returns (key: seq<Byte>)
    requires Proper(window, weights)
    ensures key == KeyOf(val, window, weights)
  {
    var v: nat, w: nat, level: nat := val, window, 0;
    key := [];
    while level < |weights|
      invariant level < |weights| && Proper(w, weights[level..])
      invariant key + KeyOf(v, w, weights[level..]) == KeyOf(val, window, weights)
      decreases |weights| - level
    {
      ghost var left := weights[level..];
      ProperTail(w, left);
      var weight := weights[level];
      var part, offset := Level(v, w, weight);
      NextPart(key, part, v, w, left);
      key := key + part;
      if offset < weight {
        key := key + Trailer(offset, weight, level == |weights| - 1);
        break;
      }
      assert left[1..] == weights[level + 1..];
      v, w, level := offset - weight, w - weight, level + 1;
    }
  }

  lemma NextPart(key: seq<Byte>, part: seq<Byte>, v: nat, w: nat, left: seq<nat>)
    requires Proper(w, left) && w >= left[0] > 0 && part == BigEndian(Prefix(v, w, left[0]), 8)
    ensures v % w < left[0] ==> key + KeyOf(v, w, left) == key + part + Trailer(v % w, left[0], |left| == 1)
    ensures v % w >= left[0] ==>
      && Proper(w - left[0], left[1..])
      && key + KeyOf(v, w, left) == key + part + KeyOf(v % w - left[0], w - left[0], left[1..])
  {
    ProperTail(w, left);
    assert key + (part + Rest(v % w, w, left)) == key + part + Rest(v % w, w, left);
    KeySplits(v, w, left);
  }

  // ---- order

  lemma PrefixBelow(val: nat, window: nat, weight: nat)
    requires 0 < weight <= window
    ensures Prefix(val, window, weight) <= val
  {
    assert (val / window) * (window - weight) >= 0;
  }

  /**
   The prefixes do not decrease; where two are the same, the values are in one window and the first is at its last short
   key or beyond.
   */
  lemma PrefixOrder(a: nat, b: nat, window: nat, weight: nat)
    requires 0 < weight <= window && a < b
    ensures Prefix(a, window, weight) <= Prefix(b, window, weight)
    ensures Prefix(a, window, weight) == Prefix(b, window, weight) ==>
      a / window == b / window && a % window + 1 >= weight && a % window < b % window
  {
    var p, q := a / window, b / window;
    QuotientOrder(a, b, window);
    if p < q {
      assert weight * (q - p) == q * weight - p * weight;
      MultipleGrows(weight, q - p);
    } else {
      assert a % window - b % window == a - b;
    }
  }

  lemma QuotientOrder(a: nat, b: nat, window: nat)
    requires window > 0 && a < b
    ensures a / window <= b / window
  {
    var d := a / window - b / window;
    assert window * d == window * (a / window) - window * (b / window);
    MultipleGrows(window, d);
  }

  /** What follows the first eight bytes of the key of a value at this offset of its window. */
  function Rest(offset: nat, window: nat, weights: seq<nat>): seq<Byte>
    requires Proper(window, weights)
  {
    ProperTail(window, weights);
    if offset < weights[0] then Trailer(offset, weights[0], |weights| == 1)
    else if |weights| == 1 then []
    else KeyOf(offset - weights[0], window - weights[0], weights[1..])
  }

  lemma KeySplits(val: nat, window: nat, weights: seq<nat>)
    requires Proper(window, weights)
    ensures window >= weights[0] > 0
    ensures KeyOf(val, window, weights) ==
      BigEndian(Prefix(val, window, weights[0]), 8) + Rest(val % window, window, weights)
  {
    ProperTail(window, weights);
  }

  /** Keys are in the order of their values. */
  lemma {:induction false} KeysInOrder(a: nat, b: nat, window: nat, weights: seq<nat>)
    requires Proper(window, weights) && a < b < Two64
    ensures Less(KeyOf(a, window, weights), KeyOf(b, window, weights))
    decreases |weights|, 1
  {
    Pow256Of8();
    KeySplits(a, window, weights);
    KeySplits(b, window, weights);
    var u, v := Prefix(a, window, weights[0]), Prefix(b, window, weights[0]);
    var i, j := a % window, b % window;
    PrefixOrder(a, b, window, weights[0]);
    PrefixBelow(b, window, weights[0]);
    if u < v {
      BigEndianLess(u, v, 8, Rest(i, window, weights), Rest(j, window, weights));
    } else {
      Parts(b, window);
      RestsInOrder(i, j, window, weights);
      LessAfter(BigEndian(u, 8), Rest(i, window, weights), Rest(j, window, weights));
    }
  }

  /** In one window, past its short keys: the shorter key is a prefix of the longer one, or both go on alike. */
  lemma {:induction false} RestsInOrder(i: nat, j: nat, window: nat, weights: seq<nat>)
    requires Proper(window, weights) && weights[0] <= i + 1 <= j < window && j < Two64
    ensures Less(Rest(i, window, weights), Rest(j, window, weights))
    decreases |weights|, 0
  {
    ProperTail(window, weights);
    if i < weights[0] {
      KeySplits(j - weights[0], window - weights[0], weights[1..]);
    } else {
      KeysInOrder(i - weights[0], j - weights[0], window - weights[0], weights[1..]);
    }
  }

  /** Hence different values have different keys. */
  lemma KeysDiffer(a: nat, b: nat, window: nat, weights: seq<nat>)
    requires Proper(window, weights) && a < Two64 && b < Two64
    ensures a < b <==> Less(KeyOf(a, window, weights), KeyOf(b, window, weights))
    ensures a == b <==> KeyOf(a, window, weights) == KeyOf(b, window, weights)
  {
    LessIrreflexive(KeyOf(a, window, weights));
    if a < b {
      KeysInOrder(a, b, window, weights);
    } else if b < a {
      KeysInOrder(b, a, window, weights);
      if Less(KeyOf(a, window, weights), KeyOf(b, window, weights)) {
        LessAsymmetric(KeyOf(a, window, weights), KeyOf(b, window, weights));
      }
    }
  }

  lemma {:induction false} LessAsymmetric(a: seq<Byte>, b: seq<Byte>)
    requires Less(a, b)
    ensures !Less(b, a)
  {
    if |a| > 0 && a[0] == b[0] { LessAsymmetric(a[1..], b[1..]); }
  }

  // ---- the key, byte by byte

  /** The number that word `i` of a key encodes: how far the value is beyond the shorter keys, but within its part. */
  function Word(val: nat, window: nat, weights: seq<nat>, i: nat): int
    requires window > 0 && i < |weights|
  {
    (if i == 0 then (val / window) * weights[0] else 0) + Min(val % window - Sum(weights[..i]), weights[i] as int - 1)
  }

  /** How many letters x follow the words of a key whose value is `r` beyond the keys of fewer words. */
  function Padding(r: int, weight: nat, last: bool): nat { if 0 <= r && r + 1 < weight && !last then r % 8 else 0 }

  /** The value has a key of `level + 1` words. */
  predicate AtLevel(offset: nat, weights: seq<nat>, level: nat)
    requires level < |weights|
  {
    Sum(weights[..level]) <= offset < Sum(weights[..level + 1])
  }

  ghost predicate Shaped(key: seq<Byte>, val: nat, window: nat, weights: seq<nat>, level: nat)
    requires window > 0 && level < |weights|
  {
    var t := Padding(val % window - Sum(weights[..level]), weights[level], level == |weights| - 1);
    && |key| == 8 * (level + 1) + t
    && (forall j :: 8 * (level + 1) <= j < |key| ==> key[j] == 'x' as int)
    && (forall i :: 0 <= i <= level ==>
          Word(val, window, weights, i) >= 0
          && key[8 * i..8 * i + 8] == BigEndian(Word(val, window, weights, i), 8))
  }

  lemma SumFirst(weights: seq<nat>, k: nat)
    requires 0 < k <= |weights|
    ensures Sum(weights[..k]) == weights[0] + Sum(weights[1..][..k - 1])
  {
    assert weights[..k][1..] == weights[1..][..k - 1];
  }

  lemma SumNone(weights: seq<nat>)
    ensures Sum(weights[..0]) == 0 && (|weights| > 0 ==> Sum(weights[..1]) == weights[0])
  {
    if |weights| > 0 { assert weights[..1][1..] == []; }
  }

  lemma SmallRemainder(v: nat, w: nat)
    requires v < w
    ensures v % w == v && v / w == 0
  {}

  lemma ShapedFirst(val: nat, window: nat, weights: seq<nat>)
    requires Proper(window, weights) && val % window < weights[0]
    ensures Shaped(KeyOf(val, window, weights), val, window, weights, 0)
  {
    SumNone(weights);
    KeySplits(val, window, weights);
    Parts(val, window);
    Product(val / window, weights[0]);
    var key := KeyOf(val, window, weights);
    assert key[..8] == BigEndian(Word(val, window, weights, 0), 8);
  }

  lemma WordNext(val: nat, window: nat, weights: seq<nat>, i: nat)
    requires 0 < i < |weights| && window > weights[0] && weights[0] <= val % window
    ensures Word(val, window, weights, i) ==
      Word(val % window - weights[0], window - weights[0], weights[1..], i - 1)
  {
    Parts(val, window);
    SmallRemainder(val % window - weights[0], window - weights[0]);
    SumFirst(weights, i);
    Product(0, weights[1]);
  }

  lemma ShapedNext(rest: seq<Byte>, val: nat, window: nat, weights: seq<nat>, level: nat)
    requires Proper(window, weights) && window > weights[0] && 0 < level < |weights| && weights[0] <= val % window
    requires Shaped(rest, val % window - weights[0], window - weights[0], weights[1..], level - 1)
    requires Word(val, window, weights, 0) >= 0
    ensures Shaped(BigEndian(Word(val, window, weights, 0), 8) + rest, val, window, weights, level)
  {
    var key := BigEndian(Word(val, window, weights, 0), 8) + rest;
    SmallRemainder(val % window - weights[0], window - weights[0]) by { Parts(val, window); }
    SumFirst(weights, level);
    forall i | 0 <= i <= level
      ensures Word(val, window, weights, i) >= 0
        && key[8 * i..8 * i + 8] == BigEndian(Word(val, window, weights, i), 8)
    {
      if i > 0 {
        WordNext(val, window, weights, i);
        assert key[8 * i..8 * i + 8] == rest[8 * (i - 1)..8 * (i - 1) + 8];
      }
    }
  }

  lemma FirstWord(val: nat, window: nat, weights: seq<nat>)
    requires Proper(window, weights) && weights[0] <= val % window
    ensures Word(val, window, weights, 0) >= 0 && Word(val, window, weights, 0) == Prefix(val, window, weights[0])
  {
    SumNone(weights);
    Parts(val, window);
    Product(val / window, weights[0]);
  }

  /**
   The key of a value whose offset in the window is in the part of weight number `level` has that many words and one
   more, each the distance from the beginning of its part and at most to the part's end, and then as many letters x as
   the padding says.
   */
  lemma {:induction false} KeyShape(val: nat, window: nat, weights: seq<nat>, level: nat)
    requires Proper(window, weights) && level < |weights| && AtLevel(val % window, weights, level)
    ensures Shaped(KeyOf(val, window, weights), val, window, weights, level)
    decreases level
  {
    ProperTail(window, weights);
    SumNone(weights);
    if level == 0 {
      ShapedFirst(val, window, weights);
    } else {
      var offset := val % window;
      Parts(val, window);
      SumFirst(weights, level);
      SumFirst(weights, level + 1);
      SmallRemainder(offset - weights[0], window - weights[0]);
      KeyShape(offset - weights[0], window - weights[0], weights[1..], level - 1);
      KeySplits(val, window, weights);
      FirstWord(val, window, weights);
      ShapedNext(KeyOf(offset - weights[0], window - weights[0], weights[1..]), val, window, weights, level);
    }
  }
}
