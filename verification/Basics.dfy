/**
 What several components share: options, bytes and reads of a file, sequences without repetition, and some arithmetic.
 */
module Basics {

  datatype Option<T> = None | Some(value: T)

  type Byte = b: nat | b < 256

  /** What a read of up to `n` bytes at an offset gets from a file: all that there is. */
  function Window(file: seq<Byte>, offset: nat, n: nat): seq<Byte> {
    if offset >= |file| then [] else if offset + n <= |file| then file[offset..offset + n] else file[offset..]
  }

  lemma WindowJoins(file: seq<Byte>, offset: nat, a: nat, b: nat)
    requires a > 0 ==> offset + a <= |file|
    ensures Window(file, offset, a) + Window(file, offset + a, b) == Window(file, offset, a + b)
  {}

  function Pow2(k: nat): (r: nat)
    ensures r > 0
  {
    if k == 0 then 1 else 2 * Pow2(k - 1)
  }

  /** A multiple by at least one is at least the number itself. */
  lemma MultipleGrows(n: int, d: int)
    requires n > 0
    ensures d >= 1 ==> n * d >= n
    ensures d <= -1 ==> n * d <= -n
  {
    if d >= 1 { assert n * (d - 1) >= 0; }
    if d <= -1 { assert n * (-1 - d) >= 0; }
  }

  const Two64: nat := 0x1_0000_0000_0000_0000

  function Min(a: int, b: int): int { if a < b then a else b }

  function Max(a: int, b: int): int { if a > b then a else b }

  // ---- sequences without repetition

  ghost predicate Distinct<T>(xs: seq<T>) {
    forall i, j :: 0 <= i < j < |xs| ==> xs[i] != xs[j]
  }

  function Without<T>(xs: seq<T>, p: nat): seq<T>
    requires p < |xs|
  {
    xs[..p] + xs[p + 1..]
  }

  lemma WithoutOk<T>(xs: seq<T>, p: nat)
    requires Distinct(xs) && p < |xs|
    ensures Distinct(Without(xs, p)) && forall h :: h in Without(xs, p) <==> h in xs && h != xs[p]
  {
    var ys := Without(xs, p);
    forall h ensures h in ys <==> h in xs && h != xs[p] {
      if h in xs && h != xs[p] {
        var i :| 0 <= i < |xs| && xs[i] == h;
        assert ys[if i < p then i else i - 1] == h;
      }
    }
  }
}
