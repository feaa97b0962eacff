/**
 The prefetch buffer over a file: an aligned stretch of the file that is kept in memory and extended by tail reuse.
 */
module Prefetch {
  import opened Basics
  import opened Seals
  // ---- alignment

  ghost predicate IsMultiple(seal: Seal, x: nat, y: nat) { exists k: nat :: x == k * y }

  /** `x` is a whole number of alignment units. */
  ghost predicate Aligned(x: nat, y: nat) { forall seal: Seal :: IsMultiple(seal, x, y) }

  lemma AlignedIs(k: nat, y: nat)
    ensures Aligned(k * y, y)
  {
    forall seal: Seal ensures IsMultiple(seal, k * y, y) {}
  }

  lemma AlignedUnit(y: nat)
    ensures Aligned(0, y) && Aligned(y, y)
  {
    AlignedIs(0, y);
    AlignedIs(1, y);
  }

  lemma SumOfMultiples(i: nat, j: nat, y: nat)
    ensures i * y + j * y == (i + j) * y && i * y - j * y == (i - j) * y
  {}

  lemma NotPositive(d: int, y: nat)
    requires d <= 0
    ensures d * y <= 0
  {}

  lemma AlignedSum(a: nat, b: nat, y: nat)
    requires Aligned(a, y) && Aligned(b, y)
    ensures Aligned(a + b, y)
  {
    assert IsMultiple(Seal, a, y) && IsMultiple(Seal, b, y);
    var i: nat, j: nat :| a == i * y && b == j * y;
    SumOfMultiples(i, j, y);
    AlignedIs(i + j, y);
  }

  lemma AlignedDifference(a: nat, b: nat, y: nat)
    requires Aligned(a, y) && Aligned(b, y) && a >= b
    ensures Aligned(a - b, y)
  {
    assert IsMultiple(Seal, a, y) && IsMultiple(Seal, b, y);
    var i: nat, j: nat :| a == i * y && b == j * y;
    SumOfMultiples(i, j, y);
    if i >= j {
      AlignedIs(i - j, y);
    } else {
      NotPositive(i - j, y);
      AlignedIs(0, y);
    }
  }

  /** Different aligned numbers are a unit apart. */
  lemma AlignedGap(a: nat, b: nat, y: nat)
    requires Aligned(a, y) && Aligned(b, y) && a < b
    ensures a + y <= b
  {
    assert IsMultiple(Seal, a, y) && IsMultiple(Seal, b, y);
    var i: nat, j: nat :| a == i * y && b == j * y;
    Apart(i, j, y);
  }

  lemma Apart(i: nat, j: nat, y: nat)
    requires i * y < j * y
    ensures i * y + y <= j * y
  {
    var d := j - i;
    assert y * d == j * y - i * y;
    MultipleGrows(y, d);
  }

  lemma FloorExists(x: nat, y: nat)
    requires y > 0
    ensures (x / y) * y <= x < (x / y) * y + y && Aligned((x / y) * y, y)
  {
    AlignedIs(x / y, y);
  }

  /** The last aligned number up to `x`. */
  ghost function Floor(x: nat, y: nat): (r: nat)
    requires y > 0
    ensures r <= x < r + y && Aligned(r, y)
  {
    FloorExists(x, y);
    var r: nat :| r <= x < r + y && Aligned(r, y);
    r
  }

  /** The first aligned number from `x` on. */
  ghost function Ceiling(x: nat, y: nat): (r: nat)
    requires y > 0
    ensures x <= r < x + y && Aligned(r, y)
  {
    Floor(x + y - 1, y)
  }

  /** An aligned number just below `x` is the only one there. */
  lemma FloorUnique(x: nat, y: nat, z: nat)
    requires y > 0 && Aligned(z, y) && z <= x < z + y
    ensures Floor(x, y) == z
  {
    var r := Floor(x, y);
    if r < z { AlignedGap(r, z, y); } else if z < r { AlignedGap(z, r, y); }
  }

  lemma FloorSmall(x: nat, y: nat)
    requires x < y
    ensures Floor(x, y) == 0
  {
    AlignedUnit(y);
    FloorUnique(x, y, 0);
  }

  /** Rounding down relative to an aligned base is rounding down. */
  lemma FloorShift(x: nat, base: nat, y: nat)
    requires y > 0 && Aligned(base, y) && base <= x
    ensures base + Floor(x - base, y) == Floor(x, y)
  {
    AlignedSum(base, Floor(x - base, y), y);
    FloorUnique(x, y, base + Floor(x - base, y));
  }

  method Rounddown(x: nat, y: nat) returns (r: nat)
    requires y > 0
    ensures r == Floor(x, y)
  {
    r := (x / y) * y;
    FloorExists(x, y);
    FloorUnique(x, y, r);
  }

  method Roundup(x: nat, y: nat) returns (r: nat)
    requires y > 0
    ensures r == Ceiling(x, y)
  {
    r := ((x + y - 1) / y) * y;
    FloorExists(x + y - 1, y);
    FloorUnique(x + y - 1, y, r);
  }

  // ---- the file

  lemma WindowTail(file: seq<Byte>, offset: nat, n: nat, k: nat)
    requires k <= n && (n > 0 ==> offset + n <= |file|)
    ensures |Window(file, offset, n)| == n && Window(file, offset, n)[k..] == Window(file, offset + k, n - k)
  {}

  lemma WindowPart(file: seq<Byte>, offset: nat, len: nat, k: nat, n: nat)
    requires k + n <= len && (len > 0 ==> offset + len <= |file|)
    ensures |Window(file, offset, len)| == len && Window(file, offset, len)[k..k + n] == Window(file, offset + k, n)
  {}

  // ---- buffers

  function CopyLength(cursize: nat, copyLen: nat): nat { if copyLen > 0 then copyLen else cursize }

  /** Copy bytes to the front of a buffer. */
  method CopyIn(buf: array<Byte>, bytes: seq<Byte>)
    requires |bytes| <= buf.Length
    modifies buf
    ensures buf[..|bytes|] == bytes
  {
    for i := 0 to |bytes|
      invariant forall j :: 0 <= j < i ==> buf[j] == bytes[j]
    {
      buf[i] := bytes[i];
    }
  }

  /** Some bytes of a sequence replaced, as far as it goes. */
  function Overwritten(view: seq<Byte>, at: nat, bytes: seq<Byte>): (r: seq<Byte>) {
    seq(|view|, i requires 0 <= i < |view| => if at <= i < at + |bytes| then bytes[i - at] else view[i])
  }

  class AlignedBuffer {
    var data: array<Byte>
    var cursize: nat

    ghost predicate Valid()
      reads this
    {
      cursize <= data.Length
    }

    ghost function View(): (r: seq<Byte>)
      requires Valid()
      reads this, data
    {
      data[..cursize]
    }

    constructor ()
      ensures Valid() && cursize == 0 && data.Length == 0 && fresh(data)
    {
      data, cursize := new Byte[0], 0;
    }

    /**
     A new buffer of the requested capacity rounded up, with a stretch of the old one's contents if asked for: of
     `copyLen` bytes, or as many as there are if that is zero. A request for a copy that does not fit is ignored.
     */
    method AllocateNewBuffer(alignment: nat, requested: nat, copyData: bool, copyOffset: nat, copyLen: nat)
      requires Valid() && alignment > 0
      requires copyData && CopyLength(cursize, copyLen) <= requested ==>
        copyOffset + CopyLength(cursize, copyLen) <= cursize
      modifies this
      ensures Valid()
      ensures copyData && CopyLength(old(cursize), copyLen) > requested ==> data == old(data) && cursize == old(cursize)
      ensures !(copyData && CopyLength(old(cursize), copyLen) > requested) ==>
        && fresh(data) && data.Length == Ceiling(requested, alignment) >= requested
        && View() == if copyData then old(View())[copyOffset..copyOffset + CopyLength(old(cursize), copyLen)] else []
    {
      var len := CopyLength(cursize, copyLen);
      if copyData && requested < len {
        return;
      }
      var newCapacity := Roundup(requested, alignment);
      var newBuf := new Byte[newCapacity];
      var kept: seq<Byte> := if copyData then data[..cursize][copyOffset..copyOffset + len] else [];
      CopyIn(newBuf, kept);
      data, cursize := newBuf, |kept|;
    }

    /** Move the tail of the contents to the beginning. */
    method RefitTail(tailOffset: nat, tailSize: nat)
      requires Valid() && tailOffset + tailSize <= cursize
      modifies this`cursize, data
      ensures Valid() && View() == old(View())[tailOffset..tailOffset + tailSize]
    {
      ghost var was := data[..cursize];
      for i := 0 to tailSize
        invariant forall j :: 0 <= j < i ==> data[j] == was[tailOffset + j]
        invariant forall j :: i <= j < |was| ==> data[j] == was[j]
      {
        data[i] := data[tailOffset + i];
      }
      cursize := tailSize;
      assert data[..tailSize] == was[tailOffset..tailOffset + tailSize];
    }

    /** What a read of a file puts into the buffer behind the first `at` bytes, and the new size. */
    method Fill(at: nat, bytes: seq<Byte>)
      requires Valid() && at <= cursize && at + |bytes| <= data.Length
      modifies this`cursize, data
      ensures Valid() && View() == old(View())[..at] + bytes
    {
      ghost var was := data[..at];
      for i := 0 to |bytes|
        invariant forall j :: 0 <= j < at ==> data[j] == was[j]
        invariant forall j :: at <= j < at + i ==> data[j] == bytes[j - at]
      {
        data[at + i] := bytes[i];
      }
      cursize := at + |bytes|;
      assert data[..cursize] == was + bytes;
      assert was == old(data[..cursize])[..at];
    }

    /** What a read that fails in the end has written behind the first `at` bytes. The size stays. */
    method Scribble(at: nat, bytes: seq<Byte>)
      requires Valid() && at + |bytes| <= data.Length
      modifies data
      ensures Valid() && View() == Overwritten(old(View()), at, bytes)
    {
      ghost var was := data[..cursize];
      for i := 0 to |bytes|
        invariant forall j :: 0 <= j < cursize ==>
          data[j] == if at <= j < at + i then bytes[j - at] else was[j]
      {
        data[at + i] := bytes[i];
      }
      assert data[..cursize] == Overwritten(was, at, bytes);
    }
  }

  // ---- the prefetch buffer

  const MaxSize: nat := 0xFFFF_FFFF_FFFF_FFFF

  ghost predicate Keeps(seal: Seal, file: seq<Byte>, alignment: nat, base: nat, view: seq<Byte>) {
    && alignment > 0 && Aligned(base, alignment)
    && view == Window(file, base, |view|) && (|view| > 0 ==> base + |view| <= |file|)
    && (Aligned(|view|, alignment) || base + |view| == |file|)
  }

  /** The stretch of the file from `base` on is what the buffer holds; it ends at an aligned place or with the file. */
  ghost predicate Holds(file: seq<Byte>, alignment: nat, base: nat, view: seq<Byte>) {
    forall seal: Seal :: Keeps(seal, file, alignment, base, view)
  }

  /** Every byte of the request that the file has is in the buffer. */
  ghost predicate Covers(file: seq<Byte>, base: nat, view: seq<Byte>, offset: nat, n: nat) {
    base <= offset && (offset + n <= base + |view| || base + |view| >= |file|)
  }

  /** The request is in the buffer already. */
  predicate Within(base: nat, size: nat, offset: nat, n: nat) {
    size > 0 && base <= offset && offset + n <= base + size
  }

  /** What the underlying read does: it succeeds, or it fails after having written some bytes, right or wrong. */
  datatype Outcome = Success | Failure(written: seq<Byte>)

  /** How many of the buffer's last bytes a request can use. */
  ghost function Tail(base: nat, size: nat, offset: nat, alignment: nat): (k: nat)
    requires alignment > 0
    ensures k <= size
  {
    if size > 0 && base <= offset <= base + size then
      size - Floor(offset - base, alignment)
    else 0
  }

  /** How long the stretch is that a request loads. */
  ghost function Length(offset: nat, n: nat, alignment: nat): (len: nat)
    requires alignment > 0
  {
    Ceiling(offset + n, alignment) - Floor(offset, alignment)
  }

  /** The last `k` bytes of the contents, and behind them what a read gets, up to `len` bytes from `from` on. */
  function Joined(file: seq<Byte>, view: seq<Byte>, k: nat, from: nat, len: nat): seq<Byte>
    requires k <= |view|
  {
    view[|view| - k..] + Window(file, from + k, Max(0, len - k))
  }

  /** What a successful read makes of the contents: the bytes that are reused, and behind them those that are read. */
  ghost function Extended(file: seq<Byte>, base: nat, view: seq<Byte>, offset: nat, n: nat, alignment: nat): seq<Byte>
    requires alignment > 0
  {
    Joined(file, view, Tail(base, |view|, offset, alignment), Floor(offset, alignment), Length(offset, n, alignment))
  }

  /** The contents are the file's bytes from the buffer's offset on. */
  ghost predicate Exact(file: seq<Byte>, base: nat, view: seq<Byte>) { view == Window(file, base, |view|) }

  /** The whole of an aligned stretch, as far as the file goes. */
  lemma HoldsWindow(file: seq<Byte>, alignment: nat, base: nat, len: nat)
    requires alignment > 0 && Aligned(base, alignment) && Aligned(len, alignment)
    ensures Holds(file, alignment, base, Window(file, base, len))
  {
    var view := Window(file, base, len);
    AlignedUnit(alignment);
    assert |view| == len || |view| == 0 || base + |view| == |file|;
    assert view == Window(file, base, |view|);
    assert Keeps(Seal, file, alignment, base, view);
  }

  /** How the request lies to an aligned stretch of the file: where the stretch begins, how long it is. */
  lemma Stretch(offset: nat, n: nat, alignment: nat)
    requires alignment > 0 && (n > 0 || Floor(offset, alignment) < offset)
    ensures var base, end := Floor(offset, alignment), Ceiling(offset + n, alignment);
      base <= offset <= offset + n <= end && base + alignment <= end && Aligned(base, alignment)
          && Aligned(end - base, alignment)
  {
    var base, end := Floor(offset, alignment), Ceiling(offset + n, alignment);
    AlignedDifference(end, base, alignment);
    AlignedGap(base, end, alignment);
  }

  /** The part of the old contents that is reused is where the new contents begin, and does not reach their end. */
  lemma TailFits(base: nat, size: nat, offset: nat, n: nat, alignment: nat)
    requires alignment > 0 && Aligned(base, alignment) && Tail(base, size, offset, alignment) > 0
    requires offset + n > base + size
    ensures var k := Tail(base, size, offset, alignment);
      && size - k == Floor(offset - base, alignment) && base + (size - k) == Floor(offset, alignment)
      && Floor(offset, alignment) + k < Ceiling(offset + n, alignment)
  {
    FloorShift(offset, base, alignment);
    Stretch(offset, n, alignment);
  }

  /** The reused part is the file's bytes from the rounded-down offset on. */
  lemma ChunkFits(file: seq<Byte>, alignment: nat, base: nat, view: seq<Byte>, k: nat)
    requires Holds(file, alignment, base, view) && k <= |view|
    ensures view[|view| - k..] == Window(file, base + (|view| - k), k) && (k > 0 ==> base + |view| <= |file|)
  {
    assert Keeps(Seal, file, alignment, base, view);
    WindowTail(file, base, |view|, |view| - k);
  }

  lemma JoinedIs(file: seq<Byte>, view: seq<Byte>, k: nat, from: nat, len: nat)
    requires k <= |view| && k <= len && (k > 0 ==> from + k <= |file|) && view[|view| - k..] == Window(file, from, k)
    ensures Joined(file, view, k, from, len) == Window(file, from, len)
  {
    WindowJoins(file, from, k, len - k);
  }

  lemma TailIs(file: seq<Byte>, alignment: nat, base: nat, view: seq<Byte>, offset: nat, n: nat)
    requires alignment > 0 && Holds(file, alignment, base, view) && Aligned(base, alignment)
    requires !Within(base, |view|, offset, n)
    ensures var k, from := Tail(base, |view|, offset, alignment), Floor(offset, alignment);
      && k <= Length(offset, n, alignment) && (k > 0 ==> from + k <= |file|)
      && view[|view| - k..] == Window(file, from, k)
  {
    var k := Tail(base, |view|, offset, alignment);
    TailShort(base, |view|, offset, n, alignment);
    if k > 0 {
      TailFits(base, |view|, offset, n, alignment);
      ChunkFits(file, alignment, base, view, k);
    }
  }

  lemma ExtendedIs(file: seq<Byte>, alignment: nat, base: nat, view: seq<Byte>, offset: nat, n: nat)
    requires alignment > 0 && Holds(file, alignment, base, view) && Aligned(base, alignment)
    requires !Within(base, |view|, offset, n)
    ensures Extended(file, base, view, offset, n, alignment) ==
      Window(file, Floor(offset, alignment), Length(offset, n, alignment))
  {
    TailIs(file, alignment, base, view, offset, n);
    JoinedIs(file, view, Tail(base, |view|, offset, alignment), Floor(offset, alignment), Length(offset, n, alignment));
  }

  lemma StretchCovers(file: seq<Byte>, alignment: nat, offset: nat, n: nat)
    requires alignment > 0 && (n > 0 || Floor(offset, alignment) < offset)
    ensures var from, end := Floor(offset, alignment), Ceiling(offset + n, alignment);
      && from <= end && Holds(file, alignment, from, Window(file, from, end - from))
      && Covers(file, from, Window(file, from, end - from), offset, n)
  {
    Stretch(offset, n, alignment);
    var from, end := Floor(offset, alignment), Ceiling(offset + n, alignment);
    HoldsWindow(file, alignment, from, end - from);
  }

  /** A successful read leaves the file's bytes of a stretch that covers the request. */
  lemma ReadIsRight(file: seq<Byte>, alignment: nat, base: nat, view: seq<Byte>, offset: nat, n: nat)
    requires alignment > 0 && Holds(file, alignment, base, view) && Aligned(base, alignment)
    requires !Within(base, |view|, offset, n) && (n > 0 || Floor(offset, alignment) < offset)
    ensures var from, view' := Floor(offset, alignment), Extended(file, base, view, offset, n, alignment);
      Holds(file, alignment, from, view') && Covers(file, from, view', offset, n)
  {
    ExtendedIs(file, alignment, base, view, offset, n);
    StretchCovers(file, alignment, offset, n);
  }

  /** The capacity of a buffer once there is room for a stretch. */
  ghost function Grown(capacity: nat, len: nat, alignment: nat): nat
    requires alignment > 0
  {
    if capacity < len then Ceiling(len, alignment) else capacity
  }

  /** Of what a failing read writes, the bytes for which there is room. */
  function Scribbled(junk: seq<Byte>, room: nat): (r: seq<Byte>)
    ensures |r| <= room
  {
    if |junk| <= room then junk else junk[..room]
  }

  /**
   What a failed read leaves of the contents, if `k` of them are reused and `len` bytes are to be loaded: the tail that
   was moved to the front, nothing in a new buffer, or the contents with what was read written over them.
   */
  function LeftBehind(view: seq<Byte>, k: nat, capacity: nat, len: nat, junk: seq<Byte>): seq<Byte>
    requires k <= |view| && k <= len
  {
    if k > 0 then view[|view| - k..]
    else if capacity < len then []
    else Overwritten(view, 0, Scribbled(junk, len))
  }

  /**
   Whether a failing read does no harm: the buffer is empty, all of its contents were to be reused, or none of them and
   a new buffer was needed.
   */
  ghost predicate SafeToFail(base: nat, size: nat, capacity: nat, offset: nat, n: nat, alignment: nat)
    requires alignment > 0
  {
    || size == 0
    || (if Tail(base, size, offset, alignment) > 0 then offset - base < alignment
        else capacity < Length(offset, n, alignment))
  }

  /**
   Whether the contents happen to be right after a failed read: the file has the same bytes in the place from which
   the tail was moved, or what was written is what had been there.
   */
  ghost predicate RightByChance(file: seq<Byte>, base: nat, view: seq<Byte>, offset: nat, n: nat, alignment: nat,
                          junk: seq<Byte>)
    requires alignment > 0
  {
    var k := Tail(base, |view|, offset, alignment);
    if k > 0 then
      Window(file, base, k) == Window(file, base + Floor(offset - base, alignment), k)
    else
      var wrote := Scribbled(junk, Min(|view|, Length(offset, n, alignment)));
      wrote == view[..|wrote|]
  }

  /** What is reused is less than what is loaded. */
  lemma TailShort(base: nat, size: nat, offset: nat, n: nat, alignment: nat)
    requires alignment > 0 && Aligned(base, alignment) && !Within(base, size, offset, n)
    ensures Tail(base, size, offset, alignment) <= Length(offset, n, alignment)
  {
    if Tail(base, size, offset, alignment) > 0 { TailFits(base, size, offset, n, alignment); }
  }

  /** The contents after a failed read with a reused tail: those of a later place of the file. */
  lemma MovedTail(file: seq<Byte>, alignment: nat, base: nat, view: seq<Byte>, offset: nat)
    requires alignment > 0 && Holds(file, alignment, base, view) && Tail(base, |view|, offset, alignment) > 0
    ensures var k := Tail(base, |view|, offset, alignment);
      view[|view| - k..] == Window(file, base + Floor(offset - base, alignment), k)
  {
    ChunkFits(file, alignment, base, view, Tail(base, |view|, offset, alignment));
  }

  /** Contents that are written over are right exactly if nothing changed. */
  lemma WrittenOver(file: seq<Byte>, base: nat, view: seq<Byte>, len: nat, junk: seq<Byte>)
    requires Exact(file, base, view)
    ensures var wrote := Scribbled(junk, Min(|view|, len));
      var view' := Overwritten(view, 0, Scribbled(junk, len));
      && (Exact(file, base, view') <==> wrote == view[..|wrote|])
      && (Exact(file, base, view') ==> view' == view)
  {
    var wrote, all := Scribbled(junk, Min(|view|, len)), Scribbled(junk, len);
    var view' := Overwritten(view, 0, all);
    assert view'[..|wrote|] == wrote;
    assert view'[|wrote|..] == view[|wrote|..];
    assert view' == view'[..|wrote|] + view'[|wrote|..];
    assert view == view[..|wrote|] + view[|wrote|..];
  }

  /**
   After a failed read the contents are the file's bytes from the buffer's offset on if and only if nothing was reused
   and a new buffer was needed, or they happen to be right.
   */
  lemma FailureExactly(file: seq<Byte>, alignment: nat, base: nat, view: seq<Byte>, capacity: nat, offset: nat, n: nat,
                       junk: seq<Byte>)
    requires alignment > 0 && Holds(file, alignment, base, view) && Aligned(base, alignment)
    requires !Within(base, |view|, offset, n)
    ensures var k, len := Tail(base, |view|, offset, alignment), Length(offset, n, alignment);
      && k <= len
      && (Exact(file, base, LeftBehind(view, k, capacity, len, junk)) <==>
          (k == 0 && capacity < len) || RightByChance(file, base, view, offset, n, alignment, junk))
  {
    var k, len := Tail(base, |view|, offset, alignment), Length(offset, n, alignment);
    TailShort(base, |view|, offset, n, alignment);
    if k > 0 {
      MovedTail(file, alignment, base, view, offset);
    } else if capacity >= len {
      assert Keeps(Seal, file, alignment, base, view);
      WrittenOver(file, base, view, len, junk);
    }
  }

  lemma HoldsNothing(file: seq<Byte>, alignment: nat, base: nat)
    requires alignment > 0 && Aligned(base, alignment)
    ensures Holds(file, alignment, base, [])
  {
    AlignedUnit(alignment);
    assert Keeps(Seal, file, alignment, base, []);
  }

  /** The guard that a caller can check: with it, a failing read leaves the buffer right whatever it has written. */
  lemma StillRight(file: seq<Byte>, alignment: nat, base: nat, view: seq<Byte>, capacity: nat, offset: nat, n: nat,
                   junk: seq<Byte>)
    requires alignment > 0 && Holds(file, alignment, base, view) && Aligned(base, alignment)
    requires !Within(base, |view|, offset, n) && SafeToFail(base, |view|, capacity, offset, n, alignment)
    ensures var k, len := Tail(base, |view|, offset, alignment), Length(offset, n, alignment);
      k <= len && Holds(file, alignment, base, LeftBehind(view, k, capacity, len, junk))
  {
    TailShort(base, |view|, offset, n, alignment);
    HoldsNothing(file, alignment, base);
    if Tail(base, |view|, offset, alignment) > 0 {
      FloorSmall(offset - base, alignment);
      assert view[0..] == view;
    }
  }

  /** A file with one byte that is not zero, at `base`, and its end `size` bytes behind that place. */
  function Spike(base: nat, size: nat): (file: seq<Byte>)
    requires size > 0
    ensures |file| == base + size
  {
    seq(base + size, i => if i == base then 1 else 0)
  }

  lemma SpikeHolds(alignment: nat, base: nat, size: nat)
    requires alignment > 0 && Aligned(base, alignment) && size > 0
    ensures var view := Window(Spike(base, size), base, size);
      |view| == size && view[0] == 1 && Holds(Spike(base, size), alignment, base, view)
  {
    assert Keeps(Seal, Spike(base, size), alignment, base, Window(Spike(base, size), base, size));
  }

  /** Without the guard there are a file, and something to write, with which the buffer is wrong afterwards. */
  lemma GuardIsNeeded(alignment: nat, base: nat, size: nat, capacity: nat, offset: nat, n: nat)
    returns (file: seq<Byte>, view: seq<Byte>, junk: seq<Byte>)
    requires alignment > 0 && Aligned(base, alignment) && (n > 0 || Floor(offset, alignment) < offset)
    requires !Within(base, size, offset, n) && !SafeToFail(base, size, capacity, offset, n, alignment)
    ensures |view| == size && Holds(file, alignment, base, view)
    ensures var k, len := Tail(base, size, offset, alignment), Length(offset, n, alignment);
      k <= len && !Exact(file, base, LeftBehind(view, k, capacity, len, junk))
  {
    file, view, junk := Spike(base, size), Window(Spike(base, size), base, size), [0];
    SpikeHolds(alignment, base, size);
    var k, len := Tail(base, size, offset, alignment), Length(offset, n, alignment);
    FailureExactly(file, alignment, base, view, capacity, offset, n, junk);
    if k > 0 {
      var moved := Floor(offset - base, alignment);
      assert Window(file, base, k)[0] == 1 && Window(file, base + moved, k)[0] == 0;
    } else {
      Stretch(offset, n, alignment);
      assert Scribbled(junk, Min(size, len)) == [0];
    }
  }

  /** The assertion on the reused part: for a request within the file, it is a whole number of alignment units. */
  lemma ChunkAligned(file: seq<Byte>, alignment: nat, base: nat, view: seq<Byte>, offset: nat, n: nat)
    requires alignment > 0 && Holds(file, alignment, base, view)
    requires base <= offset <= base + |view| < offset + n <= |file|
    ensures Floor(offset - base, alignment) <= |view|
    ensures Aligned(|view| - Floor(offset - base, alignment), alignment)
  {
    assert Keeps(Seal, file, alignment, base, view);
    AlignedDifference(|view|, Floor(offset - base, alignment), alignment);
  }

  /** The `n` bytes of memory from `at` on; what lies beyond the buffer is unknown. */
  function Slice(data: array<Byte>, at: nat, n: nat): (r: seq<Byte>)
    reads data
    ensures |r| == n
  {
    if at + n <= data.Length then data[at..at + n] else seq(n, _ => 0)
  }

  ghost predicate Loads(seal: Seal, file: seq<Byte>, view: seq<Byte>, view': seq<Byte>, k: nat, from: nat, len: nat) {
    k <= |view| && view' == Joined(file, view, k, from, len)
  }

  /** The contents after a successful read. */
  ghost predicate Loaded(file: seq<Byte>, view: seq<Byte>, view': seq<Byte>, k: nat, from: nat, len: nat) {
    forall seal: Seal :: Loads(seal, file, view, view', k, from, len)
  }

  ghost predicate Leaves(seal: Seal, view: seq<Byte>, view': seq<Byte>, k: nat, capacity: nat, len: nat,
                         junk: seq<Byte>) {
    k <= |view| && k <= len && view' == LeftBehind(view, k, capacity, len, junk)
  }

  /** The contents after a failed read. */
  ghost predicate Left(view: seq<Byte>, view': seq<Byte>, k: nat, capacity: nat, len: nat, junk: seq<Byte>) {
    forall seal: Seal :: Leaves(seal, view, view', k, capacity, len, junk)
  }

  lemma FrontAfterRoom(view: seq<Byte>, k: nat, capacity: nat, len: nat)
    requires k <= |view| && k <= len
    ensures var mid := LeftBehind(view, k, capacity, len, []); k <= |mid| && mid[..k] == view[|view| - k..]
  {}

  lemma ScribbledAfterRoom(view: seq<Byte>, k: nat, capacity: nat, len: nat, junk: seq<Byte>)
    requires k <= |view| && k <= len
    ensures Overwritten(LeftBehind(view, k, capacity, len, []), k, Scribbled(junk, len - k)) ==
      LeftBehind(view, k, capacity, len, junk)
  {}

  lemma ContentsSlice(data: array<Byte>, size: nat, at: nat, n: nat)
    requires at + n <= size <= data.Length
    ensures data[..size][at..at + n] == data[at..at + n]
  {}

  class FilePrefetchBuffer {
    const file: seq<Byte>
    const alignment: nat
    const enable: bool
    const trackMinOffset: bool
    const maxReadahead: nat
    const buffer: AlignedBuffer
    var bufferOffset: nat
    var readahead: nat
    var minOffsetRead: nat

    /** What holds whatever reads have failed. */
    ghost predicate Shaped()
      reads this, buffer
    {
      buffer.Valid() && alignment > 0 && Aligned(bufferOffset, alignment) && readahead <= maxReadahead
    }

    /** The buffer holds the file's bytes from its offset on. */
    ghost predicate Valid()
      reads this, buffer, buffer.data
    {
      Shaped() && Holds(file, alignment, bufferOffset, buffer.View())
    }

    constructor (file: seq<Byte>, alignment: nat, enable: bool, trackMinOffset: bool, readahead: nat, maxReadahead: nat)
      requires alignment > 0 && readahead <= maxReadahead
      ensures Valid() && this.file == file && this.alignment == alignment && this.enable == enable
      ensures this.readahead == readahead
      ensures buffer.View() == [] && bufferOffset == 0 && buffer.data.Length == 0 && fresh(buffer) && fresh(buffer.data)
    {
      this.file, this.alignment, this.enable, this.trackMinOffset := file, alignment, enable, trackMinOffset;
      this.readahead, this.maxReadahead := readahead, maxReadahead;
      buffer := new AlignedBuffer();
      bufferOffset, minOffsetRead := 0, MaxSize;
      new;
      AlignedUnit(alignment);
      HoldsNothing(file, alignment, 0);
    }

    /** Make room for a stretch of the file, keeping the last `chunkLen` bytes of the contents at its beginning. */
    method MakeRoom(len: nat, chunkOffset: nat, chunkLen: nat)
      requires Shaped() && chunkLen <= len && (chunkLen > 0 ==> chunkOffset + chunkLen == buffer.cursize)
      modifies buffer, buffer.data
      ensures Shaped() && (buffer.data == old(buffer.data) || fresh(buffer.data))
      ensures len <= buffer.data.Length == Grown(old(buffer.data.Length), len, alignment)
      ensures chunkLen <= |old(buffer.View())|
      ensures buffer.View() == LeftBehind(old(buffer.View()), chunkLen, old(buffer.data.Length), len, [])
    {
      if buffer.data.Length < len {
        buffer.AllocateNewBuffer(alignment, len, chunkLen > 0, chunkOffset, chunkLen);
      } else if chunkLen > 0 {
        buffer.RefitTail(chunkOffset, chunkLen);
      } else {
        assert buffer.View() == Overwritten(buffer.View(), 0, Scribbled([], len));
      }
    }

    /** The read itself, behind the first `chunkLen` bytes of the contents. */
    method ReadInto(base: nat, len: nat, chunkLen: nat, outcome: Outcome)
      requires Shaped() && chunkLen <= len <= buffer.data.Length && chunkLen <= buffer.cursize
      requires Aligned(base, alignment)
      modifies this`bufferOffset, buffer`cursize, buffer.data
      ensures Shaped()
      ensures outcome.Success? ==>
        && bufferOffset == base
        && buffer.View() == old(buffer.View())[..chunkLen] + Window(file, base + chunkLen, len - chunkLen)
      ensures outcome.Failure? ==>
        && bufferOffset == old(bufferOffset)
        && buffer.View() == Overwritten(old(buffer.View()), chunkLen, Scribbled(outcome.written, len - chunkLen))
    {
      match outcome
      case Success =>
        bufferOffset := base;
        buffer.Fill(chunkLen, Window(file, base + chunkLen, len - chunkLen));
      case Failure(written) =>
        buffer.Scribble(chunkLen, Scribbled(written, len - chunkLen));
    }

    /** Reuse the last `chunkLen` bytes and read the rest of the stretch behind them. */
    method Load(base: nat, len: nat, chunkOffset: nat, chunkLen: nat, outcome: Outcome)
      requires Shaped() && chunkLen <= len && Aligned(base, alignment)
      requires chunkLen > 0 ==> chunkOffset + chunkLen == buffer.cursize
      modifies this`bufferOffset, buffer, buffer.data
      ensures Shaped() && (buffer.data == old(buffer.data) || fresh(buffer.data))
      ensures buffer.data.Length == Grown(old(buffer.data.Length), len, alignment)
      ensures chunkLen <= |old(buffer.View())|
      ensures outcome.Success? ==>
        bufferOffset == base && Loaded(file, old(buffer.View()), buffer.View(), chunkLen, base, len)
      ensures outcome.Failure? ==>
        && bufferOffset == old(bufferOffset)
        && Left(old(buffer.View()), buffer.View(), chunkLen, old(buffer.data.Length), len, outcome.written)
    {
      ghost var was, capacity := buffer.View(), buffer.data.Length;
      MakeRoom(len, chunkOffset, chunkLen);
      FrontAfterRoom(was, chunkLen, capacity, len);
      ReadInto(base, len, chunkLen, outcome);
      if outcome.Failure? { ScribbledAfterRoom(was, chunkLen, capacity, len, outcome.written); }
    }

    /** Which part of the contents is to be reused: from `chunkOffset` on, `chunkLen` bytes. */
    method Reuse(offset: nat, n: nat) returns (chunkOffset: nat, chunkLen: nat)
      requires Shaped() && !Within(bufferOffset, buffer.cursize, offset, n)
      ensures chunkLen == Tail(bufferOffset, buffer.cursize, offset, alignment) <= Length(offset, n, alignment)
      ensures chunkLen > 0 ==> chunkOffset + chunkLen == buffer.cursize
    {
      chunkOffset, chunkLen := 0, 0;
      TailShort(bufferOffset, buffer.cursize, offset, n, alignment);
      if buffer.cursize > 0 && bufferOffset <= offset <= bufferOffset + buffer.cursize {
        chunkOffset := Rounddown(offset - bufferOffset, alignment);
        chunkLen := buffer.cursize - chunkOffset;
        if chunkLen == 0 {
          chunkOffset := 0;
        }
      }
    }

    /** What is to be loaded, and the loading. */
    method Fetch(offset: nat, n: nat, outcome: Outcome)
      requires Shaped() && (n > 0 || Floor(offset, alignment) < offset)
      requires !Within(bufferOffset, buffer.cursize, offset, n)
      modifies this`bufferOffset, buffer, buffer.data
      ensures Shaped() && (buffer.data == old(buffer.data) || fresh(buffer.data))
      ensures buffer.data.Length == Grown(old(buffer.data.Length), Length(offset, n, alignment), alignment)
      ensures outcome.Success? ==>
        && bufferOffset == Floor(offset, alignment)
        && Loaded(file, old(buffer.View()), buffer.View(),
                  Tail(old(bufferOffset), old(buffer.cursize), offset, alignment), bufferOffset,
                  Length(offset, n, alignment))
      ensures outcome.Failure? ==>
        && bufferOffset == old(bufferOffset)
        && Left(old(buffer.View()), buffer.View(), Tail(bufferOffset, old(buffer.cursize), offset, alignment),
                old(buffer.data.Length), Length(offset, n, alignment), outcome.written)
    {
      var chunkOffset, chunkLen := Reuse(offset, n);
      var from := Rounddown(offset, alignment);
      var end := Roundup(offset + n, alignment);
      Load(from, end - from, chunkOffset, chunkLen, outcome);
    }

    /**
     Load a stretch of the file that covers the request; `outcome` is what the underlying read does. A buffer that was
     right stays right if that succeeds. If it fails, the buffer's offset stays while the contents may not: the buffer
     stays right if `SafeToFail`, and its contents are right exactly if nothing of them was reused and a new buffer was
     needed, or they happen to be right.
     */
    method Prefetch(hasReader: bool, offset: nat, n: nat, outcome: Outcome) returns (ok: bool)
      requires Shaped() && (n > 0 || Floor(offset, alignment) < offset)
      modifies this`bufferOffset, buffer, buffer.data
      ensures Shaped() && (buffer.data == old(buffer.data) || fresh(buffer.data))
      ensures ok <==>
        outcome.Success? || !enable || !hasReader || Within(old(bufferOffset), |old(buffer.View())|, offset, n)
      ensures !enable || !hasReader || Within(old(bufferOffset), |old(buffer.View())|, offset, n) ==>
        bufferOffset == old(bufferOffset) && buffer.View() == old(buffer.View()) && buffer.data == old(buffer.data)
      ensures enable && hasReader && !Within(old(bufferOffset), |old(buffer.View())|, offset, n) ==>
        buffer.data.Length == Grown(old(buffer.data.Length), Length(offset, n, alignment), alignment)
      ensures ok && enable && hasReader && !Within(old(bufferOffset), |old(buffer.View())|, offset, n) ==>
        && bufferOffset == Floor(offset, alignment)
        && buffer.View() == Extended(file, old(bufferOffset), old(buffer.View()), offset, n, alignment)
      ensures !ok ==>
        var k, len := Tail(bufferOffset, |old(buffer.View())|, offset, alignment), Length(offset, n, alignment);
        && bufferOffset == old(bufferOffset) && k <= len
        && buffer.View() == LeftBehind(old(buffer.View()), k, old(buffer.data.Length), len, outcome.written)
      ensures old(Valid()) && ok ==>
        Valid() && (enable && hasReader ==> Covers(file, bufferOffset, buffer.View(), offset, n))
      ensures old(Valid()) && !ok ==>
        (SafeToFail(bufferOffset, |old(buffer.View())|, old(buffer.data.Length), offset, n, alignment) ==> Valid())
      ensures old(Valid()) && !ok ==>
        var k, len := Tail(bufferOffset, |old(buffer.View())|, offset, alignment), Length(offset, n, alignment);
        Exact(file, bufferOffset, buffer.View()) <==>
          (k == 0 && old(buffer.data.Length) < len)
          || RightByChance(file, bufferOffset, old(buffer.View()), offset, n, alignment, outcome.written)
    {
      ok := true;
      if !enable || !hasReader || Within(bufferOffset, buffer.cursize, offset, n) {
        return;
      }
      ghost var base, view, capacity := bufferOffset, buffer.View(), buffer.data.Length;
      ok := outcome.Success?;
      Fetch(offset, n, outcome);
      ghost var k, len := Tail(base, |view|, offset, alignment), Length(offset, n, alignment);
      assert ok ==> Loads(Seal, file, view, buffer.View(), k, bufferOffset, len);
      assert !ok ==> Leaves(Seal, view, buffer.View(), k, capacity, len, outcome.written);
      if old(Valid()) {
        if ok {
          ReadIsRight(file, alignment, base, view, offset, n);
        } else {
          FailureExactly(file, alignment, base, view, capacity, offset, n, outcome.written);
          if SafeToFail(base, |view|, capacity, offset, n, alignment) {
            StillRight(file, alignment, base, view, capacity, offset, n, outcome.written);
          }
        }
      }
    }

    /** The slice of the buffer's memory that a request gets. */
    function Answer(offset: nat, n: nat): (r: seq<Byte>)
      requires buffer.Valid() && bufferOffset <= offset
      reads this`bufferOffset, buffer, buffer.data
      ensures offset - bufferOffset + n <= buffer.cursize ==>
        r == buffer.View()[offset - bufferOffset..offset - bufferOffset + n]
    {
      Slice(buffer.data, offset - bufferOffset, n)
    }

    lemma SliceIs(offset: nat, n: nat)
      requires Valid() && Covers(file, bufferOffset, buffer.View(), offset, n)
      ensures Answer(offset, n) == Window(file, offset, n) <==> offset + n <= |file| || n == 0
    {
      assert Keeps(Seal, file, alignment, bufferOffset, buffer.View());
      var view, at := buffer.View(), offset - bufferOffset;
      if offset + n <= |file| {
        assert at + n <= |view|;
        ContentsSlice(buffer.data, buffer.cursize, at, n);
        assert Slice(buffer.data, at, n) == view[at..at + n];
        assert view[at..at + n] == Window(file, offset, n) by { WindowPart(file, bufferOffset, |view|, at, n); }
      }
    }

    /** How much a request that is not in the buffer asks for. */
    function Ahead(n: nat, forCompaction: bool): nat
      reads this`readahead
    {
      if forCompaction then Max(n, readahead) else n + readahead
    }

    /** Load the request and more, and read ahead further the next time. */
    method ReadAhead(offset: nat, n: nat, forCompaction: bool, outcome: Outcome) returns (ok: bool)
      requires Shaped() && readahead > 0 && enable && offset >= bufferOffset
      modifies this`bufferOffset, this`readahead, buffer, buffer.data
      ensures Shaped() && (buffer.data == old(buffer.data) || fresh(buffer.data)) && (outcome.Success? ==> ok)
      ensures ok ==> bufferOffset <= offset
      ensures readahead == if ok then Min(maxReadahead, 2 * old(readahead)) else old(readahead)
      ensures old(Valid()) && ok ==>
        Valid() && Covers(file, bufferOffset, buffer.View(), offset, old(Ahead(n, forCompaction)))
    {
      ok := Prefetch(true, offset, Ahead(n, forCompaction), outcome);
      if ok {
        readahead := Min(maxReadahead, readahead * 2);
      }
    }

    /**
     Answer a read from the buffer, reading ahead if that is on. What lies within the contents is answered from them.
     While the buffer is right, a returned slice, which always has `n` bytes, is what a read of the file would give
     exactly when the request lies within the file. Each time more is read ahead, up to the maximum.
     */
    method TryReadFromCache(offset: nat, n: nat, forCompaction: bool, outcome: Outcome)
      returns (r: Option<seq<Byte>>, failed: bool)
      requires Shaped()
      modifies this`bufferOffset, this`readahead, this`minOffsetRead, buffer, buffer.data
      ensures Shaped() && (buffer.data == old(buffer.data) || fresh(buffer.data)) && (outcome.Success? ==> !failed)
      ensures enable && old(bufferOffset) <= offset && offset + n <= old(bufferOffset) + |old(buffer.View())| ==>
        && r == Some(old(buffer.View())[offset - old(bufferOffset)..offset - old(bufferOffset) + n])
        && bufferOffset == old(bufferOffset) && buffer.View() == old(buffer.View())
      ensures old(Valid()) && !failed ==> Valid()
      ensures r.Some? && offset + n > old(bufferOffset) + |old(buffer.View())| ==>
        && readahead == Min(maxReadahead, 2 * old(readahead))
        && (old(Valid()) ==> Covers(file, bufferOffset, buffer.View(), offset, old(Ahead(n, forCompaction))))
      ensures r.None? || offset + n <= old(bufferOffset) + |old(buffer.View())| ==> readahead == old(readahead)
      ensures old(Valid()) && r.Some? ==> (r.value == Window(file, offset, n) <==> offset + n <= |file| || n == 0)
      ensures outcome.Success? && r.None? ==> !enable || offset < old(bufferOffset) || old(readahead) == 0
      ensures minOffsetRead == if trackMinOffset then Min(old(minOffsetRead), offset) else old(minOffsetRead)
    {
      failed := false;
      if trackMinOffset && offset < minOffsetRead {
        minOffsetRead := offset;
      }
      if !enable || offset < bufferOffset {
        return None, false;
      }
      if offset + n > bufferOffset + buffer.cursize {
        if readahead == 0 {
          return None, false;
        }
        var ok := ReadAhead(offset, n, forCompaction, outcome);
        if !ok {
          return None, true;
        }
      }
      r := Some(Answer(offset, n));
      if old(Valid()) {
        SliceIs(offset, n);
      }
    }
  }

  // ---- two failing reads

  /** What is aligned is not rounded. */
  lemma RoundNothing(x: nat, y: nat)
    requires y > 0 && Aligned(x, y)
    ensures Floor(x, y) == x && Ceiling(x, y) == x
  {
    FloorUnique(x, y, x);
    FloorUnique(x + y - 1, y, x);
  }

  lemma Multiples(a: nat)
    requires a > 0
    ensures Aligned(0, a) && Aligned(a, a) && Aligned(2 * a, a)
    ensures Aligned(3 * a, a) && Aligned(4 * a, a) && Aligned(6 * a, a)
  {
    AlignedUnit(a);
    AlignedSum(a, a, a);
    AlignedSum(2 * a, a, a);
    AlignedSum(2 * a, 2 * a, a);
    AlignedSum(4 * a, 2 * a, a);
  }

  /** Loading the first two units of a file into an empty buffer. */
  lemma FirstLoad(file: seq<Byte>, a: nat)
    requires a > 0 && 2 * a <= |file|
    ensures Floor(0, a) == 0 && Length(0, 2 * a, a) == 2 * a && Grown(0, 2 * a, a) == 2 * a
    ensures Extended(file, 0, [], 0, 2 * a, a) == file[..2 * a]
  {
    Multiples(a);
    RoundNothing(0, a);
    RoundNothing(2 * a, a);
  }

  method TwoUnits(file: seq<Byte>, a: nat) returns (f: FilePrefetchBuffer)
    requires a > 0 && 2 * a <= |file|
    ensures fresh(f) && fresh(f.buffer) && fresh(f.buffer.data)
    ensures f.Valid() && f.file == file && f.alignment == a && f.enable
    ensures f.bufferOffset == 0 && f.buffer.View() == file[..2 * a] && f.buffer.data.Length == 2 * a
  {
    FirstLoad(file, a);
    f := new FilePrefetchBuffer(file, a, true, false, 0, 0);
    var ok := f.Prefetch(true, 0, 2 * a, Success);
  }

  lemma SecondUnit(view: seq<Byte>, a: nat)
    requires a > 0 && |view| == 2 * a
    ensures Tail(0, 2 * a, a, a) == a && Length(a, 2 * a, a) == 2 * a && !Within(0, 2 * a, a, 2 * a)
    ensures LeftBehind(view, a, 2 * a, 2 * a, []) == view[a..]
  {
    Multiples(a);
    RoundNothing(a, a);
    RoundNothing(3 * a, a);
  }

  /**
   After a read that failed once the tail had been moved, the buffer answers for bytes that it does not hold: asked for
   the first unit of any file of three, it gives the second.
   */
  method FailedRead(file: seq<Byte>, a: nat) returns (r: Option<seq<Byte>>)
    requires a > 0 && |file| == 3 * a
    ensures r == Some(file[a..2 * a]) && (r.value == Window(file, 0, a) <==> file[..a] == file[a..2 * a])
  {
    SecondUnit(file[..2 * a], a);
    var f := TwoUnits(file, a);
    var ok := f.Prefetch(true, a, 2 * a, Failure([]));
    assert f.buffer.View() == file[..2 * a][a..];
    var failed;
    r, failed := f.TryReadFromCache(0, a, false, Success);
    assert file[..2 * a][a..][0..a] == file[a..2 * a];
  }

  lemma FarAway(view: seq<Byte>, a: nat, bytes: seq<Byte>)
    requires a > 0 && |view| == 2 * a && |bytes| == a
    ensures Tail(0, 2 * a, 4 * a, a) == 0 && Length(4 * a, 2 * a, a) == 2 * a && !Within(0, 2 * a, 4 * a, 2 * a)
    ensures LeftBehind(view, 0, 2 * a, 2 * a, bytes) == bytes + view[a..]
  {
    Multiples(a);
    RoundNothing(4 * a, a);
    RoundNothing(6 * a, a);
  }

  /**
   After a read that failed when half of it was there, the buffer answers with what that read has written: asked for the
   first unit of any file of six, it gives the fifth.
   */
  method HalfRead(file: seq<Byte>, a: nat) returns (r: Option<seq<Byte>>)
    requires a > 0 && |file| == 6 * a
    ensures r == Some(file[4 * a..5 * a]) && (r.value == Window(file, 0, a) <==> file[..a] == file[4 * a..5 * a])
  {
    var half := file[4 * a..5 * a];
    FarAway(file[..2 * a], a, half);
    var f := TwoUnits(file, a);
    var ok := f.Prefetch(true, 4 * a, 2 * a, Failure(half));
    assert f.buffer.View() == half + file[..2 * a][a..];
    var failed;
    r, failed := f.TryReadFromCache(0, a, false, Success);
    assert (half + file[..2 * a][a..])[0..a] == half;
  }
}
