/**
 Counter-mode encryption at arbitrary file offsets (section 6.5 of NIST SP 800-38A): the block loop with its partial
 first and last blocks, and the keystream that it amounts to. The block cipher is an arbitrary function.
 */
module Encryption {
  import opened Basics
  import opened Seals
  // ---- bytes

  function Bit(a: nat, b: nat): nat { if a % 2 == b % 2 then 0 else 1 }

  /** The bitwise exclusive or. */
  function XorBits(a: nat, b: nat): nat {
    if a == 0 && b == 0 then 0 else Bit(a, b) + 2 * XorBits(a / 2, b / 2)
  }

  lemma {:induction false} XorBound(a: nat, b: nat, k: nat)
    requires a < Pow2(k) && b < Pow2(k)
    ensures XorBits(a, b) < Pow2(k)
    decreases k
  {
    if k > 0 { XorBound(a / 2, b / 2, k - 1); }
  }

  lemma Pow2Of8()
    ensures Pow2(8) == 256
  {
    assert Pow2(4) == 16;
  }

  function Xor(a: Byte, b: Byte): Byte {
    Pow2Of8();
    XorBound(a, b, 8);
    XorBits(a, b)
  }

  lemma {:induction false} XorBitsUndone(a: nat, b: nat)
    ensures XorBits(XorBits(a, b), b) == a
    decreases a + b
  {
    if a != 0 || b != 0 {
      var x := XorBits(a, b);
      XorBitsUndone(a / 2, b / 2);
      assert x / 2 == XorBits(a / 2, b / 2) && x % 2 == Bit(a, b);
    }
  }

  lemma XorUndone(a: Byte, b: Byte)
    ensures Xor(Xor(a, b), b) == a
  {
    XorBitsUndone(a, b);
  }

  /** The bit of a number at a place, from the lowest on. */
  function BitAt(n: nat, k: nat): nat { if k == 0 then n % 2 else BitAt(n / 2, k - 1) }

  lemma {:induction false} XorBitsAt(a: nat, b: nat, k: nat)
    ensures BitAt(XorBits(a, b), k) == if BitAt(a, k) == BitAt(b, k) then 0 else 1
    decreases k
  {
    var x := XorBits(a, b);
    assert x % 2 == Bit(a, b) && x / 2 == XorBits(a / 2, b / 2);
    if k > 0 { XorBitsAt(a / 2, b / 2, k - 1); }
  }

  /** Bit by bit, the exclusive or tells where its arguments differ. */
  lemma XorAt(a: Byte, b: Byte, k: nat)
    ensures BitAt(Xor(a, b), k) == if BitAt(a, k) == BitAt(b, k) then 0 else 1
  {
    XorBitsAt(a, b, k);
  }

  // ---- fixed-width little-endian numbers

  function LittleEndian(v: nat, n: nat): (s: seq<Byte>)
    ensures |s| == n
  {
    if n == 0 then [] else [v % 256] + LittleEndian(v / 256, n - 1)
  }

  function FromLittleEndian(s: seq<Byte>): nat {
    if |s| == 0 then 0 else s[0] + 256 * FromLittleEndian(s[1..])
  }

  function EncodeFixed64(v: nat): (s: seq<Byte>) { LittleEndian(v, 8) }

  function DecodeFixed64(s: seq<Byte>): nat
    requires |s| >= 8
  {
    FromLittleEndian(s[..8])
  }

  function Pow256(n: nat): nat { if n == 0 then 1 else 256 * Pow256(n - 1) }

  lemma {:induction false} LittleEndianInverse(v: nat, n: nat)
    requires v < Pow256(n)
    ensures FromLittleEndian(LittleEndian(v, n)) == v
    decreases n
  {
    if n > 0 {
      LittleEndianInverse(v / 256, n - 1);
      assert LittleEndian(v, n)[1..] == LittleEndian(v / 256, n - 1);
    }
  }

  /** The byte of a number at a place, from the lowest on. */
  function ByteAt(v: nat, i: nat): Byte { if i == 0 then v % 256 else ByteAt(v / 256, i - 1) }

  /** The lowest byte comes first. */
  lemma {:induction false} LittleEndianAt(v: nat, n: nat, i: nat)
    requires i < n
    ensures LittleEndian(v, n)[i] == ByteAt(v, i)
    decreases i
  {
    if i > 0 { LittleEndianAt(v / 256, n - 1, i - 1); }
  }

  lemma {:induction false} FromLittleEndianInverse(s: seq<Byte>)
    ensures FromLittleEndian(s) < Pow256(|s|) && LittleEndian(FromLittleEndian(s), |s|) == s
  {
    if |s| > 0 {
      FromLittleEndianInverse(s[1..]);
      LowByte(s[0], FromLittleEndian(s[1..]));
      assert s == [s[0]] + s[1..];
    }
  }

  lemma LowByte(b: Byte, v: nat)
    ensures (b + 256 * v) % 256 == b && (b + 256 * v) / 256 == v
  {}

  lemma Pow256Of8()
    ensures Pow256(8) == Two64
  {
    assert Pow256(4) == 0x1_0000_0000;
  }

  lemma FixedRoundTrip(v: nat, tail: seq<Byte>)
    requires v < Two64
    ensures DecodeFixed64(EncodeFixed64(v) + tail) == v
  {
    Pow256Of8();
    LittleEndianInverse(v, 8);
    assert (EncodeFixed64(v) + tail)[..8] == EncodeFixed64(v);
  }

  // ---- the keystream

  /** A block cipher: it may fail, and otherwise encrypts a block in place. */
  datatype Cipher = Cipher(blockSize: nat, encrypt: seq<Byte> -> Option<seq<Byte>>)

  datatype Stream = Stream(cipher: Cipher, iv: seq<Byte>, initial: nat)

  ghost predicate Sound(c: Cipher) {
    c.blockSize >= 8 && forall b :: |b| == c.blockSize && c.encrypt(b).Some? ==> |c.encrypt(b).value| == c.blockSize
  }

  ghost predicate Usable(st: Stream) { Sound(st.cipher) && |st.iv| == st.cipher.blockSize }

  /** The IV with its first eight bytes replaced by the counter of the block, which wraps around. */
  function CounterBlock(st: Stream, index: nat): (s: seq<Byte>)
    requires |st.iv| >= 8
    ensures |s| == |st.iv|
  {
    EncodeFixed64((index + st.initial) % Two64) + st.iv[8..]
  }

  function Pad(st: Stream, index: nat): Option<seq<Byte>>
    requires |st.iv| >= 8
  {
    st.cipher.encrypt(CounterBlock(st, index))
  }

  lemma SameShift(i: nat, j: nat, c: nat)
    ensures (i + c) % Two64 == (j + c) % Two64 <==> i % Two64 == j % Two64
  {
    var qi, qj, ri, rj := i / Two64, j / Two64, i % Two64, j % Two64;
    var pi, pj, si, sj := (i + c) / Two64, (j + c) / Two64, (i + c) % Two64, (j + c) % Two64;
    assert i == qi * Two64 + ri && j == qj * Two64 + rj && i + c == pi * Two64 + si && j + c == pj * Two64 + sj;
  }

  /** Two blocks of a file get the same input to the cipher only when they are a multiple of 2^64 blocks apart. */
  lemma CountersDiffer(st: Stream, i: nat, j: nat)
    requires |st.iv| >= 8
    ensures CounterBlock(st, i) == CounterBlock(st, j) <==> i % Two64 == j % Two64
  {
    var a, b := (i + st.initial) % Two64, (j + st.initial) % Two64;
    FixedRoundTrip(a, st.iv[8..]);
    FixedRoundTrip(b, st.iv[8..]);
    SameShift(i, j, st.initial);
  }

  /** The counter block carries the number of the block, counted on from the initial counter, and the rest of the IV. */
  lemma CounterHolds(st: Stream, index: nat)
    requires |st.iv| >= 8
    ensures DecodeFixed64(CounterBlock(st, index)) == (index + st.initial) % Two64
    ensures CounterBlock(st, index)[8..] == st.iv[8..]
  {
    FixedRoundTrip((index + st.initial) % Two64, st.iv[8..]);
  }

  /** And it is the only block that does. */
  lemma CounterIs(st: Stream, index: nat, c: seq<Byte>)
    requires |c| == |st.iv| >= 8 && DecodeFixed64(c) == (index + st.initial) % Two64 && c[8..] == st.iv[8..]
    ensures c == CounterBlock(st, index)
  {
    FromLittleEndianInverse(c[..8]);
    assert c == c[..8] + c[8..];
  }

  /** The keystream's byte at an absolute position of the file. */
  ghost function KeyByte(st: Stream, pos: nat): Byte
    requires Usable(st)
  {
    match Pad(st, pos / st.cipher.blockSize)
    case Some(pad) => pad[pos % st.cipher.blockSize]
    case None => 0
  }

  /**
   The keystream's byte at a position is the byte of that place in the encryption of the block that carries the number
   of the position's block, counted on from the initial counter, and the rest of the IV.
   */
  lemma KeyByteIs(st: Stream, pos: nat, c: seq<Byte>, pad: seq<Byte>)
    requires Usable(st) && |c| == |st.iv| && c[8..] == st.iv[8..] && st.cipher.encrypt(c) == Some(pad)
    requires DecodeFixed64(c) == (pos / st.cipher.blockSize + st.initial) % Two64
    ensures |pad| == st.cipher.blockSize && KeyByte(st, pos) == pad[pos % st.cipher.blockSize]
  {
    CounterIs(st, pos / st.cipher.blockSize, c);
  }

  lemma CounterShift(st: Stream, index: nat)
    requires |st.iv| >= 8
    ensures CounterBlock(st, index) == CounterBlock(st.(initial := 0), index + st.initial)
  {}

  /** A stream is another one's from a later place on: the initial counter says how many blocks later. */
  lemma KeyShift(st: Stream, pos: nat)
    requires Usable(st)
    ensures KeyByte(st, pos) == KeyByte(st.(initial := 0), pos + st.cipher.blockSize * st.initial)
  {
    var bs := st.cipher.blockSize;
    var index, r := pos / bs, pos % bs;
    assert pos == bs * index + r;
    assert pos + bs * st.initial == bs * (index + st.initial) + r;
    InBlock(bs, index + st.initial, r);
    CounterShift(st, index);
  }

  /** What counter mode makes of data at an offset. */
  ghost function Crypt(st: Stream, offset: nat, data: seq<Byte>): (r: seq<Byte>)
    requires Usable(st)
    ensures |r| == |data|
  {
    seq(|data|, i requires 0 <= i < |data| => Xor(data[i], KeyByte(st, offset + i)))
  }

  /** Encrypting twice at the same offset gives the data back. */
  lemma CryptUndone(st: Stream, offset: nat, data: seq<Byte>)
    requires Usable(st)
    ensures Crypt(st, offset, Crypt(st, offset, data)) == data
  {
    forall i | 0 <= i < |data| ensures Crypt(st, offset, Crypt(st, offset, data))[i] == data[i] {
      XorUndone(data[i], KeyByte(st, offset + i));
    }
  }

  lemma CryptJoin(st: Stream, offset: nat, a: seq<Byte>, b: seq<Byte>)
    requires Usable(st)
    ensures Crypt(st, offset, a + b) == Crypt(st, offset, a) + Crypt(st, offset + |a|, b)
  {}

  /** The keystream depends on positions only: a window of the encryption is the encryption of the window. */
  lemma CryptWindow(st: Stream, offset: nat, data: seq<Byte>, i: nat, j: nat)
    requires Usable(st) && i <= j <= |data|
    ensures Crypt(st, offset, data)[i..j] == Crypt(st, offset + i, data[i..j])
  {}

  // ---- the block loop

  /** The bytes from `start` on, as they were, with the pad's bytes added. */
  ghost predicate Masked(now: seq<Byte>, was: seq<Byte>, start: nat, n: nat, pad: seq<Byte>) {
    && |now| == |was| && start + n <= |was| && n <= |pad|
    && (forall i :: 0 <= i < |was| && !(start <= i < start + n) ==> now[i] == was[i])
    && (forall i :: start <= i < start + n ==> now[i] == Xor(was[i], pad[i - start]))
  }

  /** Encrypt or decrypt the block of a buffer that begins at `start`; nothing changes if the cipher fails. */
  method EncryptBlock(st: Stream, index: nat, block: array<Byte>, start: nat) returns (ok: bool)
    requires Usable(st) && start + st.cipher.blockSize <= block.Length
    modifies block
    ensures ok <==> Pad(st, index).Some?
    ensures ok ==> Masked(block[..], old(block[..]), start, st.cipher.blockSize, Pad(st, index).value)
    ensures !ok ==> block[..] == old(block[..])
  {
    var blockSize := st.cipher.blockSize;
    var scratch := EncodeFixed64((index + st.initial) % Two64) + st.iv[8..];
    var r := st.cipher.encrypt(scratch);
    if r.None? {
      return false;
    }
    for i := 0 to blockSize
      invariant Masked(block[..], old(block[..]), start, i, r.value)
    {
      block[start + i] := Xor(block[start + i], r.value[i]);
    }
    return true;
  }

  lemma InBlock(bs: nat, index: nat, r: nat)
    requires r < bs
    ensures (bs * index + r) / bs == index && (bs * index + r) % bs == r
  {
    var p := bs * index + r;
    var d := index - p / bs;
    assert bs * d == bs * index - bs * (p / bs);
    MultipleGrows(bs, d);
  }

  /** The keystream of part of a block is part of the block's pad. */
  lemma KeyOfBlock(st: Stream, index: nat, r: nat)
    requires Usable(st) && r < st.cipher.blockSize && Pad(st, index).Some?
    ensures KeyByte(st, st.cipher.blockSize * index + r) == Pad(st, index).value[r]
  {
    InBlock(st.cipher.blockSize, index, r);
  }

  /** `n` bytes from `at` on are encrypted as of file offset `offset`, and nothing else has changed. */
  ghost predicate Crypted(st: Stream, now: seq<Byte>, was: seq<Byte>, at: nat, n: nat, offset: nat)
    requires Usable(st)
  {
    && |now| == |was| && at + n <= |was|
    && (forall i :: 0 <= i < |was| && !(at <= i < at + n) ==> now[i] == was[i])
    && (forall i :: at <= i < at + n ==> now[i] == Xor(was[i], KeyByte(st, offset + (i - at))))
  }

  lemma CryptedIs(st: Stream, now: seq<Byte>, was: seq<Byte>, at: nat, n: nat, offset: nat)
    requires Usable(st) && Crypted(st, now, was, at, n, offset)
    ensures now == was[..at] + Crypt(st, offset, was[at..at + n]) + was[at + n..]
  {
    var r := was[..at] + Crypt(st, offset, was[at..at + n]) + was[at + n..];
    forall i | 0 <= i < |was| ensures now[i] == r[i] {
      if at <= i < at + n { assert was[at..at + n][i - at] == was[i]; }
    }
  }

  /** `n` bytes from `at` on are the old ones with part of a block's pad added. */
  ghost predicate Padded(now: seq<Byte>, was: seq<Byte>, at: nat, n: nat, pad: seq<Byte>, blockOffset: nat) {
    && |now| == |was| && at + n <= |was| && blockOffset + n <= |pad|
    && (forall i :: 0 <= i < |was| && !(at <= i < at + n) ==> now[i] == was[i])
    && (forall i :: at <= i < at + n ==> now[i] == Xor(was[i], pad[blockOffset + i - at]))
  }

  lemma PaddedIsCrypted(st: Stream, index: nat, now: seq<Byte>, was: seq<Byte>, at: nat, n: nat, blockOffset: nat)
    requires Usable(st) && Pad(st, index).Some? && Padded(now, was, at, n, Pad(st, index).value, blockOffset)
    ensures Crypted(st, now, was, at, n, st.cipher.blockSize * index + blockOffset)
  {
    forall i | at <= i < at + n
      ensures now[i] == Xor(was[i], KeyByte(st, st.cipher.blockSize * index + blockOffset + (i - at)))
    {
      KeyOfBlock(st, index, blockOffset + (i - at));
    }
  }

  /** Copy bytes between two buffers. */
  method Move(dst: array<Byte>, d: nat, src: array<Byte>, s: nat, n: nat)
    requires dst != src && d + n <= dst.Length && s + n <= src.Length
    modifies dst
    ensures forall i :: d <= i < d + n ==> dst[i] == src[s + i - d]
    ensures forall i :: 0 <= i < dst.Length && !(d <= i < d + n) ==> dst[i] == old(dst[i])
  {
    for k := 0 to n
      invariant forall i :: d <= i < d + k ==> dst[i] == src[s + i - d]
      invariant forall i :: 0 <= i < dst.Length && !(d <= i < d + k) ==> dst[i] == old(dst[i])
    {
      dst[d + k] := src[s + k];
    }
  }

  method CryptByBuffer(st: Stream, index: nat, blockOffset: nat, data: array<Byte>, at: nat, n: nat) returns (ok: bool)
    requires Usable(st) && at + n <= data.Length && blockOffset + n <= st.cipher.blockSize
    modifies data
    ensures ok <==> Pad(st, index).Some?
    ensures ok ==> Padded(data[..], old(data[..]), at, n, Pad(st, index).value, blockOffset)
    ensures !ok ==> data[..] == old(data[..])
  {
    var blockBuffer := new Byte[st.cipher.blockSize];
    Move(blockBuffer, blockOffset, data, at, n);
    ghost var was := blockBuffer[..];
    ok := EncryptBlock(st, index, blockBuffer, 0);
    if ok {
      Move(data, at, blockBuffer, blockOffset, n);
    }
  }

  ghost predicate StandsAt(seal: Seal, bs: nat, offset: nat, k: nat, index: nat, r: nat) {
    offset + k == bs * index + r
  }

  /** Where the loop is: `k` bytes done, `r` bytes into block `index`. */
  ghost predicate Stands(bs: nat, offset: nat, k: nat, index: nat, r: nat) {
    r < bs && forall seal: Seal :: StandsAt(seal, bs, offset, k, index, r)
  }

  /** One round of the loop: `n` bytes of a block, in place if that is all of it and else by way of a buffer. */
  method CryptPart(st: Stream, index: nat, blockOffset: nat, data: array<Byte>, at: nat, n: nat, offset: nat, k: nat)
    returns (ok: bool)
    requires Usable(st) && at + n <= data.Length && blockOffset + n <= st.cipher.blockSize
    requires Stands(st.cipher.blockSize, offset, k, index, blockOffset)
    modifies data
    ensures ok <==> Pad(st, index).Some?
    ensures ok ==> Crypted(st, data[..], old(data[..]), at, n, offset + k)
    ensures !ok ==> data[..] == old(data[..])
  {
    if n == st.cipher.blockSize {
      ok := EncryptBlock(st, index, data, at);
      if ok { MaskedIsPadded(data[..], old(data[..]), at, n, Pad(st, index).value); }
    } else {
      ok := CryptByBuffer(st, index, blockOffset, data, at, n);
    }
    if ok { PartIsCrypted(st, index, data[..], old(data[..]), at, n, blockOffset, offset, k); }
  }

  lemma MaskedIsPadded(now: seq<Byte>, was: seq<Byte>, at: nat, n: nat, pad: seq<Byte>)
    requires Masked(now, was, at, n, pad)
    ensures Padded(now, was, at, n, pad, 0)
  {}

  lemma PartIsCrypted(st: Stream, index: nat, now: seq<Byte>, was: seq<Byte>, at: nat, n: nat, blockOffset: nat,
                      offset: nat, k: nat)
    requires Usable(st) && Pad(st, index).Some? && Padded(now, was, at, n, Pad(st, index).value, blockOffset)
    requires Stands(st.cipher.blockSize, offset, k, index, blockOffset)
    ensures Crypted(st, now, was, at, n, offset + k)
  {
    assert StandsAt(Seal, st.cipher.blockSize, offset, k, index, blockOffset);
    PaddedIsCrypted(st, index, now, was, at, n, blockOffset);
  }

  /** The last block that the loop calls the cipher for: a call on no data at all still encrypts a block. */
  function LastBlock(st: Stream, offset: nat, size: nat): nat
    requires st.cipher.blockSize > 0
  {
    (if size == 0 then offset else offset + size - 1) / st.cipher.blockSize
  }

  /** The cipher works for every block from `first` up to `last`. */
  ghost predicate Works(st: Stream, first: nat, last: int)
    requires |st.iv| >= 8
  {
    forall b: nat :: first <= b <= last ==> Pad(st, b).Some?
  }

  lemma CryptedMore(st: Stream, now: seq<Byte>, mid: seq<Byte>, was: seq<Byte>, at: nat, k: nat, n: nat, offset: nat)
    requires Usable(st) && Crypted(st, mid, was, at, k, offset) && Crypted(st, now, mid, at + k, n, offset + k)
    ensures Crypted(st, now, was, at, k + n, offset)
  {}


  lemma NextBlock(bs: nat, offset: nat, size: nat, k: nat, index: nat, r: nat, n: nat)
    requires Stands(bs, offset, k, index, r) && k <= size && n == if size - k < bs - r then size - k else bs - r
    ensures index <= (if size == 0 then offset else offset + size - 1) / bs || (k == size && k > 0)
    ensures k + n < size ==> Stands(bs, offset, k + n, index + 1, 0)
    ensures k + n == size && (n > 0 || size == 0) ==> index == (if size == 0 then offset else offset + size - 1) / bs
  {
    assert StandsAt(Seal, bs, offset, k, index, r);
    if k + n < size {
      assert bs * (index + 1) == bs * index + bs;
    }
    if n > 0 {
      InBlock(bs, index, r + n - 1);
      if k + n < size {
        var e := offset + size - 1;
        assert e >= bs * index;
        assert index <= e / bs by { QuotientAtLeast(bs, index, e); }
      }
    } else if size == 0 {
      InBlock(bs, index, r);
    }
  }

  lemma StartsAt(bs: nat, offset: nat)
    requires bs > 0
    ensures Stands(bs, offset, 0, offset / bs, offset % bs)
  {}

  lemma QuotientAtLeast(bs: nat, q: nat, e: nat)
    requires bs > 0 && e >= bs * q
    ensures e / bs >= q
  {
    var d := q - e / bs;
    assert bs * d == bs * q - bs * (e / bs);
    MultipleGrows(bs, d);
  }

  /**
   The loop of Encrypt and of Decrypt, which for counter mode do the same to each block. Every byte of the stretch of
   the buffer gets the keystream's byte at its own position in the file. If the cipher fails, the blocks before the
   one it failed for are done and the rest is as it was.
   */
  method CryptAll(st: Stream, fileOffset: nat, data: array<Byte>, at: nat, size: nat) returns (ok: bool, done: nat)
    requires Usable(st) && at + size <= data.Length
    modifies data
    ensures ok <==> Works(st, fileOffset / st.cipher.blockSize, LastBlock(st, fileOffset, size))
    ensures done <= size && Crypted(st, data[..], old(data[..]), at, done, fileOffset) && (ok ==> done == size)
  {
    var blockSize := st.cipher.blockSize;
    var blockIndex: nat, blockOffset: nat := fileOffset / blockSize, fileOffset % blockSize;
    var k: nat := 0;
    ghost var first, last := blockIndex, LastBlock(st, fileOffset, size);
    StartsAt(blockSize, fileOffset);
    while true
      invariant k <= size && (k == size ==> size == 0) && Stands(blockSize, fileOffset, k, blockIndex, blockOffset)
      invariant first <= blockIndex && Works(st, first, blockIndex - 1)
      invariant Crypted(st, data[..], old(data[..]), at, k, fileOffset)
      decreases size - k
    {
      var n := if size - k < blockSize - blockOffset then size - k else blockSize - blockOffset;
      NextBlock(blockSize, fileOffset, size, k, blockIndex, blockOffset, n);
      ghost var mid := data[..];
      ok := CryptPart(st, blockIndex, blockOffset, data, at + k, n, fileOffset, k);
      if !ok {
        return false, k;
      }
      CryptedMore(st, data[..], mid, old(data[..]), at, k, n, fileOffset);
      k := k + n;
      if k == size {
        return true, size;
      }
      blockOffset, blockIndex := 0, blockIndex + 1;
    }
  }

  /** Encrypt or decrypt a copy of the data. */
  method CryptCopy(st: Stream, fileOffset: nat, data: seq<Byte>) returns (ok: bool, r: seq<Byte>)
    requires Usable(st)
    ensures ok <==> Works(st, fileOffset / st.cipher.blockSize, LastBlock(st, fileOffset, |data|))
    ensures ok ==> r == Crypt(st, fileOffset, data)
  {
    var buf := new Byte[|data|](i requires 0 <= i < |data| => data[i]);
    assert buf[..] == data;
    var done;
    ok, done := CryptAll(st, fileOffset, buf, 0, |data|);
    r := buf[..];
    CryptedIs(st, r, data, 0, done, fileOffset);
    assert data[0..|data|] == data;
  }
}
