/** The encrypting file wrappers: a plain-text prefix that holds the stream's parameters, and the data after it. */
module EncryptedFiles {
  import opened Basics
  import opened Encryption

  // ---- prefixes

  /** The first block of a prefix holds the initial counter and the second the IV. */
  function StreamOf(c: Cipher, prefix: seq<Byte>): Stream
    requires c.blockSize >= 8 && |prefix| >= 2 * c.blockSize
  {
    Stream(c, prefix[c.blockSize..2 * c.blockSize], DecodeFixed64(prefix))
  }

  /**
   A prefix that begins with a number in eight bytes, fills up that block, and goes on with a block is for the stream
   with that number as its counter and that block as its IV.
   */
  lemma PrefixLayout(c: Cipher, initial: nat, filler: seq<Byte>, iv: seq<Byte>, rest: seq<Byte>)
    requires c.blockSize >= 8 && initial < Two64 && |filler| == c.blockSize - 8 && |iv| == c.blockSize
    ensures StreamOf(c, EncodeFixed64(initial) + filler + iv + rest) == Stream(c, iv, initial)
  {
    var prefix := EncodeFixed64(initial) + filler + iv + rest;
    FixedRoundTrip(initial, []);
    assert prefix[..8] == EncodeFixed64(initial) == (EncodeFixed64(initial) + [])[..8];
    assert prefix[c.blockSize..2 * c.blockSize] == iv;
  }

  /** The prefix for a new file, from random bytes: all but its first two blocks is encrypted as if at offset zero. */
  method CreateNewPrefix(c: Cipher, prefix: array<Byte>, random: seq<Byte>) returns (ok: bool)
    requires Sound(c) && prefix.Length == |random| >= 2 * c.blockSize
    modifies prefix
    ensures prefix[..2 * c.blockSize] == random[..2 * c.blockSize]
    ensures ok <==> Works(StreamOf(c, random), 0, LastBlock(StreamOf(c, random), 0, |random| - 2 * c.blockSize))
    ensures ok ==> prefix[2 * c.blockSize..] == Crypt(StreamOf(c, random), 0, random[2 * c.blockSize..])
  {
    for i := 0 to prefix.Length
      invariant prefix[..i] == random[..i]
    {
      prefix[i] := random[i];
    }
    assert prefix[..] == random;
    var skip := 2 * c.blockSize;
    var st := Stream(c, prefix[c.blockSize..skip], DecodeFixed64(prefix[..]));
    var done;
    ok, done := CryptAll(st, 0, prefix, skip, prefix.Length - skip);
    CryptedIs(st, prefix[..], random, skip, done, 0);
    assert random[skip..|random|] == random[skip..];
    assert prefix[..][..skip] == random[..skip];
    assert ok ==> prefix[..][skip..] == Crypt(st, 0, random[skip..]);
  }

  datatype Opened = Opened(stream: Stream, secret: seq<Byte>) | Corruption | CipherFailed

  /** The stream for a file with this prefix, and the decrypted part of the prefix. */
  method CreateCipherStream(c: Cipher, prefix: seq<Byte>) returns (r: Opened)
    requires Sound(c)
    ensures r.Corruption? <==> |prefix| < 2 * c.blockSize
    ensures |prefix| >= 2 * c.blockSize ==>
      var st := StreamOf(c, prefix);
      r.Opened? <==> Works(st, 0, LastBlock(st, 0, |prefix| - 2 * c.blockSize))
    ensures r.Opened? ==> r.stream == StreamOf(c, prefix) && Usable(r.stream)
    ensures r.Opened? ==> r.secret == Crypt(r.stream, 0, prefix[2 * c.blockSize..])
  {
    var skip := 2 * c.blockSize;
    if |prefix| < skip {
      return Corruption;
    }
    var st := Stream(c, prefix[c.blockSize..skip], DecodeFixed64(prefix));
    var ok, secret := CryptCopy(st, 0, prefix[skip..]);
    r := if ok then Opened(st, secret) else CipherFailed;
  }

  /** Opening a file gives the stream it was made with, and the secret part of its prefix. */
  lemma PrefixRoundTrip(c: Cipher, random: seq<Byte>, prefix: seq<Byte>)
    requires Sound(c) && |prefix| == |random| >= 2 * c.blockSize
    requires prefix[..2 * c.blockSize] == random[..2 * c.blockSize]
    requires prefix[2 * c.blockSize..] == Crypt(StreamOf(c, random), 0, random[2 * c.blockSize..])
    ensures StreamOf(c, prefix) == StreamOf(c, random)
    ensures Crypt(StreamOf(c, prefix), 0, prefix[2 * c.blockSize..]) == random[2 * c.blockSize..]
  {
    SameStream(c, prefix, random);
    CryptUndone(StreamOf(c, random), 0, random[2 * c.blockSize..]);
  }

  lemma SameStream(c: Cipher, a: seq<Byte>, b: seq<Byte>)
    requires c.blockSize >= 8 && |a| >= 2 * c.blockSize && |b| >= 2 * c.blockSize
    requires a[..2 * c.blockSize] == b[..2 * c.blockSize]
    ensures StreamOf(c, a) == StreamOf(c, b)
  {
    var n := 2 * c.blockSize;
    assert a[..8] == a[..n][..8] && b[..8] == b[..n][..8];
    assert a[c.blockSize..n] == a[..n][c.blockSize..] && b[c.blockSize..n] == b[..n][c.blockSize..];
  }

  // ---- files

  /** What a positioned write does: it may overwrite, and it may leave a hole. */
  function Overwrite(s: seq<Byte>, offset: nat, data: seq<Byte>): (r: seq<Byte>)
    ensures |r| == if |data| == 0 || offset + |data| <= |s| then |s| else offset + |data|
  {
    if |data| == 0 then s
    else if offset + |data| <= |s| then s[..offset] + data + s[offset + |data|..]
    else if offset <= |s| then s[..offset] + data
    else s + seq(offset - |s|, _ => 0) + data
  }

  /** The plain text of a file. */
  ghost function Plain(st: Stream, prefixLength: nat, file: seq<Byte>): (r: seq<Byte>)
    requires Usable(st) && prefixLength <= |file|
    ensures |r| == |file| - prefixLength
  {
    Crypt(st, prefixLength, file[prefixLength..])
  }

  /** A read window of the file, decrypted at its shifted offset, is that window of the plain text. */
  lemma WindowDecrypts(st: Stream, prefixLength: nat, file: seq<Byte>, offset: nat, n: nat)
    requires Usable(st) && prefixLength <= |file|
    ensures Crypt(st, prefixLength + offset, Window(file, prefixLength + offset, n)) ==
      Window(Plain(st, prefixLength, file), offset, n)
  {
    if prefixLength + offset < |file| {
      var body := file[prefixLength..];
      var end := if offset + n <= |body| then offset + n else |body|;
      CryptWindow(st, prefixLength, body, offset, end);
      assert Window(file, prefixLength + offset, n) == body[offset..end];
      assert Window(Plain(st, prefixLength, file), offset, n) == Plain(st, prefixLength, file)[offset..end];
    }
  }

  /** What an append does to the file. */
  ghost function Appended(st: Stream, file: seq<Byte>, data: seq<Byte>): seq<Byte>
    requires Usable(st)
  {
    file + Crypt(st, |file|, data)
  }

  lemma AppendedPlain(st: Stream, prefixLength: nat, file: seq<Byte>, data: seq<Byte>)
    requires Usable(st) && prefixLength <= |file|
    ensures Plain(st, prefixLength, Appended(st, file, data)) == Plain(st, prefixLength, file) + data
  {
    var body := file[prefixLength..];
    assert Appended(st, file, data)[prefixLength..] == body + Crypt(st, |file|, data);
    CryptJoin(st, prefixLength, body, Crypt(st, |file|, data));
    CryptUndone(st, |file|, data);
  }

  /** What a positioned write leaves: the data there, and all else as it was. */
  ghost predicate Written(now: seq<Byte>, was: seq<Byte>, offset: nat, data: seq<Byte>) {
    && |now| == (if |data| == 0 || offset + |data| <= |was| then |was| else offset + |data|)
    && (forall i :: 0 <= i < |data| ==> now[offset + i] == data[i])
    && (forall i :: 0 <= i < |was| && !(offset <= i < offset + |data|) ==> now[i] == was[i])
  }

  /** What is between the old end of a file and a place beyond it: zeros on disk, hence the keystream in plain text. */
  ghost predicate Hole(st: Stream, prefixLength: nat, now: seq<Byte>, from: nat, to: nat)
    requires Usable(st)
  {
    forall i :: from <= i < to && i < |now| ==> now[i] == KeyByte(st, prefixLength + i)
  }

  lemma OverwriteWrites(s: seq<Byte>, offset: nat, data: seq<Byte>)
    ensures Written(Overwrite(s, offset, data), s, offset, data)
    ensures forall i :: |s| <= i < offset && i < |Overwrite(s, offset, data)| ==> Overwrite(s, offset, data)[i] == 0
  {}

  lemma {:induction false} XorZero(b: nat)
    ensures XorBits(0, b) == b
  {
    if b > 0 { XorZero(b / 2); }
  }

  lemma OverwrittenPlain(st: Stream, prefixLength: nat, file: seq<Byte>, offset: nat, data: seq<Byte>)
    requires Usable(st) && prefixLength <= |file|
    ensures var now := Plain(st, prefixLength,
      Overwrite(file, prefixLength + offset, Crypt(st, prefixLength + offset, data)));
      && Written(now, Plain(st, prefixLength, file), offset, data)
      && Hole(st, prefixLength, now, |file| - prefixLength, offset)
  {
    var enc := Crypt(st, prefixLength + offset, data);
    OverwriteWrites(file, prefixLength + offset, enc);
    WrittenPlain(st, prefixLength, file, Overwrite(file, prefixLength + offset, enc), offset, data);
    ZerosPlain(st, prefixLength, Overwrite(file, prefixLength + offset, enc), |file| - prefixLength, offset);
  }

  lemma ZerosPlain(st: Stream, prefixLength: nat, file: seq<Byte>, from: nat, to: nat)
    requires Usable(st) && prefixLength <= |file|
    requires forall i :: prefixLength + from <= i < prefixLength + to && i < |file| ==> file[i] == 0
    ensures Hole(st, prefixLength, Plain(st, prefixLength, file), from, to)
  {
    var plain := Plain(st, prefixLength, file);
    forall i | from <= i < to && i < |plain| ensures plain[i] == KeyByte(st, prefixLength + i) {
      assert file[prefixLength + i] == 0;
      XorZero(KeyByte(st, prefixLength + i));
    }
  }

  lemma WrittenPlain(st: Stream, prefixLength: nat, was: seq<Byte>, now: seq<Byte>, offset: nat, data: seq<Byte>)
    requires Usable(st) && prefixLength <= |was| <= |now|
    requires Written(now, was, prefixLength + offset, Crypt(st, prefixLength + offset, data))
    ensures Written(Plain(st, prefixLength, now), Plain(st, prefixLength, was), offset, data)
  {
    var enc, plain := Crypt(st, prefixLength + offset, data), Plain(st, prefixLength, now);
    forall i | 0 <= i < |data| ensures plain[offset + i] == data[i] {
      assert now[prefixLength + offset + i] == enc[i];
      XorUndone(data[i], KeyByte(st, prefixLength + offset + i));
    }
    forall i | 0 <= i < |was| - prefixLength && !(offset <= i < offset + |data|)
      ensures plain[i] == Plain(st, prefixLength, was)[i]
    {
      assert now[prefixLength + i] == was[prefixLength + i];
    }
  }

  /**
   What a positioned write does: if the cipher works for the blocks it touches, the plain text has the data at the
   offset, the keystream in a hole that it leaves, and all else as it was; otherwise nothing changes.
   */
  ghost predicate WrittenAt(st: Stream, prefixLength: nat, was: seq<Byte>, now: seq<Byte>, offset: nat, data: seq<Byte>,
                            ok: bool)
    requires Usable(st) && prefixLength <= |was|
  {
    var at := offset + prefixLength;
    && (ok <==> (|data| == 0 || Works(st, at / st.cipher.blockSize, LastBlock(st, at, |data|))))
    && (!ok ==> now == was)
    && |was| <= |now|
    && (ok ==> Written(Plain(st, prefixLength, now), Plain(st, prefixLength, was), offset, data))
    && (ok ==> Hole(st, prefixLength, Plain(st, prefixLength, now), |was| - prefixLength, offset))
  }

  method WriteAt(st: Stream, prefixLength: nat, file: seq<Byte>, offset: nat, data: seq<Byte>)
    returns (ok: bool, r: seq<Byte>)
    requires Usable(st) && prefixLength <= |file|
    ensures WrittenAt(st, prefixLength, file, r, offset, data, ok)
  {
    var dataToWrite := data;
    ok := true;
    if |data| > 0 {
      ok, dataToWrite := CryptCopy(st, offset + prefixLength, data);
      if !ok {
        return false, file;
      }
    }
    assert dataToWrite == Crypt(st, prefixLength + offset, data);
    OverwrittenPlain(st, prefixLength, file, offset, data);
    r := Overwrite(file, prefixLength + offset, dataToWrite);
  }

  // ---- the wrappers; `file` is what the underlying file holds

  class EncryptedWritableFile {
    var file: seq<Byte>
    const stream: Stream
    const prefixLength: nat

    ghost predicate Valid()
      reads this
    {
      Usable(stream) && prefixLength <= |file|
    }

    /** The prefix has been written already. */
    constructor (prefix: seq<Byte>, stream: Stream)
      requires Usable(stream)
      ensures Valid() && file == prefix && this.stream == stream && prefixLength == |prefix|
    {
      file, this.stream, prefixLength := prefix, stream, |prefix|;
    }

    method Append(data: seq<Byte>) returns (ok: bool)
      requires Valid()
      modifies this
      ensures Valid() && file == if ok then Appended(stream, old(file), data) else old(file)
      ensures ok ==> Plain(stream, prefixLength, file) == Plain(stream, prefixLength, old(file)) + data
      ensures ok <==>
        |data| == 0 || Works(stream, |old(file)| / stream.cipher.blockSize, LastBlock(stream, |old(file)|, |data|))
    {
      var dataToAppend := data;
      ok := true;
      if |data| > 0 {
        ok, dataToAppend := CryptCopy(stream, |file|, data);
        if !ok {
          return;
        }
      }
      AppendedPlain(stream, prefixLength, file, data);
      file := file + dataToAppend;
    }

    method PositionedAppend(data: seq<Byte>, offset: nat) returns (ok: bool)
      requires Valid()
      modifies this
      ensures Valid() && WrittenAt(stream, prefixLength, old(file), file, offset, data, ok)
    {
      ok, file := WriteAt(stream, prefixLength, file, offset, data);
    }

    method GetFileSize() returns (n: nat)
      requires Valid()
      ensures n == |Plain(stream, prefixLength, file)|
    {
      n := |file| - prefixLength;
    }

    /** Trim the file, or extend it by zeros on disk. */
    method Truncate(size: nat)
      requires Valid()
      modifies this
      ensures Valid() && |Plain(stream, prefixLength, file)| == size
      ensures var was, now := Plain(stream, prefixLength, old(file)), Plain(stream, prefixLength, file);
        && now[..Min(|was|, size)] == was[..Min(|was|, size)] && Hole(stream, prefixLength, now, |was|, size)
    {
      var n := size + prefixLength;
      ghost var was := file;
      file := if n <= |file| then file[..n] else file + seq(n - |file|, _ => 0);
      Kept(stream, prefixLength, was, file, Min(|was| - prefixLength, size));
      ZerosPlain(stream, prefixLength, file, |was| - prefixLength, size);
    }
  }

  /** Bytes of a file that are the same are the same in plain text. */
  lemma Kept(st: Stream, prefixLength: nat, was: seq<Byte>, now: seq<Byte>, n: nat)
    requires Usable(st) && prefixLength + n <= |was| && prefixLength + n <= |now|
    requires was[..prefixLength + n] == now[..prefixLength + n]
    ensures Plain(st, prefixLength, now)[..n] == Plain(st, prefixLength, was)[..n]
  {
    forall i | 0 <= i < n ensures Plain(st, prefixLength, now)[i] == Plain(st, prefixLength, was)[i] {
      assert now[..prefixLength + n][prefixLength + i] == was[..prefixLength + n][prefixLength + i];
    }
  }

  /** Read a window of the file and decrypt it where it lies. */
  method ReadAt(st: Stream, prefixLength: nat, file: seq<Byte>, offset: nat, n: nat) returns (ok: bool, r: seq<Byte>)
    requires Usable(st) && prefixLength <= |file|
    ensures ok ==> r == Window(Plain(st, prefixLength, file), offset, n)
    ensures ok <==> Works(st, (offset + prefixLength) / st.cipher.blockSize,
                          LastBlock(st, offset + prefixLength, |Window(file, offset + prefixLength, n)|))
  {
    ok, r := CryptCopy(st, offset + prefixLength, Window(file, offset + prefixLength, n));
    WindowDecrypts(st, prefixLength, file, offset, n);
  }

  class EncryptedRandomRWFile {
    var file: seq<Byte>
    const stream: Stream
    const prefixLength: nat

    ghost predicate Valid()
      reads this
    {
      Usable(stream) && prefixLength <= |file|
    }

    constructor (file: seq<Byte>, stream: Stream, prefixLength: nat)
      requires Usable(stream) && prefixLength <= |file|
      ensures Valid() && this.file == file && this.stream == stream && this.prefixLength == prefixLength
    {
      this.file, this.stream, this.prefixLength := file, stream, prefixLength;
    }

    method Write(offset: nat, data: seq<Byte>) returns (ok: bool)
      requires Valid()
      modifies this
      ensures Valid() && WrittenAt(stream, prefixLength, old(file), file, offset, data, ok)
    {
      ok, file := WriteAt(stream, prefixLength, file, offset, data);
    }

    method Read(offset: nat, n: nat) returns (ok: bool, r: seq<Byte>)
      requires Valid()
      ensures ok ==> r == Window(Plain(stream, prefixLength, file), offset, n)
      ensures ok <==> Works(stream, (offset + prefixLength) / stream.cipher.blockSize,
                            LastBlock(stream, offset + prefixLength, |Window(file, offset + prefixLength, n)|))
    {
      ok, r := ReadAt(stream, prefixLength, file, offset, n);
    }
  }

  /** `pos` is where the underlying file stands; the wrapper keeps its own idea of that in `offset`. */
  class EncryptedSequentialFile {
    const file: seq<Byte>
    const stream: Stream
    const prefixLength: nat
    var pos: nat
    var offset: nat

    ghost predicate Valid()
      reads this
    {
      Usable(stream) && prefixLength <= pos <= |file|
    }

    /** The wrapper knows where the file stands, or the file is at its end. */
    ghost predicate InStep()
      reads this
    {
      offset == pos || pos == |file|
    }

    constructor (file: seq<Byte>, stream: Stream, prefixLength: nat)
      requires Usable(stream) && prefixLength <= |file|
      ensures Valid() && InStep() && pos == prefixLength && offset == pos
      ensures this.file == file && this.stream == stream && this.prefixLength == prefixLength
    {
      this.file, this.stream, this.prefixLength := file, stream, prefixLength;
      pos, offset := prefixLength, prefixLength;
    }

    method Read(n: nat) returns (ok: bool, r: seq<Byte>)
      requires Valid()
      modifies this
      ensures Valid() && (old(InStep()) ==> InStep()) && pos == old(pos) + |Window(file, old(pos), n)|
      ensures ok <==>
        Works(stream, old(offset) / stream.cipher.blockSize,
              LastBlock(stream, old(offset), |Window(file, old(pos), n)|))
      ensures ok ==> r == Crypt(stream, old(offset), Window(file, old(pos), n))
      ensures ok && old(InStep()) ==> r == Window(Plain(stream, prefixLength, file), old(pos) - prefixLength, n)
    {
      var result := Window(file, pos, n);
      ok, r := CryptCopy(stream, offset, result);
      WindowDecrypts(stream, prefixLength, file, pos - prefixLength, n);
      pos, offset := pos + |result|, offset + |result|;
    }

    /** Skipping stops at the end of the file, but what the wrapper counts does not. */
    method Skip(n: nat)
      requires Valid()
      modifies this
      ensures Valid() && (old(InStep()) ==> InStep()) && pos == if old(pos) + n <= |file| then old(pos) + n else |file|
    {
      pos := if pos + n <= |file| then pos + n else |file|;
      offset := offset + n;
    }

    /** The underlying positioned read does not move the file, but the wrapper takes it to. */
    method PositionedRead(at: nat, n: nat) returns (ok: bool, r: seq<Byte>)
      requires Valid()
      modifies this
      ensures Valid() && pos == old(pos) && offset == at + prefixLength + |Window(file, at + prefixLength, n)|
      ensures InStep() <==> at + prefixLength + |Window(file, at + prefixLength, n)| == pos || pos == |file|
      ensures ok ==> r == Window(Plain(stream, prefixLength, file), at, n)
      ensures ok <==> Works(stream, (at + prefixLength) / stream.cipher.blockSize,
                            LastBlock(stream, at + prefixLength, |Window(file, at + prefixLength, n)|))
    {
      ok, r := ReadAt(stream, prefixLength, file, at, n);
      offset := at + prefixLength + |Window(file, at + prefixLength, n)|;
    }
  }

  // ---- what is written reads back

  function Concat(chunks: seq<seq<Byte>>): seq<Byte> {
    if |chunks| == 0 then [] else Concat(chunks[..|chunks| - 1]) + chunks[|chunks| - 1]
  }

  /** The file after a sequence of appends to a new file with this prefix. */
  ghost function AppendAll(st: Stream, prefix: seq<Byte>, chunks: seq<seq<Byte>>): seq<Byte>
    requires Usable(st)
  {
    if |chunks| == 0 then prefix else Appended(st, AppendAll(st, prefix, chunks[..|chunks| - 1]), chunks[|chunks| - 1])
  }

  lemma {:induction false} AppendAllPlain(st: Stream, prefix: seq<Byte>, chunks: seq<seq<Byte>>)
    requires Usable(st)
    ensures var file := AppendAll(st, prefix, chunks);
      prefix <= file && Plain(st, |prefix|, file) == Concat(chunks)
    decreases |chunks|
  {
    if |chunks| > 0 {
      var front := chunks[..|chunks| - 1];
      AppendAllPlain(st, prefix, front);
      AppendedPlain(st, |prefix|, AppendAll(st, prefix, front), chunks[|chunks| - 1]);
    }
  }

  /**
   Whatever was appended to a new file reads back through any window: the stream derived anew from the prefix on
   disk is the one the file was written with, and decrypting the window at its shifted offset gives the plain text.
   */
  lemma ReadsBack(c: Cipher, prefix: seq<Byte>, chunks: seq<seq<Byte>>, offset: nat, n: nat)
    requires Sound(c) && |prefix| >= 2 * c.blockSize
    ensures var st := StreamOf(c, prefix);
      var file := AppendAll(st, prefix, chunks);
      && prefix <= file && StreamOf(c, file[..|prefix|]) == st
      && Crypt(st, |prefix| + offset, Window(file, |prefix| + offset, n)) == Window(Concat(chunks), offset, n)
  {
    var st := StreamOf(c, prefix);
    AppendAllPlain(st, prefix, chunks);
    assert AppendAll(st, prefix, chunks)[..|prefix|] == prefix;
    WindowDecrypts(st, |prefix|, AppendAll(st, prefix, chunks), offset, n);
  }

  // ---- a positioned read puts the sequential reader out of step

  lemma FirstKey(st: Stream, index: nat)
    requires Usable(st) && st.cipher.blockSize == 8 && st.initial == 0 && index < 256
    requires forall b :: st.cipher.encrypt(b) == Some(b)
    ensures KeyByte(st, 8 * index) == index
  {
    assert CounterBlock(st, index)[0] == index;
  }

  lemma SmallXor()
    ensures Xor(0, 2) == 2 && Xor(0, 3) == 3
  {
    assert XorBits(0, 1) == 1 + 2 * XorBits(0, 0);
  }

  lemma SmallKeys(st: Stream)
    requires Usable(st) && st.cipher.blockSize == 8 && st.initial == 0
    requires forall b :: st.cipher.encrypt(b) == Some(b)
    ensures Crypt(st, 16, [0]) == [2] && Crypt(st, 24, [0]) == [3]
  {
    FirstKey(st, 2);
    FirstKey(st, 3);
    SmallXor();
  }

  /** After a positioned read of a whole file of eight bytes, a sequential read decrypts the first byte wrongly. */
  method ReadAfterPositionedRead() returns (ok: bool, got: seq<Byte>, st: Stream, file: seq<Byte>)
    ensures Usable(st) && |file| == 24 && ok && |got| == 1 && got != Window(Plain(st, 16, file), 0, 1)
  {
    var zeros: seq<Byte> := seq(8, _ => 0);
    st := Stream(Cipher(8, b => Some(b)), zeros, 0);
    file := zeros + zeros + zeros;
    SmallKeys(st);
    assert Window(file, 16, 1) == [0] && |Window(file, 16, 8)| == 8;
    var f := new EncryptedSequentialFile(file, st, 16);
    var ok1, all := f.PositionedRead(0, 8);
    assert f.offset == 24 && f.pos == 16;
    ok, got := f.Read(1);
    assert got == [3];
    WindowDecrypts(st, 16, file, 0, 1);
    assert Window(Plain(st, 16, file), 0, 1) == [2];
  }
}
