/** The hash function of FIPS 180-4, on messages of whole bytes. */
module Sha256Standard {
  import opened Bytes
  import opened Endian

  type Word = bv32

  // ---- Section 4.1.2: functions ----

  function Ch(x: Word, y: Word, z: Word): Word { (x & y) ^ (!x & z) }
  function Maj(x: Word, y: Word, z: Word): Word { (x & y) ^ (x & z) ^ (y & z) }
  function BigSigma0(x: Word): Word { x.RotateRight(2) ^ x.RotateRight(13) ^ x.RotateRight(22) }
  function BigSigma1(x: Word): Word { x.RotateRight(6) ^ x.RotateRight(11) ^ x.RotateRight(25) }
  function SmallSigma0(x: Word): Word { x.RotateRight(7) ^ x.RotateRight(18) ^ (x >> 3) }
  function SmallSigma1(x: Word): Word { x.RotateRight(17) ^ x.RotateRight(19) ^ (x >> 10) }

  // ---- Sections 4.2.2 and 5.3.3: constants ----

  const ROUND_CONSTANTS: seq<Word> :=
    (([0x428a2f98, 0x71374491, 0xb5c0fbcf, 0xe9b5dba5, 0x3956c25b, 0x59f111f1, 0x923f82a4, 0xab1c5ed5] +
      [0xd807aa98, 0x12835b01, 0x243185be, 0x550c7dc3, 0x72be5d74, 0x80deb1fe, 0x9bdc06a7, 0xc19bf174]) +
     ([0xe49b69c1, 0xefbe4786, 0x0fc19dc6, 0x240ca1cc, 0x2de92c6f, 0x4a7484aa, 0x5cb0a9dc, 0x76f988da] +
      [0x983e5152, 0xa831c66d, 0xb00327c8, 0xbf597fc7, 0xc6e00bf3, 0xd5a79147, 0x06ca6351, 0x14292967])) +
    (([0x27b70a85, 0x2e1b2138, 0x4d2c6dfc, 0x53380d13, 0x650a7354, 0x766a0abb, 0x81c2c92e, 0x92722c85] +
      [0xa2bfe8a1, 0xa81a664b, 0xc24b8b70, 0xc76c51a3, 0xd192e819, 0xd6990624, 0xf40e3585, 0x106aa070]) +
     ([0x19a4c116, 0x1e376c08, 0x2748774c, 0x34b0bcb5, 0x391c0cb3, 0x4ed8aa4a, 0x5b9cca4f, 0x682e6ff3] +
      [0x748f82ee, 0x78a5636f, 0x84c87814, 0x8cc70208, 0x90befffa, 0xa4506ceb, 0xbef9a3f7, 0xc67178f2]))

  function K(t: nat): Word
    requires t < 64
  {
    ROUND_CONSTANTS[t]
  }

  const INITIAL_HASH: Hash := Hash(0x6a09e667, 0xbb67ae85, 0x3c6ef372, 0xa54ff53a,
                                   0x510e527f, 0x9b05688c, 0x1f83d9ab, 0x5be0cd19)

  /** Eight words: a hash value, and the working variables of a block. */
  datatype Hash = Hash(a: Word, b: Word, c: Word, d: Word, e: Word, f: Word, g: Word, h: Word)

  function Plus(x: Word, y: Word): Word { x + y }

  // ---- Section 6.2.2: one block ----

  /** The word with these bytes, most significant byte first. */
  function WordOf(b0: byte, b1: byte, b2: byte, b3: byte): Word {
    ((b0 as Word) << 24) | ((b1 as Word) << 16) | ((b2 as Word) << 8) | (b3 as Word)
  }

  /** The message schedule. */
  function W(block: seq<byte>, t: nat): Word
    requires |block| == 64
  {
    if t < 16 then WordOf(block[4 * t], block[4 * t + 1], block[4 * t + 2], block[4 * t + 3])
    else Plus(Plus(Plus(SmallSigma1(W(block, t - 2)), W(block, t - 7)), SmallSigma0(W(block, t - 15))),
              W(block, t - 16))
  }

  /** Step 3 for one t. */
  function Round(v: Hash, k: Word, w: Word): Hash {
    var t1 := Plus(Plus(Plus(Plus(v.h, BigSigma1(v.e)), Ch(v.e, v.f, v.g)), k), w);
    var t2 := Plus(BigSigma0(v.a), Maj(v.a, v.b, v.c));
    Hash(Plus(t1, t2), v.a, v.b, v.c, Plus(v.d, t1), v.e, v.f, v.g)
  }

  /** The working variables after the first n rounds. */
  function Rounds(v: Hash, block: seq<byte>, n: nat): Hash
    requires |block| == 64 && n <= 64
  {
    if n == 0 then v else Round(Rounds(v, block, n - 1), K(n - 1), W(block, n - 1))
  }

  function Added(x: Hash, y: Hash): Hash {
    Hash(Plus(x.a, y.a), Plus(x.b, y.b), Plus(x.c, y.c), Plus(x.d, y.d),
         Plus(x.e, y.e), Plus(x.f, y.f), Plus(x.g, y.g), Plus(x.h, y.h))
  }

  function Compress(h: Hash, block: seq<byte>): Hash
    requires |block| == 64
  {
    Added(h, Rounds(h, block, 64))
  }

  /** The hash value after all blocks of a padded message. */
  function HashBlocks(message: seq<byte>): Hash
    requires |message| % 64 == 0
  {
    if message == [] then INITIAL_HASH
    else Compress(HashBlocks(message[..|message| - 64]), message[|message| - 64..])
  }

  lemma OneBlockMore(message: seq<byte>, block: seq<byte>)
    requires |message| % 64 == 0 && |block| == 64
    ensures HashBlocks(message + block) == Compress(HashBlocks(message), block)
  {
    assert (message + block)[..|message|] == message;
    assert (message + block)[|message|..] == block;
  }

  // ---- Section 5.1.1: padding ----

  function Zeros(n: nat): (z: seq<byte>)
    ensures |z| == n
  {
    seq(n, _ => 0)
  }

  /** The number of zero bytes between the 0x80 byte and the length. */
  function ZeroCount(length: nat): (k: nat)
    ensures k < 64 && (length + 1 + k + 8) % 64 == 0
  {
    (119 - length % 64) % 64
  }

  const MAX_BYTES: nat := 0x2000_0000_0000_0000
  const TWO_TO_64: nat := 0x1_0000_0000_0000_0000

  function LengthField(message: seq<byte>): (bytes: seq<byte>)
    ensures |bytes| == 8
  {
    BigEndian(8 * |message| % TWO_TO_64, 8)
  }

  /** The message, a one bit, zeros, and the length in bits, modulo 2^64, in 64 bits. */
  function Padded(message: seq<byte>): (p: seq<byte>)
    ensures |p| % 64 == 0
  {
    message + [0x80] + Zeros(ZeroCount(|message|)) + LengthField(message)
  }

  /** Byte i of a word, counted from the most significant one. */
  function ByteOf(w: Word, i: nat): byte
    requires i < 4
  {
    var shifted := if i == 0 then w >> 24 else if i == 1 then w >> 16 else if i == 2 then w >> 8 else w;
    (shifted & 0xff) as byte
  }

  function BytesOf(words: seq<Word>): (bytes: seq<byte>)
    ensures |bytes| == 4 * |words|
  {
    if words == [] then []
    else [ByteOf(words[0], 0), ByteOf(words[0], 1), ByteOf(words[0], 2), ByteOf(words[0], 3)] + BytesOf(words[1..])
  }

  function HashBytes(v: Hash): (bytes: seq<byte>)
    ensures |bytes| == 32
  {
    BytesOf([v.a, v.b, v.c, v.d, v.e, v.f, v.g, v.h])
  }

  /** The message digest. */
  function Digest(message: seq<byte>): (bytes: seq<byte>)
    ensures |bytes| == 32
  {
    HashBytes(HashBlocks(Padded(message)))
  }

  /** The padding of section 5.1.1: as few zero bytes as make the length of everything a multiple
      of 512 bits, and a last field from which the length of the message can be read. */
  lemma PaddingMeaning(message: seq<byte>)
    requires |message| < MAX_BYTES
    ensures var p := Padded(message);
            && |message| + 9 <= |p| < |message| + 9 + 64
            && message <= p && p[|message|] == 0x80
            && (forall i | |message| < i < |p| - 8 :: p[i] == 0)
            && Value(p[|p| - 8..]) == 8 * |message|
  {
    var z, bits := Zeros(ZeroCount(|message|)), BigEndian(8 * |message|, 8);
    assert 8 * |message| % TWO_TO_64 == 8 * |message|;
    PaddingLayout(message, z, bits);
    Powers();
    ValueOfBigEndian(8 * |message|, 8);
  }

  lemma PaddingLayout(message: seq<byte>, z: seq<byte>, bits: seq<byte>)
    requires |bits| == 8 && forall i | 0 <= i < |z| :: z[i] == 0
    ensures var p := message + [0x80] + z + bits;
            && message <= p && p[|message|] == 0x80 && p[|p| - 8..] == bits
            && forall i | |message| < i < |p| - 8 :: p[i] == 0
  {
  }

  lemma Powers()
    ensures Pow256(0) == 1 && Pow256(1) == 0x100 && Pow256(2) == 0x1_0000 && Pow256(3) == 0x100_0000
    ensures Pow256(4) == 0x1_0000_0000 && Pow256(5) == 0x100_0000_0000 && Pow256(6) == 0x1_0000_0000_0000
    ensures Pow256(7) == 0x100_0000_0000_0000 && Pow256(8) == TWO_TO_64
  {
  }

  /** Different messages are padded differently. */
  lemma PaddingInjective(m: seq<byte>, n: seq<byte>)
    requires |m| < MAX_BYTES && |n| < MAX_BYTES && Padded(m) == Padded(n)
    ensures m == n
  {
    PaddingMeaning(m);
    PaddingMeaning(n);
    assert m == Padded(m)[..|m|] && n == Padded(n)[..|n|];
  }
}

/** The streaming implementation (class Sha256Context of src/raze_update.cpp). */
module Sha256 {
  import opened Bytes
  import opened Endian
  import opened Sha256Standard

  // ---- The macros: rotations written as two shifts ----

  function Ep0(x: Word): (r: Word)
    ensures r == BigSigma0(x)
  {
    ((x >> 2) | (x << 30)) ^ ((x >> 13) | (x << 19)) ^ ((x >> 22) | (x << 10))
  }

  function Ep1(x: Word): (r: Word)
    ensures r == BigSigma1(x)
  {
    ((x >> 6) | (x << 26)) ^ ((x >> 11) | (x << 21)) ^ ((x >> 25) | (x << 7))
  }

  function Sig0(x: Word): (r: Word)
    ensures r == SmallSigma0(x)
  {
    ((x >> 7) | (x << 25)) ^ ((x >> 18) | (x << 14)) ^ (x >> 3)
  }

  function Sig1(x: Word): (r: Word)
    ensures r == SmallSigma1(x)
  {
    ((x >> 17) | (x << 15)) ^ ((x >> 19) | (x << 13)) ^ (x >> 10)
  }

  function AsHash(s: seq<Word>): Hash
    requires |s| == 8
  {
    Hash(s[0], s[1], s[2], s[3], s[4], s[5], s[6], s[7])
  }

  lemma {:induction false} BytesOfAt(words: seq<Word>, j: nat)
    requires j < 4 * |words|
    ensures BytesOf(words)[j] == ByteOf(words[j / 4], j % 4)
  {
    hide ByteOf;
    if j >= 4 {
      BytesOfAt(words[1..], j - 4);
    }
  }

  lemma HashByteAt(s: seq<Word>, j: nat)
    requires |s| == 8 && j < 32
    ensures HashBytes(AsHash(s))[j] == ByteOf(s[j / 4], j % 4)
  {
    hide ByteOf, BytesOf;
    BytesOfAt(s, j);
    assert [s[0], s[1], s[2], s[3], s[4], s[5], s[6], s[7]] == s;
  }

  lemma Regrouped(m: seq<byte>, k: nat, mark: seq<byte>, z: seq<byte>, bits: seq<byte>)
    requires k <= |m|
    ensures m + mark + z + bits == m[..k] + (m[k..] + mark + z + bits)
    ensures m + mark + z == m[..k] + (m[k..] + mark + z)
  {
    assert m == m[..k] + m[k..];
  }

  lemma ZerosConcat(i: nat, j: nat)
    ensures Zeros(i) + Zeros(j) == Zeros(i + j)
  {
  }

  lemma Reassociated(m: seq<byte>, z: seq<byte>, z': seq<byte>, bits: seq<byte>)
    ensures m + (z + z') + bits == m + z + (z' + bits)
  {
  }

  function Blocks(message: seq<byte>): (blocks: seq<byte>)
    ensures |blocks| == |message| - |message| % 64 && |blocks| % 64 == 0
  {
    message[..|message| - |message| % 64]
  }

  function Rest(message: seq<byte>): (rest: seq<byte>)
    ensures |rest| == |message| % 64
  {
    message[|message| - |message| % 64..]
  }

  lemma LengthBytes(n: nat)
    ensures BigEndian(n, 8) ==
            [(n / 0x100_0000_0000_0000 % 0x100) as byte, (n / 0x1_0000_0000_0000 % 0x100) as byte,
             (n / 0x100_0000_0000 % 0x100) as byte, (n / 0x1_0000_0000 % 0x100) as byte,
             (n / 0x100_0000 % 0x100) as byte, (n / 0x1_0000 % 0x100) as byte,
             (n / 0x100 % 0x100) as byte, (n % 0x100) as byte]
  {
    hide BigEndian;
    Powers();
    BigEndianAt(n, 8, 0);
    BigEndianAt(n, 8, 1);
    BigEndianAt(n, 8, 2);
    BigEndianAt(n, 8, 3);
    BigEndianAt(n, 8, 4);
    BigEndianAt(n, 8, 5);
    BigEndianAt(n, 8, 6);
    BigEndianAt(n, 8, 7);
  }

  /** The padding fits behind the rest of the message. */
  lemma ShortPadding(message: seq<byte>)
    requires |message| % 64 < 56
    ensures HashBlocks(Padded(message)) ==
            Compress(HashBlocks(Blocks(message)),
                     Rest(message) + [0x80] + Zeros(55 - |message| % 64) + LengthField(message))
  {
    hide HashBlocks, Compress, Zeros, LengthField;
    var z, bits := Zeros(55 - |message| % 64), LengthField(message);
    Regrouped(message, |message| - |message| % 64, [0x80], z, bits);
    OneBlockMore(Blocks(message), Rest(message) + [0x80] + z + bits);
  }

  /** The length needs a block of its own. */
  lemma LongPadding(message: seq<byte>)
    requires 56 <= |message| % 64
    ensures HashBlocks(Padded(message)) ==
            Compress(Compress(HashBlocks(Blocks(message)), Rest(message) + [0x80] + Zeros(63 - |message| % 64)),
                     Zeros(56) + LengthField(message))
  {
    hide HashBlocks, Compress, Padded, Zeros, LengthField, Rest;
    var next := Rest(message) + [0x80] + Zeros(63 - |message| % 64);
    PaddedLong(message);
    OneBlockMore(Blocks(message), next);
    OneBlockMore(Blocks(message) + next, Zeros(56) + LengthField(message));
  }

  lemma PaddedLong(message: seq<byte>)
    requires 56 <= |message| % 64
    ensures Padded(message) ==
            Blocks(message) + (Rest(message) + [0x80] + Zeros(63 - |message| % 64)) + (Zeros(56) + LengthField(message))
  {
    hide Zeros, LengthField;
    var z, bits := Zeros(63 - |message| % 64), LengthField(message);
    ZerosConcat(63 - |message| % 64, 56);
    Reassociated(message + [0x80], z, Zeros(56), bits);
    Regrouped(message, |message| - |message| % 64, [0x80], z, bits);
  }

  /** What one more byte does to the complete blocks and to the rest. */
  lemma BufferGrows(message: seq<byte>, b: byte)
    ensures var m := message + [b];
            && (|message| % 64 < 63 ==> Blocks(m) == Blocks(message) && Rest(m) == Rest(message) + [b])
            && (|message| % 64 == 63 ==> Blocks(m) == m && Rest(m) == [] &&
                                         HashBlocks(m) == Compress(HashBlocks(Blocks(message)), Rest(message) + [b]))
  {
    hide HashBlocks, Compress;
    var m := message + [b];
    assert m == Blocks(message) + (Rest(message) + [b]);
    if |message| % 64 == 63 {
      OneBlockMore(Blocks(message), Rest(message) + [b]);
    }
  }

  lemma NothingYet()
    ensures Blocks([]) == [] && Rest([]) == []
  {
  }

  lemma BitsGrow(k: nat, bytes: nat)
    ensures (8 * k % TWO_TO_64 + 8 * bytes) % TWO_TO_64 == 8 * (k + bytes) % TWO_TO_64
  {
  }

  /** One word of the schedule. */
  lemma WordAt(block: seq<byte>, t: nat)
    requires |block| == 64
    ensures t < 16 ==> W(block, t) == WordOf(block[4 * t], block[4 * t + 1], block[4 * t + 2], block[4 * t + 3])
    ensures t >= 16 ==> W(block, t) == Plus(Plus(Plus(SmallSigma1(W(block, t - 2)), W(block, t - 7)),
                                                SmallSigma0(W(block, t - 15))), W(block, t - 16))
  {
    hide Plus, WordOf, SmallSigma0, SmallSigma1;
  }

  class Context {
    const data: array<byte>
    const state: array<Word>
    var dataLen: nat
    var bitLen: nat
    /** Everything that was passed to Update. */
    ghost var message: seq<byte>

    ghost predicate Shape() {
      data.Length == 64 && state.Length == 8
    }

    /** The state covers the complete blocks and the buffer holds the rest. */
    ghost predicate Valid()
      reads this, data, state
    {
      && Shape() && dataLen == |message| % 64
      && data[..dataLen] == Rest(message)
      && AsHash(state[..]) == HashBlocks(Blocks(message))
      && bitLen == 8 * |Blocks(message)| % TWO_TO_64
    }

    constructor ()
      ensures Valid() && message == [] && fresh(data) && fresh(state)
    {
      hide HashBlocks, AsHash, Blocks, Rest;
      data := new byte[64](_ => 0);
      state := new Word[8];
      dataLen, bitLen := 0, 0;
      message := [];
      new;
      InitState();
      NothingYet();
    }

    method InitState()
      requires Shape()
      modifies state
      ensures AsHash(state[..]) == HashBlocks([])
    {
      state[0] := 0x6a09e667;
      state[1] := 0xbb67ae85;
      state[2] := 0x3c6ef372;
      state[3] := 0xa54ff53a;
      state[4] := 0x510e527f;
      state[5] := 0x9b05688c;
      state[6] := 0x1f83d9ab;
      state[7] := 0x5be0cd19;
    }

    method Schedule() returns (words: array<Word>)
      requires Shape()
      ensures fresh(words) && words.Length == 64
      ensures forall t | 0 <= t < 64 :: words[t] == W(data[..], t)
    {
      hide Plus, WordOf, SmallSigma0, SmallSigma1, Sig0, Sig1, W;
      words := new Word[64];
      var index := 0;
      for t := 0 to 16
        invariant index == 4 * t && forall i | 0 <= i < t :: words[i] == W(data[..], i)
      {
        WordAt(data[..], t);
        words[t] := WordOf(data[index], data[index + 1], data[index + 2], data[index + 3]);
        index := index + 4;
      }
      for t := 16 to 64
        invariant forall i | 0 <= i < t :: words[i] == W(data[..], i)
      {
        WordAt(data[..], t);
        words[t] := Plus(Plus(Plus(Sig1(words[t - 2]), words[t - 7]), Sig0(words[t - 15])), words[t - 16]);
      }
    }

    method Transform()
      requires Shape()
      modifies state
      ensures AsHash(state[..]) == Compress(old(AsHash(state[..])), old(data[..]))
    {
      hide Plus, Ch, Maj, BigSigma0, BigSigma1, Ep0, Ep1, K;
      var words := Schedule();
      ghost var block, start := data[..], AsHash(state[..]);
      var a, b, c, d := state[0], state[1], state[2], state[3];
      var e, f, g, h := state[4], state[5], state[6], state[7];
      for t := 0 to 64
        invariant Hash(a, b, c, d, e, f, g, h) == Rounds(start, block, t)
      {
        var t1 := Plus(Plus(Plus(Plus(h, Ep1(e)), Ch(e, f, g)), K(t)), words[t]);
        var t2 := Plus(Ep0(a), Maj(a, b, c));
        h := g;
        g := f;
        f := e;
        e := Plus(d, t1);
        d := c;
        c := b;
        b := a;
        a := Plus(t1, t2);
      }
      AddToState(Hash(a, b, c, d, e, f, g, h));
    }

    method AddToState(v: Hash)
      requires Shape()
      modifies state
      ensures AsHash(state[..]) == Added(old(AsHash(state[..])), v)
    {
      hide Plus;
      state[0] := Plus(state[0], v.a);
      state[1] := Plus(state[1], v.b);
      state[2] := Plus(state[2], v.c);
      state[3] := Plus(state[3], v.d);
      state[4] := Plus(state[4], v.e);
      state[5] := Plus(state[5], v.f);
      state[6] := Plus(state[6], v.g);
      state[7] := Plus(state[7], v.h);
    }

    /** One byte more: the body of the loop of update. */
    method Absorb(b: byte)
      requires Valid()
      modifies this, data, state
      ensures Valid() && message == old(message) + [b]
    {
      hide HashBlocks, Compress, Blocks, Rest;
      BufferGrows(message, b);
      ghost var tail := data[..dataLen];
      data[dataLen] := b;
      dataLen := dataLen + 1;
      message := message + [b];
      assert data[..dataLen] == tail + [b];
      if dataLen == 64 {
        assert data[..] == tail + [b];
        BitsGrow(|message| - 64, 64);
        Transform();
        bitLen := (bitLen + 512) % TWO_TO_64;
        dataLen := 0;
      }
    }

    method Update(chunk: seq<byte>)
      requires Valid()
      modifies this, data, state
      ensures Valid() && message == old(message) + chunk
    {
      hide *;
      for i := 0 to |chunk|
        invariant Valid() && message == old(message) + chunk[..i]
      {
        Absorb(chunk[i]);
        assert chunk[..i + 1] == chunk[..i] + [chunk[i]];
      }
      assert chunk[..|chunk|] == chunk;
    }

    /** Writes zero bytes from index on, up to limit. */
    method FillZeros(index: nat, limit: nat)
      requires Shape() && index <= limit <= 64
      modifies data
      ensures data[..index] == old(data[..index]) && data[index..limit] == Zeros(limit - index)
    {
      for i := index to limit
        invariant data[..index] == old(data[..index]) && forall j | index <= j < i :: data[j] == 0
      {
        data[i] := 0x00;
      }
    }

    method WriteLength()
      requires Shape()
      modifies data
      ensures data[..56] == old(data[..56]) && data[56..] == BigEndian(bitLen, 8)
    {
      hide BigEndian;
      data[63] := (bitLen % 0x100) as byte;
      data[62] := (bitLen / 0x100 % 0x100) as byte;
      data[61] := (bitLen / 0x1_0000 % 0x100) as byte;
      data[60] := (bitLen / 0x100_0000 % 0x100) as byte;
      data[59] := (bitLen / 0x1_0000_0000 % 0x100) as byte;
      data[58] := (bitLen / 0x100_0000_0000 % 0x100) as byte;
      data[57] := (bitLen / 0x1_0000_0000_0000 % 0x100) as byte;
      data[56] := (bitLen / 0x100_0000_0000_0000 % 0x100) as byte;
      LengthBytes(bitLen);
      assert data[56..] == [data[56], data[57], data[58], data[59], data[60], data[61], data[62], data[63]];
    }

    /** The one bit and zeros up to limit. */
    method MarkEnd(limit: nat)
      requires Shape() && dataLen < limit <= 64
      modifies data
      ensures data[..limit] == old(data[..dataLen]) + [0x80] + Zeros(limit - dataLen - 1)
    {
      hide Zeros;
      ghost var tail := data[..dataLen];
      data[dataLen] := 0x80;
      assert data[..dataLen + 1] == tail + [0x80];
      FillZeros(dataLen + 1, limit);
      assert data[..limit] == data[..dataLen + 1] + data[dataLen + 1..limit];
    }

    /** Writes the length behind what the buffer holds and processes the block. */
    method LastBlock()
      requires Shape()
      modifies data, state
      ensures AsHash(state[..]) == Compress(old(AsHash(state[..])), old(data[..56]) + BigEndian(bitLen, 8))
    {
      hide Compress, BigEndian;
      WriteLength();
      assert data[..] == data[..56] + data[56..];
      Transform();
    }

    /** Everything final does before it writes out the state. */
    method Finish()
      requires Valid()
      modifies this, data, state
      ensures Shape() && AsHash(state[..]) == HashBlocks(Padded(old(message)))
    {
      hide HashBlocks, Compress, Padded, BigEndian, Zeros, Blocks, Rest, AsHash;
      if dataLen < 56 {
        ShortPadding(message);
        MarkEnd(56);
      } else {
        LongPadding(message);
        MarkEnd(64);
        assert data[..] == data[..64];
        Transform();
        FillZeros(0, 56);
        assert data[..56] == data[0..56];
      }
      BitsGrow(|Blocks(message)|, dataLen);
      bitLen := (bitLen + dataLen * 8) % TWO_TO_64;
      LastBlock();
    }

    method Final(hash: array<byte>)
      requires Valid() && hash.Length == 32 && hash != data
      modifies this, data, state, hash
      ensures hash[..] == Digest(old(message))
    {
      Finish();
      WriteHash(hash);
    }

    method WriteHash(hash: array<byte>)
      requires Shape() && hash.Length == 32
      modifies hash
      ensures hash[..] == HashBytes(AsHash(state[..]))
    {
      hide ByteOf, HashBytes;
      for index := 0 to 4
        invariant forall i, s | 0 <= i < index && 0 <= s < 8 :: hash[i + 4 * s] == ByteOf(state[s], i)
      {
        for stateIndex := 0 to 8
          invariant forall i, s | 0 <= i < index && 0 <= s < 8 :: hash[i + 4 * s] == ByteOf(state[s], i)
          invariant forall s | 0 <= s < stateIndex :: hash[index + 4 * s] == ByteOf(state[s], index)
        {
          hash[index + stateIndex * 4] := ByteOf(state[stateIndex], index);
        }
      }
      forall j | 0 <= j < 32 ensures hash[j] == HashBytes(AsHash(state[..]))[j] {
        assert j == j % 4 + 4 * (j / 4);
        HashByteAt(state[..], j);
      }
    }
  }
}
