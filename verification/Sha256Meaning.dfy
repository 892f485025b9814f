/** What the functions of FIPS 180-4 compute, told without their formulas. */
module Sha256Meaning {
  import opened Bytes
  import opened Endian
  import opened Sha256Standard

  // ---- Addition ----

  lemma PlusIs(x: Word, y: Word)
    ensures Plus(x, y) == x + y
  {
  }

  lemma SumsInTurn(x: Word, y: Word, z: Word)
    ensures Plus(x + y, z) == Plus(x, y + z)
  {
  }

  lemma PlusAssociates(x: Word, y: Word, z: Word)
    ensures Plus(Plus(x, y), z) == Plus(x, Plus(y, z))
  {
    hide Plus;
    PlusIs(x, y);
    PlusIs(y, z);
    SumsInTurn(x, y, z);
  }

  /** Laws that only addition modulo 2^32 has: it is determined by the sums without carries and by doubling. */
  lemma PlusLaws(x: Word, y: Word, z: Word)
    ensures Plus(x, y) == Plus(y, x) && Plus(Plus(x, y), z) == Plus(x, Plus(y, z)) && Plus(x, 0) == x
    ensures Plus(x, x) == x << 1
    ensures x & y == 0 ==> Plus(x, y) == x | y
  {
    PlusAssociates(x, y, z);
    PlusCommutes(x, y);
    PlusDoubles(x);
    if x & y == 0 {
      PlusDisjoint(x, y);
    }
    hide Plus;
  }

  lemma PlusCommutes(x: Word, y: Word)
    ensures Plus(x, y) == Plus(y, x) && Plus(x, 0) == x
  {
  }

  lemma PlusDoubles(x: Word)
    ensures Plus(x, x) == x << 1
  {
  }

  lemma PlusDisjoint(x: Word, y: Word)
    requires x & y == 0
    ensures Plus(x, y) == x | y
  {
  }

  // ---- Choice and majority, bit by bit: m is any mask ----

  /** Where x has ones the bits are those of y, and where it has zeros those of z. */
  lemma ChChooses(x: Word, y: Word, z: Word, m: Word)
    ensures x & m == m ==> Ch(x, y, z) & m == y & m
    ensures x & m == 0 ==> Ch(x, y, z) & m == z & m
  {
  }

  lemma MajFirst(x: Word, y: Word, z: Word, m: Word)
    requires x & m == y & m
    ensures Maj(x, y, z) & m == x & m
  {
  }

  lemma MajOuter(x: Word, y: Word, z: Word, m: Word)
    requires x & m == y & m
    ensures Maj(x, z, y) & m == x & m
  {
  }

  lemma MajLast(x: Word, y: Word, z: Word, m: Word)
    requires x & m == y & m
    ensures Maj(z, x, y) & m == x & m
  {
  }

  /** Where two arguments agree the bits are theirs, whichever two they are. */
  lemma MajAgrees(x: Word, y: Word, z: Word, m: Word)
    requires x & m == y & m
    ensures Maj(x, y, z) & m == x & m && Maj(x, z, y) & m == x & m && Maj(z, x, y) & m == x & m
  {
    MajFirst(x, y, z, m);
    MajOuter(x, y, z, m);
    MajLast(x, y, z, m);
    hide Maj;
  }

  // ---- Words and bytes ----

  lemma SmallWord(w: Word)
    requires w < 0x100
    ensures (w as byte) as Word == w
  {
  }

  lemma Byte0(w: Word)
    ensures (ByteOf(w, 0) as Word) == (w >> 24) & 0xff
  {
    SmallWord((w >> 24) & 0xff);
  }

  lemma Byte1(w: Word)
    ensures (ByteOf(w, 1) as Word) == (w >> 16) & 0xff
  {
    SmallWord((w >> 16) & 0xff);
  }

  lemma Byte2(w: Word)
    ensures (ByteOf(w, 2) as Word) == (w >> 8) & 0xff
  {
    SmallWord((w >> 8) & 0xff);
  }

  lemma Byte3(w: Word)
    ensures (ByteOf(w, 3) as Word) == w & 0xff
  {
    SmallWord(w & 0xff);
  }

  lemma PartsOfWord(w: Word)
    ensures (((w >> 24) & 0xff) << 24) | (((w >> 16) & 0xff) << 16) | (((w >> 8) & 0xff) << 8) | (w & 0xff) == w
  {
  }

  /** The bytes of a word, put together again. */
  lemma WordOfBytes(w: Word)
    ensures WordOf(ByteOf(w, 0), ByteOf(w, 1), ByteOf(w, 2), ByteOf(w, 3)) == w
  {
    hide ByteOf;
    Byte0(w);
    Byte1(w);
    Byte2(w);
    Byte3(w);
    PartsOfWord(w);
  }

  lemma SmallByte(b: byte)
    ensures (b as Word) < 0x100
  {
  }

  lemma PartsInOrder(b0: Word, b1: Word, b2: Word, b3: Word)
    requires b0 < 0x100 && b1 < 0x100 && b2 < 0x100 && b3 < 0x100
    ensures (b0 << 24) | (b1 << 16) | (b2 << 8) | b3 == b0 * 0x100_0000 + b1 * 0x1_0000 + b2 * 0x100 + b3
  {
  }

  /** The first byte weighs most. */
  lemma WordOfMeaning(b0: byte, b1: byte, b2: byte, b3: byte)
    ensures WordOf(b0, b1, b2, b3) ==
            (b0 as Word) * 0x100_0000 + (b1 as Word) * 0x1_0000 + (b2 as Word) * 0x100 + (b3 as Word)
  {
    SmallByte(b0);
    SmallByte(b1);
    SmallByte(b2);
    SmallByte(b3);
    PartsInOrder(b0 as Word, b1 as Word, b2 as Word, b3 as Word);
  }
}

/** The constants of sections 4.2.2 and 5.3.3: the first 32 bits behind the points of roots of primes. */
module Sha256Constants {
  import opened Endian
  import opened Sha256Standard

  predicate Divides(d: nat, n: nat)
    requires d > 0
  {
    n % d == 0
  }

  ghost predicate Prime(n: nat) {
    n >= 2 && forall d | 2 <= d < n :: !Divides(d, n)
  }

  ghost function PrimesBelow(n: nat): nat {
    if n == 0 then 0 else PrimesBelow(n - 1) + if Prime(n - 1) then 1 else 0
  }

  /** Counted from zero. */
  ghost predicate NthPrime(t: nat, p: nat) {
    Prime(p) && PrimesBelow(p) == t
  }

  const TWO_TO_32: nat := 0x1_0000_0000

  /** c, a binary point and the bits of k are the cube root of p, cut off. */
  ghost predicate CubeRoot(c: nat, k: Word, p: nat) {
    var x := c * TWO_TO_32 + k as nat;
    x * x * x <= p * TWO_TO_32 * TWO_TO_32 * TWO_TO_32 < (x + 1) * (x + 1) * (x + 1)
  }

  ghost predicate SquareRoot(c: nat, k: Word, p: nat) {
    var x := c * TWO_TO_32 + k as nat;
    x * x <= p * TWO_TO_32 * TWO_TO_32 < (x + 1) * (x + 1)
  }

  ghost predicate FromCubeRoot(k: Word, t: nat) {
    exists p, c :: NthPrime(t, p) && CubeRoot(c, k, p)
  }

  ghost predicate FromSquareRoot(k: Word, t: nat) {
    exists p, c :: NthPrime(t, p) && SquareRoot(c, k, p)
  }

  /** No prime up to 17 is a proper divisor. */
  predicate Sieved(n: nat) {
    && n >= 2
    && (n == 2 || n % 2 != 0) && (n == 3 || n % 3 != 0) && (n == 5 || n % 5 != 0) && (n == 7 || n % 7 != 0)
    && (n == 11 || n % 11 != 0) && (n == 13 || n % 13 != 0) && (n == 17 || n % 17 != 0)
  }

  lemma DividesAlong(n: nat, d: nat, p: nat)
    requires p > 0 && d > 0 && Divides(p, d) && Divides(d, n)
    ensures Divides(p, n)
  {
    var q := d / p * (n / d);
    assert n == d * (n / d) && d == p * (d / p);
    assert p * (d / p) * (n / d) == p * q;
    QuotientUnique(n, p, q, 0);
  }

  /** Below 18 every number has a divisor in the sieve. */
  lemma SmallDivisor(d: nat) returns (p: nat)
    requires 2 <= d < 18
    ensures p > 0 && Divides(p, d) && p <= d
    ensures p == 2 || p == 3 || p == 5 || p == 7 || p == 11 || p == 13 || p == 17
  {
    p := if d % 2 == 0 then 2 else if d % 3 == 0 then 3 else d;
  }

  lemma SievedDivisor(n: nat, d: nat)
    requires 2 <= d < n && Sieved(n) && Divides(d, n)
    ensures d >= 18
  {
    if d < 18 {
      var p := SmallDivisor(d);
      DividesAlong(n, d, p);
    }
  }

  lemma PrimeIsSieved(n: nat)
    requires Prime(n)
    ensures Sieved(n)
  {
    assert n > 2 ==> !Divides(2, n);
    assert n > 3 ==> !Divides(3, n);
    assert n > 5 ==> !Divides(5, n);
    assert n > 7 ==> !Divides(7, n);
    assert n > 11 ==> !Divides(11, n);
    assert n > 13 ==> !Divides(13, n);
    assert n > 17 ==> !Divides(17, n);
  }

  lemma NoDivisor(n: nat, d: nat)
    requires n < 324 && Sieved(n) && 2 <= d < n
    ensures !Divides(d, n)
  {
    if Divides(d, n) {
      var e := n / d;
      SievedDivisor(n, d);
      hide Sieved;
      assert n == d * e && 2 <= e < n;
      QuotientUnique(n, e, d, 0);
      SievedDivisor(n, e);
      TooLarge(d, e);
    }
  }

  lemma TooLarge(d: nat, e: nat)
    requires d >= 18 && e >= 18
    ensures d * e >= 324
  {
  }

  lemma SievedIsPrime(n: nat)
    requires n < 324
    ensures Sieved(n) <==> Prime(n)
  {
    if Prime(n) {
      PrimeIsSieved(n);
    }
    if Sieved(n) {
      assert n >= 2;
      hide Sieved;
      forall d | 2 <= d < n ensures !Divides(d, n) {
        NoDivisor(n, d);
      }
    }
  }

  /** There is no prime between these two, which are at most 14 apart. */
  predicate NextTo(p: nat, q: nat) {
    && 2 <= p < q <= p + 14 && Sieved(p) && Sieved(q) && (p == 2 ==> q == 3)
    && (q <= p + 2 || !Sieved(p + 2)) && (q <= p + 4 || !Sieved(p + 4)) && (q <= p + 6 || !Sieved(p + 6))
    && (q <= p + 8 || !Sieved(p + 8)) && (q <= p + 10 || !Sieved(p + 10)) && (q <= p + 12 || !Sieved(p + 12))
  }

  lemma NextToMeaning(p: nat, q: nat)
    requires NextTo(p, q) && q < 324
    ensures p < q && Prime(q) && forall n | p < n < q :: !Prime(n)
  {
    hide Prime;
    SievedIsPrime(q);
    forall n | p < n < q ensures !Prime(n) {
      NotSieved(p, q, n);
      SievedIsPrime(n);
    }
  }

  lemma NotSieved(p: nat, q: nat, n: nat)
    requires NextTo(p, q) && p < n < q
    ensures !Sieved(n)
  {
    hide Sieved;
    SievedOdd(p);
    if n % 2 == 0 {
      SievedOdd(n);
    } else {
      var j := (n - p) / 2;
      assert n == p + 2 * j && 1 <= j <= 6;
    }
  }

  lemma SievedOdd(n: nat)
    requires n > 2
    ensures Sieved(n) ==> n % 2 == 1
  {
  }

  lemma NextPrime(t: nat, p: nat, q: nat)
    requires NthPrime(t, p) && q < 324 && NextTo(p, q)
    ensures NthPrime(t + 1, q)
  {
    hide Prime, NextTo;
    NextToMeaning(p, q);
    NoPrimesBetween(p, q);
  }

  /** A prime with its constant, and the next prime. */
  lemma OneConstant(t: nat, p: nat, q: nat, c: nat, k: Word)
    requires NthPrime(t, p) && q < 324 && NextTo(p, q)
    requires t < 64 && K(t) == k && CubeRoot(c, k, p)
    ensures NthPrime(t + 1, q) && FromCubeRoot(K(t), t)
  {
    hide NthPrime, CubeRoot, NextTo, K;
    NextPrime(t, p, q);
  }

  lemma {:induction false} NoPrimesBetween(p: nat, q: nat)
    requires p < q && Prime(p) && forall n | p < n < q :: !Prime(n)
    ensures PrimesBelow(q) == PrimesBelow(p) + 1
  {
    hide Prime;
    for n := p + 1 to q
      invariant PrimesBelow(n) == PrimesBelow(p) + 1
    {
    }
  }

  lemma Constants0()
    ensures K(0) == 0x428a2f98 && K(1) == 0x71374491 && K(2) == 0xb5c0fbcf && K(3) == 0xe9b5dba5
    ensures K(4) == 0x3956c25b && K(5) == 0x59f111f1 && K(6) == 0x923f82a4 && K(7) == 0xab1c5ed5
    ensures K(8) == 0xd807aa98 && K(9) == 0x12835b01 && K(10) == 0x243185be && K(11) == 0x550c7dc3
    ensures K(12) == 0x72be5d74 && K(13) == 0x80deb1fe && K(14) == 0x9bdc06a7 && K(15) == 0xc19bf174
  {
  }

  lemma Constants16()
    ensures K(16) == 0xe49b69c1 && K(17) == 0xefbe4786 && K(18) == 0x0fc19dc6 && K(19) == 0x240ca1cc
    ensures K(20) == 0x2de92c6f && K(21) == 0x4a7484aa && K(22) == 0x5cb0a9dc && K(23) == 0x76f988da
    ensures K(24) == 0x983e5152 && K(25) == 0xa831c66d && K(26) == 0xb00327c8 && K(27) == 0xbf597fc7
    ensures K(28) == 0xc6e00bf3 && K(29) == 0xd5a79147 && K(30) == 0x06ca6351 && K(31) == 0x14292967
  {
  }

  lemma Constants32()
    ensures K(32) == 0x27b70a85 && K(33) == 0x2e1b2138 && K(34) == 0x4d2c6dfc && K(35) == 0x53380d13
    ensures K(36) == 0x650a7354 && K(37) == 0x766a0abb && K(38) == 0x81c2c92e && K(39) == 0x92722c85
    ensures K(40) == 0xa2bfe8a1 && K(41) == 0xa81a664b && K(42) == 0xc24b8b70 && K(43) == 0xc76c51a3
    ensures K(44) == 0xd192e819 && K(45) == 0xd6990624 && K(46) == 0xf40e3585 && K(47) == 0x106aa070
  {
  }

  lemma Constants48()
    ensures K(48) == 0x19a4c116 && K(49) == 0x1e376c08 && K(50) == 0x2748774c && K(51) == 0x34b0bcb5
    ensures K(52) == 0x391c0cb3 && K(53) == 0x4ed8aa4a && K(54) == 0x5b9cca4f && K(55) == 0x682e6ff3
    ensures K(56) == 0x748f82ee && K(57) == 0x78a5636f && K(58) == 0x84c87814 && K(59) == 0x8cc70208
    ensures K(60) == 0x90befffa && K(61) == 0xa4506ceb && K(62) == 0xbef9a3f7 && K(63) == 0xc67178f2
  {
  }

  lemma Roots0()
    requires NthPrime(0, 2)
    ensures NthPrime(8, 23) && forall t | 0 <= t < 8 :: FromCubeRoot(K(t), t)
  {
    hide NthPrime, FromCubeRoot, K;
    Constants0();
    OneConstant(0, 2, 3, 1, 0x428a2f98); OneConstant(1, 3, 5, 1, 0x71374491);
    OneConstant(2, 5, 7, 1, 0xb5c0fbcf); OneConstant(3, 7, 11, 1, 0xe9b5dba5);
    OneConstant(4, 11, 13, 2, 0x3956c25b); OneConstant(5, 13, 17, 2, 0x59f111f1);
    OneConstant(6, 17, 19, 2, 0x923f82a4); OneConstant(7, 19, 23, 2, 0xab1c5ed5);
  }

  lemma Roots8()
    requires NthPrime(8, 23)
    ensures NthPrime(16, 59) && forall t | 8 <= t < 16 :: FromCubeRoot(K(t), t)
  {
    hide NthPrime, FromCubeRoot, K;
    Constants0();
    OneConstant(8, 23, 29, 2, 0xd807aa98); OneConstant(9, 29, 31, 3, 0x12835b01);
    OneConstant(10, 31, 37, 3, 0x243185be); OneConstant(11, 37, 41, 3, 0x550c7dc3);
    OneConstant(12, 41, 43, 3, 0x72be5d74); OneConstant(13, 43, 47, 3, 0x80deb1fe);
    OneConstant(14, 47, 53, 3, 0x9bdc06a7); OneConstant(15, 53, 59, 3, 0xc19bf174);
  }

  lemma Roots16()
    requires NthPrime(16, 59)
    ensures NthPrime(24, 97) && forall t | 16 <= t < 24 :: FromCubeRoot(K(t), t)
  {
    hide NthPrime, FromCubeRoot, K;
    Constants16();
    OneConstant(16, 59, 61, 3, 0xe49b69c1); OneConstant(17, 61, 67, 3, 0xefbe4786);
    OneConstant(18, 67, 71, 4, 0x0fc19dc6); OneConstant(19, 71, 73, 4, 0x240ca1cc);
    OneConstant(20, 73, 79, 4, 0x2de92c6f); OneConstant(21, 79, 83, 4, 0x4a7484aa);
    OneConstant(22, 83, 89, 4, 0x5cb0a9dc); OneConstant(23, 89, 97, 4, 0x76f988da);
  }

  lemma Roots24()
    requires NthPrime(24, 97)
    ensures NthPrime(32, 137) && forall t | 24 <= t < 32 :: FromCubeRoot(K(t), t)
  {
    hide NthPrime, FromCubeRoot, K;
    Constants16();
    OneConstant(24, 97, 101, 4, 0x983e5152); OneConstant(25, 101, 103, 4, 0xa831c66d);
    OneConstant(26, 103, 107, 4, 0xb00327c8); OneConstant(27, 107, 109, 4, 0xbf597fc7);
    OneConstant(28, 109, 113, 4, 0xc6e00bf3); OneConstant(29, 113, 127, 4, 0xd5a79147);
    OneConstant(30, 127, 131, 5, 0x06ca6351); OneConstant(31, 131, 137, 5, 0x14292967);
  }

  lemma Roots32()
    requires NthPrime(32, 137)
    ensures NthPrime(40, 179) && forall t | 32 <= t < 40 :: FromCubeRoot(K(t), t)
  {
    hide NthPrime, FromCubeRoot, K;
    Constants32();
    OneConstant(32, 137, 139, 5, 0x27b70a85); OneConstant(33, 139, 149, 5, 0x2e1b2138);
    OneConstant(34, 149, 151, 5, 0x4d2c6dfc); OneConstant(35, 151, 157, 5, 0x53380d13);
    OneConstant(36, 157, 163, 5, 0x650a7354); OneConstant(37, 163, 167, 5, 0x766a0abb);
    OneConstant(38, 167, 173, 5, 0x81c2c92e); OneConstant(39, 173, 179, 5, 0x92722c85);
  }

  lemma Roots40()
    requires NthPrime(40, 179)
    ensures NthPrime(48, 227) && forall t | 40 <= t < 48 :: FromCubeRoot(K(t), t)
  {
    hide NthPrime, FromCubeRoot, K;
    Constants32();
    OneConstant(40, 179, 181, 5, 0xa2bfe8a1); OneConstant(41, 181, 191, 5, 0xa81a664b);
    OneConstant(42, 191, 193, 5, 0xc24b8b70); OneConstant(43, 193, 197, 5, 0xc76c51a3);
    OneConstant(44, 197, 199, 5, 0xd192e819); OneConstant(45, 199, 211, 5, 0xd6990624);
    OneConstant(46, 211, 223, 5, 0xf40e3585); OneConstant(47, 223, 227, 6, 0x106aa070);
  }

  lemma Roots48()
    requires NthPrime(48, 227)
    ensures NthPrime(56, 269) && forall t | 48 <= t < 56 :: FromCubeRoot(K(t), t)
  {
    hide NthPrime, FromCubeRoot, K;
    Constants48();
    OneConstant(48, 227, 229, 6, 0x19a4c116); OneConstant(49, 229, 233, 6, 0x1e376c08);
    OneConstant(50, 233, 239, 6, 0x2748774c); OneConstant(51, 239, 241, 6, 0x34b0bcb5);
    OneConstant(52, 241, 251, 6, 0x391c0cb3); OneConstant(53, 251, 257, 6, 0x4ed8aa4a);
    OneConstant(54, 257, 263, 6, 0x5b9cca4f); OneConstant(55, 263, 269, 6, 0x682e6ff3);
  }

  lemma Roots56()
    requires NthPrime(56, 269)
    ensures NthPrime(64, 313) && forall t | 56 <= t < 64 :: FromCubeRoot(K(t), t)
  {
    hide NthPrime, FromCubeRoot, K;
    Constants48();
    OneConstant(56, 269, 271, 6, 0x748f82ee); OneConstant(57, 271, 277, 6, 0x78a5636f);
    OneConstant(58, 277, 281, 6, 0x84c87814); OneConstant(59, 281, 283, 6, 0x8cc70208);
    OneConstant(60, 283, 293, 6, 0x90befffa); OneConstant(61, 293, 307, 6, 0xa4506ceb);
    OneConstant(62, 307, 311, 6, 0xbef9a3f7); OneConstant(63, 311, 313, 6, 0xc67178f2);
  }

  lemma FirstPrime()
    ensures NthPrime(0, 2)
  {
    SievedIsPrime(2);
    assert PrimesBelow(2) == 0;
  }

  /** Constant t is the first 32 bits behind the point of the cube root of prime t. */
  lemma RoundConstantsMeaning(t: nat)
    requires t < 64
    ensures FromCubeRoot(K(t), t)
  {
    hide NthPrime, FromCubeRoot, K;
    FirstPrime();
    Roots0(); Roots8(); Roots16(); Roots24();
    Roots32(); Roots40(); Roots48(); Roots56();
  }

  /** The words of the initial hash value, likewise, are those of the square roots. */
  lemma InitialHashMeaning()
    ensures var h := INITIAL_HASH;
            && FromSquareRoot(h.a, 0) && FromSquareRoot(h.b, 1)
            && FromSquareRoot(h.c, 2) && FromSquareRoot(h.d, 3)
            && FromSquareRoot(h.e, 4) && FromSquareRoot(h.f, 5)
            && FromSquareRoot(h.g, 6) && FromSquareRoot(h.h, 7)
  {
    FirstPrime();
    hide NthPrime;
    NextPrime(0, 2, 3);
    NextPrime(1, 3, 5);
    NextPrime(2, 5, 7);
    NextPrime(3, 7, 11);
    NextPrime(4, 11, 13);
    NextPrime(5, 13, 17);
    NextPrime(6, 17, 19);
    var h := INITIAL_HASH;
    assert SquareRoot(1, h.a, 2);
    assert SquareRoot(1, h.b, 3);
    assert SquareRoot(2, h.c, 5);
    assert SquareRoot(2, h.d, 7);
    assert SquareRoot(3, h.e, 11);
    assert SquareRoot(3, h.f, 13);
    assert SquareRoot(4, h.g, 17);
    assert SquareRoot(4, h.h, 19);
  }
}

/** The example of one block that is published with the standard, computed through. */
module Sha256Example {
  import opened Bytes
  import opened Endian
  import opened Sha256Standard
  import opened Sha256Constants

  const ABC: seq<byte> := [0x61, 0x62, 0x63]

  function Block(): (block: seq<byte>)
    ensures |block| == 64
  {
    ABC + [0x80] + Zeros(59) + [24]
  }

  function ScheduleWord(b: seq<byte>, t: nat): Word {
    if t < 64 && |b| == 64 then W(b, t) else 0
  }

  /** v are the working variables of this block after t rounds. */
  ghost predicate At(b: seq<byte>, t: nat, v: Hash) {
    t <= 64 && |b| == 64 && Rounds(INITIAL_HASH, b, t) == v
  }

  lemma NextWord(b: seq<byte>, t: nat)
    requires |b| == 64 && 16 <= t < 64
    ensures ScheduleWord(b, t) ==
            Plus(Plus(Plus(SmallSigma1(ScheduleWord(b, t - 2)), ScheduleWord(b, t - 7)),
                      SmallSigma0(ScheduleWord(b, t - 15))),
                 ScheduleWord(b, t - 16))
  {
    hide Plus, SmallSigma0, SmallSigma1, WordOf;
  }

  lemma NextRound(b: seq<byte>, t: nat, v: Hash) returns (u: Hash)
    requires t < 64 && At(b, t, v)
    ensures u == Round(v, K(t), ScheduleWord(b, t)) && At(b, t + 1, u)
  {
    hide Round, K, INITIAL_HASH;
    u := Round(v, K(t), ScheduleWord(b, t));
  }

  lemma BlockWords()
    ensures WordOf(0x61, 0x62, 0x63, 0x80) == 0x61626380 && WordOf(0, 0, 0, 0) == 0 && WordOf(0, 0, 0, 24) == 24
  {
  }

  lemma Words0(b: seq<byte>)
    requires b == Block()
    ensures ScheduleWord(b, 0) == 0x61626380 && ScheduleWord(b, 1) == 0x00000000 && ScheduleWord(b, 2) == 0x00000000
    ensures ScheduleWord(b, 3) == 0x00000000 && ScheduleWord(b, 4) == 0x00000000 && ScheduleWord(b, 5) == 0x00000000
    ensures ScheduleWord(b, 6) == 0x00000000 && ScheduleWord(b, 7) == 0x00000000 && ScheduleWord(b, 8) == 0x00000000
    ensures ScheduleWord(b, 9) == 0x00000000 && ScheduleWord(b, 10) == 0x00000000 && ScheduleWord(b, 11) == 0x00000000
    ensures ScheduleWord(b, 12) == 0x00000000 && ScheduleWord(b, 13) == 0x00000000 && ScheduleWord(b, 14) == 0x00000000
    ensures ScheduleWord(b, 15) == 0x00000018
  {
    hide WordOf;
    BlockWords();
    assert b[0] == 0x61 && b[1] == 0x62 && b[2] == 0x63 && b[3] == 0x80 && b[63] == 24;
    assert forall j | 4 <= j < 63 :: b[j] == 0;
  }

  lemma Words16(b: seq<byte>)
    requires b == Block()
    ensures ScheduleWord(b, 16) == 0x61626380 && ScheduleWord(b, 17) == 0x000f0000 && ScheduleWord(b, 18) == 0x7da86405
    ensures ScheduleWord(b, 19) == 0x600003c6 && ScheduleWord(b, 20) == 0x3e9d7b78 && ScheduleWord(b, 21) == 0x0183fc00
    ensures ScheduleWord(b, 22) == 0x12dcbfdb && ScheduleWord(b, 23) == 0xe2e2c38e && ScheduleWord(b, 24) == 0xc8215c1a
    ensures ScheduleWord(b, 25) == 0xb73679a2 && ScheduleWord(b, 26) == 0xe5bc3909 && ScheduleWord(b, 27) == 0x32663c5b
    ensures ScheduleWord(b, 28) == 0x9d209d67 && ScheduleWord(b, 29) == 0xec8726cb && ScheduleWord(b, 30) == 0x702138a4
    ensures ScheduleWord(b, 31) == 0xd3b7973b
  {
    hide ScheduleWord, Block;
    Words0(b);
    NextWord(b, 16); NextWord(b, 17); NextWord(b, 18); NextWord(b, 19);
    NextWord(b, 20); NextWord(b, 21); NextWord(b, 22); NextWord(b, 23);
    NextWord(b, 24); NextWord(b, 25); NextWord(b, 26); NextWord(b, 27);
    NextWord(b, 28); NextWord(b, 29); NextWord(b, 30); NextWord(b, 31);
  }

  lemma Words32(b: seq<byte>)
    requires b == Block()
    ensures ScheduleWord(b, 32) == 0x93f5997f && ScheduleWord(b, 33) == 0x3b68ba73 && ScheduleWord(b, 34) == 0xaff4ffc1
    ensures ScheduleWord(b, 35) == 0xf10a5c62 && ScheduleWord(b, 36) == 0x0a8b3996 && ScheduleWord(b, 37) == 0x72af830a
    ensures ScheduleWord(b, 38) == 0x9409e33e && ScheduleWord(b, 39) == 0x24641522 && ScheduleWord(b, 40) == 0x9f47bf94
    ensures ScheduleWord(b, 41) == 0xf0a64f5a && ScheduleWord(b, 42) == 0x3e246a79 && ScheduleWord(b, 43) == 0x27333ba3
    ensures ScheduleWord(b, 44) == 0x0c4763f2 && ScheduleWord(b, 45) == 0x840abf27 && ScheduleWord(b, 46) == 0x7a290d5d
    ensures ScheduleWord(b, 47) == 0x065c43da
  {
    hide ScheduleWord, Block;
    Words16(b);
    NextWord(b, 32); NextWord(b, 33); NextWord(b, 34); NextWord(b, 35);
    NextWord(b, 36); NextWord(b, 37); NextWord(b, 38); NextWord(b, 39);
    NextWord(b, 40); NextWord(b, 41); NextWord(b, 42); NextWord(b, 43);
    NextWord(b, 44); NextWord(b, 45); NextWord(b, 46); NextWord(b, 47);
  }

  lemma Words48(b: seq<byte>)
    requires b == Block()
    ensures ScheduleWord(b, 48) == 0xfb3e89cb && ScheduleWord(b, 49) == 0xcc7617db && ScheduleWord(b, 50) == 0xb9e66c34
    ensures ScheduleWord(b, 51) == 0xa9993667 && ScheduleWord(b, 52) == 0x84badedd && ScheduleWord(b, 53) == 0xc21462bc
    ensures ScheduleWord(b, 54) == 0x1487472c && ScheduleWord(b, 55) == 0xb20f7a99 && ScheduleWord(b, 56) == 0xef57b9cd
    ensures ScheduleWord(b, 57) == 0xebe6b238 && ScheduleWord(b, 58) == 0x9fe3095e && ScheduleWord(b, 59) == 0x78bc8d4b
    ensures ScheduleWord(b, 60) == 0xa43fcf15 && ScheduleWord(b, 61) == 0x668b2ff8 && ScheduleWord(b, 62) == 0xeeaba2cc
    ensures ScheduleWord(b, 63) == 0x12b1edeb
  {
    hide ScheduleWord, Block;
    Words32(b);
    NextWord(b, 48); NextWord(b, 49); NextWord(b, 50); NextWord(b, 51);
    NextWord(b, 52); NextWord(b, 53); NextWord(b, 54); NextWord(b, 55);
    NextWord(b, 56); NextWord(b, 57); NextWord(b, 58); NextWord(b, 59);
    NextWord(b, 60); NextWord(b, 61); NextWord(b, 62); NextWord(b, 63);
  }

  lemma Rounds0(b: seq<byte>, v: Hash) returns (u: Hash)
    requires v == Hash(0x6a09e667, 0xbb67ae85, 0x3c6ef372, 0xa54ff53a, 0x510e527f, 0x9b05688c, 0x1f83d9ab, 0x5be0cd19)
    requires b == Block() && At(b, 0, v)
    ensures u == Hash(0xb0fa238e, 0xc0645fde, 0xd932eb16, 0x87912990, 0x07590dcd, 0x0b92f20c, 0x745a48de, 0x1e578218)
    ensures At(b, 16, u)
  {
    hide At, K, ScheduleWord, Block;
    Constants0();
    Words0(b);
    u := v;
    u := NextRound(b, 0, u); assert u.a == 0x5d6aebcd && u.e == 0xfa2a4622;
    u := NextRound(b, 1, u); assert u.a == 0x5a6ad9ad && u.e == 0x78ce7989;
    u := NextRound(b, 2, u); assert u.a == 0xc8c347a7 && u.e == 0xf92939eb;
    u := NextRound(b, 3, u); assert u.a == 0xd550f666 && u.e == 0x24e00850;
    u := NextRound(b, 4, u); assert u.a == 0x04409a6a && u.e == 0x43ada245;
    u := NextRound(b, 5, u); assert u.a == 0x2b4209f5 && u.e == 0x714260ad;
    u := NextRound(b, 6, u); assert u.a == 0xe5030380 && u.e == 0x9b27a401;
    u := NextRound(b, 7, u); assert u.a == 0x85a07b5f && u.e == 0x0c657a79;
    u := NextRound(b, 8, u); assert u.a == 0x8e04ecb9 && u.e == 0x32ca2d8c;
    u := NextRound(b, 9, u); assert u.a == 0x8c87346b && u.e == 0x1cc92596;
    u := NextRound(b, 10, u); assert u.a == 0x4798a3f4 && u.e == 0x436b23e8;
    u := NextRound(b, 11, u); assert u.a == 0xf71fc5a9 && u.e == 0x816fd6e9;
    u := NextRound(b, 12, u); assert u.a == 0x87912990 && u.e == 0x1e578218;
    u := NextRound(b, 13, u); assert u.a == 0xd932eb16 && u.e == 0x745a48de;
    u := NextRound(b, 14, u); assert u.a == 0xc0645fde && u.e == 0x0b92f20c;
    u := NextRound(b, 15, u); assert u.a == 0xb0fa238e && u.e == 0x07590dcd;
  }

  lemma Rounds16(b: seq<byte>, v: Hash) returns (u: Hash)
    requires v == Hash(0xb0fa238e, 0xc0645fde, 0xd932eb16, 0x87912990, 0x07590dcd, 0x0b92f20c, 0x745a48de, 0x1e578218)
    requires b == Block() && At(b, 16, v)
    ensures u == Hash(0x73b33bf5, 0xea992a22, 0xa0060b30, 0x363482c9, 0xba591112, 0x0109ab3a, 0xade79437, 0x6112a3b7)
    ensures At(b, 32, u)
  {
    hide At, K, ScheduleWord, Block;
    Constants16();
    Words16(b);
    u := v;
    u := NextRound(b, 16, u); assert u.a == 0x21da9a9b && u.e == 0x8034229c;
    u := NextRound(b, 17, u); assert u.a == 0xc2fbd9d1 && u.e == 0x846ee454;
    u := NextRound(b, 18, u); assert u.a == 0xfe777bbf && u.e == 0xcc899961;
    u := NextRound(b, 19, u); assert u.a == 0xe1f20c33 && u.e == 0xb0638179;
    u := NextRound(b, 20, u); assert u.a == 0x9dc68b63 && u.e == 0x8ada8930;
    u := NextRound(b, 21, u); assert u.a == 0xc2606d6d && u.e == 0xe1257970;
    u := NextRound(b, 22, u); assert u.a == 0xa7a3623f && u.e == 0x49f5114a;
    u := NextRound(b, 23, u); assert u.a == 0xc5d53d8d && u.e == 0xaa47c347;
    u := NextRound(b, 24, u); assert u.a == 0x1c2c2838 && u.e == 0x2823ef91;
    u := NextRound(b, 25, u); assert u.a == 0xcde8037d && u.e == 0x14383d8e;
    u := NextRound(b, 26, u); assert u.a == 0xb62ec4bc && u.e == 0xc74c6516;
    u := NextRound(b, 27, u); assert u.a == 0x77d37528 && u.e == 0xedffbff8;
    u := NextRound(b, 28, u); assert u.a == 0x363482c9 && u.e == 0x6112a3b7;
    u := NextRound(b, 29, u); assert u.a == 0xa0060b30 && u.e == 0xade79437;
    u := NextRound(b, 30, u); assert u.a == 0xea992a22 && u.e == 0x0109ab3a;
    u := NextRound(b, 31, u); assert u.a == 0x73b33bf5 && u.e == 0xba591112;
  }

  lemma Rounds32(b: seq<byte>, v: Hash) returns (u: Hash)
    requires v == Hash(0x73b33bf5, 0xea992a22, 0xa0060b30, 0x363482c9, 0xba591112, 0x0109ab3a, 0xade79437, 0x6112a3b7)
    requires b == Block() && At(b, 32, v)
    ensures u == Hash(0x4172328d, 0xa14c14b0, 0x72ab4b91, 0x26628815, 0xfecf0bc6, 0xd57b94a9, 0xb7755da1, 0xa80f11f0)
    ensures At(b, 48, u)
  {
    hide At, K, ScheduleWord, Block;
    Constants32();
    Words32(b);
    u := v;
    u := NextRound(b, 32, u); assert u.a == 0x98e12507 && u.e == 0x9cd9f5f6;
    u := NextRound(b, 33, u); assert u.a == 0xfe604df5 && u.e == 0x59249dd3;
    u := NextRound(b, 34, u); assert u.a == 0xa9a7738c && u.e == 0x085f3833;
    u := NextRound(b, 35, u); assert u.a == 0x65a0cfe4 && u.e == 0xf4b002d6;
    u := NextRound(b, 36, u); assert u.a == 0x41a65cb1 && u.e == 0x0772a26b;
    u := NextRound(b, 37, u); assert u.a == 0x34df1604 && u.e == 0xa507a53d;
    u := NextRound(b, 38, u); assert u.a == 0x6dc57a8a && u.e == 0xf0781bc8;
    u := NextRound(b, 39, u); assert u.a == 0x79ea687a && u.e == 0x1efbc0a0;
    u := NextRound(b, 40, u); assert u.a == 0xd6670766 && u.e == 0x26352d63;
    u := NextRound(b, 41, u); assert u.a == 0xdf46652f && u.e == 0x838b2711;
    u := NextRound(b, 42, u); assert u.a == 0x17aa0dfe && u.e == 0xdecd4715;
    u := NextRound(b, 43, u); assert u.a == 0x9d4baf93 && u.e == 0xfda24c2e;
    u := NextRound(b, 44, u); assert u.a == 0x26628815 && u.e == 0xa80f11f0;
    u := NextRound(b, 45, u); assert u.a == 0x72ab4b91 && u.e == 0xb7755da1;
    u := NextRound(b, 46, u); assert u.a == 0xa14c14b0 && u.e == 0xd57b94a9;
    u := NextRound(b, 47, u); assert u.a == 0x4172328d && u.e == 0xfecf0bc6;
  }

  lemma Rounds48(b: seq<byte>, v: Hash) returns (u: Hash)
    requires v == Hash(0x4172328d, 0xa14c14b0, 0x72ab4b91, 0x26628815, 0xfecf0bc6, 0xd57b94a9, 0xb7755da1, 0xa80f11f0)
    requires b == Block() && At(b, 48, v)
    ensures u == Hash(0x506e3058, 0xd39a2165, 0x04d24d6c, 0xb85e2ce9, 0x5ef50f24, 0xfb121210, 0x948d25b6, 0x961f4894)
    ensures At(b, 64, u)
  {
    hide At, K, ScheduleWord, Block;
    Constants48();
    Words48(b);
    u := v;
    u := NextRound(b, 48, u); assert u.a == 0x05757ceb && u.e == 0xbd714038;
    u := NextRound(b, 49, u); assert u.a == 0xf11bfaa8 && u.e == 0x6e5c390c;
    u := NextRound(b, 50, u); assert u.a == 0x7a0508a1 && u.e == 0x52f1ccf7;
    u := NextRound(b, 51, u); assert u.a == 0x886e7a22 && u.e == 0x49231c1e;
    u := NextRound(b, 52, u); assert u.a == 0x101fd28f && u.e == 0x529e7d00;
    u := NextRound(b, 53, u); assert u.a == 0xf5702fdb && u.e == 0x9f4787c3;
    u := NextRound(b, 54, u); assert u.a == 0x3ec45cdb && u.e == 0xe50e1b4f;
    u := NextRound(b, 55, u); assert u.a == 0x38cc9913 && u.e == 0x54cb266b;
    u := NextRound(b, 56, u); assert u.a == 0xfcd1887b && u.e == 0x9b5e906c;
    u := NextRound(b, 57, u); assert u.a == 0xc062d46f && u.e == 0x7e44008e;
    u := NextRound(b, 58, u); assert u.a == 0xffb70472 && u.e == 0x6d83bfc6;
    u := NextRound(b, 59, u); assert u.a == 0xb6ae8fff && u.e == 0xb21bad3d;
    u := NextRound(b, 60, u); assert u.a == 0xb85e2ce9 && u.e == 0x961f4894;
    u := NextRound(b, 61, u); assert u.a == 0x04d24d6c && u.e == 0x948d25b6;
    u := NextRound(b, 62, u); assert u.a == 0xd39a2165 && u.e == 0xfb121210;
    u := NextRound(b, 63, u); assert u.a == 0x506e3058 && u.e == 0x5ef50f24;
  }

  lemma AllRounds(b: seq<byte>) returns (v: Hash)
    requires b == Block()
    ensures v == Hash(0x506e3058, 0xd39a2165, 0x04d24d6c, 0xb85e2ce9, 0x5ef50f24, 0xfb121210, 0x948d25b6, 0x961f4894)
    ensures At(b, 64, v)
  {
    v := INITIAL_HASH;
    assert At(b, 0, v);
    hide At, Block;
    v := Rounds0(b, v);
    v := Rounds16(b, v);
    v := Rounds32(b, v);
    v := Rounds48(b, v);
  }

  lemma LengthOfAbc()
    ensures BigEndian(24, 8) == Zeros(7) + [24]
  {
    hide BigEndian;
    Powers();
    forall i | 0 <= i < 8 ensures BigEndian(24, 8)[i] == (Zeros(7) + [24])[i] {
      BigEndianAt(24, 8, i);
    }
  }

  lemma PaddedAbc()
    ensures Padded(ABC) == Block()
  {
    hide BigEndian;
    LengthOfAbc();
    assert 8 * |ABC| % TWO_TO_64 == 24 && ZeroCount(|ABC|) == 52;
  }

  lemma HashOfAbc(b: seq<byte>, v: Hash)
    requires b == Block() && At(b, 64, v)
    ensures HashBlocks(b) == Added(INITIAL_HASH, v)
  {
    hide Rounds, Added, INITIAL_HASH, Block;
    assert b[..0] == [] && b[0..] == b;
  }

  const DIGEST: seq<byte> :=
    [0xba, 0x78, 0x16, 0xbf, 0x8f, 0x01, 0xcf, 0xea] +
    [0x41, 0x41, 0x40, 0xde, 0x5d, 0xae, 0x22, 0x23] +
    [0xb0, 0x03, 0x61, 0xa3, 0x96, 0x17, 0x7a, 0x9c] +
    [0xb4, 0x10, 0xff, 0x61, 0xf2, 0x00, 0x15, 0xad]

  lemma TwoWords(v: Word, w: Word)
    ensures BytesOf([v, w]) ==
            [ByteOf(v, 0), ByteOf(v, 1), ByteOf(v, 2), ByteOf(v, 3)] +
            [ByteOf(w, 0), ByteOf(w, 1), ByteOf(w, 2), ByteOf(w, 3)]
  {
    hide ByteOf;
    assert [v, w][1..] == [w] && [w][1..] == [];
  }

  lemma Words01(v: Word, w: Word)
    requires v == 0xba7816bf && w == 0x8f01cfea
    ensures BytesOf([v, w]) == [0xba, 0x78, 0x16, 0xbf, 0x8f, 0x01, 0xcf, 0xea]
  {
    TwoWords(v, w);
    hide BytesOf;
  }

  lemma Words23(v: Word, w: Word)
    requires v == 0x414140de && w == 0x5dae2223
    ensures BytesOf([v, w]) == [0x41, 0x41, 0x40, 0xde, 0x5d, 0xae, 0x22, 0x23]
  {
    TwoWords(v, w);
    hide BytesOf;
  }

  lemma Words45(v: Word, w: Word)
    requires v == 0xb00361a3 && w == 0x96177a9c
    ensures BytesOf([v, w]) == [0xb0, 0x03, 0x61, 0xa3, 0x96, 0x17, 0x7a, 0x9c]
  {
    TwoWords(v, w);
    hide BytesOf;
  }

  lemma Words67(v: Word, w: Word)
    requires v == 0xb410ff61 && w == 0xf20015ad
    ensures BytesOf([v, w]) == [0xb4, 0x10, 0xff, 0x61, 0xf2, 0x00, 0x15, 0xad]
  {
    TwoWords(v, w);
    hide BytesOf;
  }

  lemma {:induction false} BytesOfConcat(a: seq<Word>, b: seq<Word>)
    ensures BytesOf(a + b) == BytesOf(a) + BytesOf(b)
  {
    hide ByteOf;
    if a == [] {
      assert a + b == b;
    } else {
      assert (a + b)[1..] == a[1..] + b;
      BytesOfConcat(a[1..], b);
    }
  }

  lemma SumOfAbc(v: Hash)
    requires v == Hash(0x506e3058, 0xd39a2165, 0x04d24d6c, 0xb85e2ce9, 0x5ef50f24, 0xfb121210, 0x948d25b6, 0x961f4894)
    ensures Added(INITIAL_HASH, v) ==
            Hash(0xba7816bf, 0x8f01cfea, 0x414140de, 0x5dae2223, 0xb00361a3, 0x96177a9c, 0xb410ff61, 0xf20015ad)
  {
  }

  lemma DigestIs(message: seq<byte>)
    ensures Digest(message) == HashBytes(HashBlocks(Padded(message)))
  {
  }

  /** The digest of "abc". */
  lemma DigestOfAbc()
    ensures Digest(ABC) == DIGEST
  {
    hide *;
    var b := Block();
    var v := AllRounds(b);
    SumOfAbc(v);
    HashOfAbc(b, v);
    PaddedAbc();
    DigestIs(ABC);
    HashBytesOf(Added(INITIAL_HASH, v));
  }

  lemma HashBytesOf(h: Hash)
    requires h == Hash(0xba7816bf, 0x8f01cfea, 0x414140de, 0x5dae2223, 0xb00361a3, 0x96177a9c, 0xb410ff61, 0xf20015ad)
    ensures HashBytes(h) == DIGEST
  {
    hide BytesOf, HashBytes;
    Words01(h.a, h.b);
    Words23(h.c, h.d);
    Words45(h.e, h.f);
    Words67(h.g, h.h);
    EightWords(h);
  }

  lemma EightWords(h: Hash)
    ensures HashBytes(h) == BytesOf([h.a, h.b]) + BytesOf([h.c, h.d]) + BytesOf([h.e, h.f]) + BytesOf([h.g, h.h])
  {
    hide BytesOf;
    BytesOfConcat([h.a, h.b], [h.c, h.d]);
    BytesOfConcat([h.a, h.b, h.c, h.d], [h.e, h.f]);
    BytesOfConcat([h.a, h.b, h.c, h.d, h.e, h.f], [h.g, h.h]);
    assert [h.a, h.b] + [h.c, h.d] == [h.a, h.b, h.c, h.d];
    assert [h.a, h.b, h.c, h.d] + [h.e, h.f] == [h.a, h.b, h.c, h.d, h.e, h.f];
    assert [h.a, h.b, h.c, h.d, h.e, h.f] + [h.g, h.h] == [h.a, h.b, h.c, h.d, h.e, h.f, h.g, h.h];
  }
}
