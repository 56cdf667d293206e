/** SHA-256 of a whole message, as FIPS 180-4 defines it. */
module Sha256Spec {
  type Word = bv32
  type Octet = bv8

  /** The constants of section 4.2.2. */
  const K: seq<Word> :=
    [0x428a2f98, 0x71374491, 0xb5c0fbcf, 0xe9b5dba5, 0x3956c25b, 0x59f111f1, 0x923f82a4, 0xab1c5ed5,
     0xd807aa98, 0x12835b01, 0x243185be, 0x550c7dc3, 0x72be5d74, 0x80deb1fe, 0x9bdc06a7, 0xc19bf174] +
    [0xe49b69c1, 0xefbe4786, 0x0fc19dc6, 0x240ca1cc, 0x2de92c6f, 0x4a7484aa, 0x5cb0a9dc, 0x76f988da,
     0x983e5152, 0xa831c66d, 0xb00327c8, 0xbf597fc7, 0xc6e00bf3, 0xd5a79147, 0x06ca6351, 0x14292967] +
    [0x27b70a85, 0x2e1b2138, 0x4d2c6dfc, 0x53380d13, 0x650a7354, 0x766a0abb, 0x81c2c92e, 0x92722c85,
     0xa2bfe8a1, 0xa81a664b, 0xc24b8b70, 0xc76c51a3, 0xd192e819, 0xd6990624, 0xf40e3585, 0x106aa070] +
    [0x19a4c116, 0x1e376c08, 0x2748774c, 0x34b0bcb5, 0x391c0cb3, 0x4ed8aa4a, 0x5b9cca4f, 0x682e6ff3,
     0x748f82ee, 0x78a5636f, 0x84c87814, 0x8cc70208, 0x90befffa, 0xa4506ceb, 0xbef9a3f7, 0xc67178f2]

  /** The initial hash value of section 5.3.3. */
  const INITIAL: seq<Word> := [
    0x6a09e667, 0xbb67ae85, 0x3c6ef372, 0xa54ff53a, 0x510e527f, 0x9b05688c, 0x1f83d9ab, 0x5be0cd19
  ]

  /** Addition modulo 2^32. */
  function Plus(x: Word, y: Word): Word {
    x + y
  }

  /** Rotation and the functions of section 4.1.2. */
  function Rotr(x: Word, n: bv6): Word
    requires 0 < n < 32
  {
    (x >> n) | (x << (32 - n))
  }

  function Ch(x: Word, y: Word, z: Word): Word {
    (x & y) ^ (!x & z)
  }

  function Maj(x: Word, y: Word, z: Word): Word {
    (x & y) ^ (x & z) ^ (y & z)
  }

  function BigSigma0(x: Word): Word {
    Rotr(x, 2) ^ Rotr(x, 13) ^ Rotr(x, 22)
  }

  function BigSigma1(x: Word): Word {
    Rotr(x, 6) ^ Rotr(x, 11) ^ Rotr(x, 25)
  }

  function SmallSigma0(x: Word): Word {
    Rotr(x, 7) ^ Rotr(x, 18) ^ (x >> 3)
  }

  function SmallSigma1(x: Word): Word {
    Rotr(x, 17) ^ Rotr(x, 19) ^ (x >> 10)
  }

  /** Four bytes as a word, most significant byte first. */
  function Pack(b: seq<Octet>): Word
    requires |b| == 4
  {
    (b[3] as Word) | ((b[2] as Word) << 8) | ((b[1] as Word) << 16) | ((b[0] as Word) << 24)
  }

  function Unpack(x: Word): (b: seq<Octet>)
    ensures |b| == 4
  {
    [(x >> 24) as Octet, ((x >> 16) & 0xFF) as Octet, ((x >> 8) & 0xFF) as Octet, (x & 0xFF) as Octet]
  }

  function Expanded(w2: Word, w7: Word, w15: Word, w16: Word): Word {
    Plus(Plus(Plus(SmallSigma1(w2), w7), SmallSigma0(w15)), w16)
  }

  /** Word t of the message schedule of a block: section 6.2.2, step 1. */
  function Schedule(block: seq<Octet>, t: nat): Word
    requires |block| == 64 && t < 64
  {
    if t < 16 then Pack(block[4 * t..4 * t + 4])
    else
      Expanded(Schedule(block, t - 2), Schedule(block, t - 7), Schedule(block, t - 15), Schedule(block, t - 16))
  }

  function T1(e: Word, f: Word, g: Word, h: Word, k: Word, w: Word): Word {
    Plus(Plus(Plus(Plus(h, BigSigma1(e)), Ch(e, f, g)), k), w)
  }

  function T2(a: Word, b: Word, c: Word): Word {
    Plus(BigSigma0(a), Maj(a, b, c))
  }

  /** One round on the eight working variables: section 6.2.2, step 3. */
  function Round(s: seq<Word>, k: Word, w: Word): (r: seq<Word>)
    requires |s| == 8
    ensures |r| == 8
  {
    var t1 := T1(s[4], s[5], s[6], s[7], k, w);
    var t2 := T2(s[0], s[1], s[2]);
    [Plus(t1, t2), s[0], s[1], s[2], Plus(s[3], t1), s[4], s[5], s[6]]
  }

  function Rounds(s: seq<Word>, block: seq<Octet>, n: nat): (r: seq<Word>)
    requires |s| == 8 && |block| == 64 && n <= 64
    ensures |r| == 8
  {
    if n == 0 then s else Round(Rounds(s, block, n - 1), K[n - 1], Schedule(block, n - 1))
  }

  /** The hash value after one more block. */
  function Compress(h: seq<Word>, block: seq<Octet>): (r: seq<Word>)
    requires |h| == 8 && |block| == 64
    ensures |r| == 8
  {
    var s := Rounds(h, block, 64);
    seq(8, i requires 0 <= i < 8 => Plus(h[i], s[i]))
  }

  /** The hash value after all blocks of data. */
  function Absorb(h: seq<Word>, data: seq<Octet>): (r: seq<Word>)
    requires |h| == 8 && |data| % 64 == 0
    ensures |r| == 8
  {
    if data == [] then h else Compress(Absorb(h, data[..|data| - 64]), data[|data| - 64..])
  }

  /** The padding of section 5.1.1: a 1 bit, zeros, and the length in bits as 64-bit number. */
  function Zeros(length: nat): (z: nat)
    ensures z < 64 && (length + 9 + z) % 64 == 0
  {
    (119 - length % 64) % 64
  }

  /** A number in that many bytes, most significant first, without what does not fit. */
  function BigEndian(n: nat, width: nat): (b: seq<Octet>)
    ensures |b| == width
  {
    if width == 0 then [] else BigEndian(n / 256, width - 1) + [(n % 256) as Octet]
  }

  function Padding(length: nat): (p: seq<Octet>)
    ensures |p| == 9 + Zeros(length) && (length + |p|) % 64 == 0
  {
    [0x80] + seq(Zeros(length), _ => 0) + BigEndian(8 * length, 8)
  }

  function Serialize(words: seq<Word>): (b: seq<Octet>)
    ensures |b| == 4 * |words|
  {
    if words == [] then [] else Serialize(words[..|words| - 1]) + Unpack(words[|words| - 1])
  }

  /** The digest of a message. */
  function Digest(message: seq<Octet>): (d: seq<Octet>)
    ensures |d| == 32
  {
    Serialize(Absorb(INITIAL, message + Padding(|message|)))
  }

  /** Blocks can be absorbed in several goes. */
  lemma {:induction false} AbsorbAppend(h: seq<Word>, a: seq<Octet>, b: seq<Octet>)
    requires |h| == 8 && |a| % 64 == 0 && |b| % 64 == 0
    ensures Absorb(h, a + b) == Absorb(Absorb(h, a), b)
    decreases |b|
  {
    hide Compress;
    if b == [] {
      assert a + b == a;
    } else {
      var front, last := b[..|b| - 64], b[|b| - 64..];
      AbsorbAppend(h, a, front);
      assert (a + b)[..|a + b| - 64] == a + front && (a + b)[|a + b| - 64..] == last;
    }
  }
}
