/** The Secure Hash Algorithm as FIPS PUB 180-1 states it, on whole messages of bytes:
    section 4 (padding), section 5 (functions), section 6 (constants), and section 7
    (the digest, with the 80-word schedule). */
module Sha1Spec {
  type Octet = bv8
  type Word = bv32

  /** The five words H0 to H4. */
  datatype Chain = Chain(a: Word, b: Word, c: Word, d: Word, e: Word)

  const H0 := Chain(0x67452301, 0xefcdab89, 0x98badcfe, 0x10325476, 0xc3d2e1f0)

  // ----- sections 2 and 3: words

  /** The circular left shift S^n. */
  function RotateLeft(n: nat, x: Word): Word
    requires 0 < n < 32
  {
    (x << n) | (x >> (32 - n))
  }

  /** Four bytes as a word, the most significant first. */
  function BigEndian(x0: Octet, x1: Octet, x2: Octet, x3: Octet): Word {
    ((x0 as Word) << 24) | ((x1 as Word) << 16) | ((x2 as Word) << 8) | (x3 as Word)
  }

  /** The bytes of a word, the most significant first. */
  function WordBytes(w: Word): (bytes: seq<Octet>)
    ensures |bytes| == 4
  {
    [((w >> 24) & 0xff) as Octet, ((w >> 16) & 0xff) as Octet, ((w >> 8) & 0xff) as Octet, (w & 0xff) as Octet]
  }

  // ----- sections 5 and 6: functions and constants

  function F(t: nat, b: Word, c: Word, d: Word): Word {
    if t < 20 then (b & c) | ((!b) & d)
    else if t < 40 then b ^ c ^ d
    else if t < 60 then (b & c) | (b & d) | (c & d)
    else b ^ c ^ d
  }

  function K(t: nat): Word {
    if t < 20 then 0x5a827999 else if t < 40 then 0x6ed9eba1 else if t < 60 then 0x8f1bbcdc else 0xca62c1d6
  }

  /** Sums of words are modulo 2^32. */
  function Sum(v: Word, w: Word, x: Word, y: Word, z: Word): Word { v + w + x + y + z }

  function Xor(w: Word, x: Word, y: Word, z: Word): Word { w ^ x ^ y ^ z }

  // ----- section 7: one block

  function Block(bytes: seq<Octet>): (words: seq<Word>)
    requires |bytes| == 64
    ensures |words| == 16
  {
    seq(16, i requires 0 <= i < 16 => BigEndian(bytes[4 * i], bytes[4 * i + 1], bytes[4 * i + 2], bytes[4 * i + 3]))
  }

  /** W(t) of the 80-word schedule. */
  function Schedule(block: seq<Word>, t: nat): Word
    requires |block| == 16
  {
    if t < 16 then block[t]
    else
      RotateLeft(1, Xor(Schedule(block, t - 3), Schedule(block, t - 8), Schedule(block, t - 14), Schedule(block, t - 16)))
  }

  function Round(h: Chain, w: Word, t: nat): Chain {
    Chain(Sum(RotateLeft(5, h.a), F(t, h.b, h.c, h.d), h.e, w, K(t)), h.a, RotateLeft(30, h.b), h.c, h.d)
  }

  /** The five words after the first t rounds. */
  function Rounds(h: Chain, block: seq<Word>, t: nat): Chain
    requires |block| == 16
  {
    if t == 0 then h else Round(Rounds(h, block, t - 1), Schedule(block, t - 1), t - 1)
  }

  function AddChain(h: Chain, g: Chain): Chain {
    Chain(h.a + g.a, h.b + g.b, h.c + g.c, h.d + g.d, h.e + g.e)
  }

  function Compress(h: Chain, block: seq<Word>): Chain
    requires |block| == 16
  {
    AddChain(h, Rounds(h, block, 80))
  }

  /** The chain after the whole blocks of `bytes`. */
  function Blocks(bytes: seq<Octet>): Chain
    requires |bytes| % 64 == 0
  {
    if bytes == [] then H0
    else
      var n := |bytes| - 64;
      Compress(Blocks(bytes[..n]), Block(bytes[n..]))
  }

  // ----- section 4: padding, and the digest

  function Zeros(n: nat): (zeros: seq<Octet>)
    ensures |zeros| == n
  {
    seq(n, _ => 0)
  }

  /** A number of bits as a 64-bit field, the most significant byte first. */
  function LengthField(bits: nat): seq<Octet> {
    [LengthByte(bits, 7), LengthByte(bits, 6), LengthByte(bits, 5), LengthByte(bits, 4),
     LengthByte(bits, 3), LengthByte(bits, 2), LengthByte(bits, 1), LengthByte(bits, 0)]
  }

  /** The byte of weight 256^i of a 64-bit number. */
  function LengthByte(n: nat, i: nat): Octet
    requires i < 8
  {
    (n / Power256(i) % 256) as Octet
  }

  function Power256(i: nat): nat
    ensures Power256(i) > 0
  {
    if i == 0 then 1 else 256 * Power256(i - 1)
  }

  lemma PadTotal(n: nat)
    ensures (n + 1 + (55 - n) % 64 + 8) % 64 == 0
  {
    var q := (55 - n) / 64;
    assert (55 - n) % 64 == 55 - n - 64 * q;
    assert n + 1 + (55 - n) % 64 + 8 == 64 * (1 - q);
  }

  /** One 1 bit, the fewest 0 bits that leave room for the length, and the length in bits. */
  function Pad(message: seq<Octet>): (padded: seq<Octet>)
    ensures |padded| % 64 == 0
  {
    PadTotal(|message|);
    message + [0x80] + Zeros((55 - |message|) % 64) + LengthField(8 * |message|)
  }

  function ChainBytes(h: Chain): (bytes: seq<Octet>)
    ensures |bytes| == 20
  {
    WordBytes(h.a) + WordBytes(h.b) + WordBytes(h.c) + WordBytes(h.d) + WordBytes(h.e)
  }

  function Digest(message: seq<Octet>): seq<Octet> { ChainBytes(Blocks(Pad(message))) }
}
