/** The worked examples of FIPS PUB 180-1, Appendix A and Appendix B, round by round. */
module Sha1Vectors {
  import opened Sha1Spec
  import Sha1

  /** Sixteen words of the schedule, from W(t) on. */
  predicate Words(block: seq<Word>, t: nat, words: seq<Word>) {
    |block| == 16 && |words| == 16
    && Schedule(block, t + 0) == words[0]
    && Schedule(block, t + 1) == words[1]
    && Schedule(block, t + 2) == words[2]
    && Schedule(block, t + 3) == words[3]
    && Schedule(block, t + 4) == words[4]
    && Schedule(block, t + 5) == words[5]
    && Schedule(block, t + 6) == words[6]
    && Schedule(block, t + 7) == words[7]
    && Schedule(block, t + 8) == words[8]
    && Schedule(block, t + 9) == words[9]
    && Schedule(block, t + 10) == words[10]
    && Schedule(block, t + 11) == words[11]
    && Schedule(block, t + 12) == words[12]
    && Schedule(block, t + 13) == words[13]
    && Schedule(block, t + 14) == words[14]
    && Schedule(block, t + 15) == words[15]
  }

  // ----- from a message to words

  /** The length field of a message below 8192 bytes. */
  lemma SmallLength(bits: nat)
    requires bits < 65536
    ensures LengthField(bits) == [0, 0, 0, 0, 0, 0, (bits / 256) as Octet, (bits % 256) as Octet]
  {
    LowBytes(bits);
    forall i: nat | 2 <= i < 8
      ensures LengthByte(bits, i) == 0
    {
      HighByte(bits, i);
    }
    hide LengthByte;
  }

  lemma LowBytes(bits: nat)
    requires bits < 65536
    ensures LengthByte(bits, 1) == (bits / 256) as Octet && LengthByte(bits, 0) == (bits % 256) as Octet
  {
    assert Power256(0) == 1 && Power256(1) == 256;
  }

  lemma HighByte(bits: nat, i: nat)
    requires bits < 65536 && 2 <= i < 8
    ensures LengthByte(bits, i) == 0
  {
    hide Power256;
    PowerGrows(i);
    SmallQuotient(bits, Power256(i));
  }

  lemma SmallQuotient(n: nat, d: nat)
    requires n < d
    ensures n / d == 0
  {
    assert d * 0 == 0;
    Sha1.Quotient(n, d, 0, n);
  }

  lemma {:induction false} PowerGrows(i: nat)
    requires 2 <= i
    ensures Power256(i) >= 65536
    decreases i
  {
    if i > 2 {
      PowerGrows(i - 1);
    } else {
      assert Power256(1) == 256;
    }
  }

  function BytesOf(words: seq<Word>): (bytes: seq<Octet>)
    ensures |bytes| == 4 * |words|
  {
    if words == [] then [] else WordBytes(words[0]) + BytesOf(words[1..])
  }

  lemma {:induction false} BytesAt(words: seq<Word>, i: nat)
    requires i < |words|
    ensures BytesOf(words)[4 * i..4 * i + 4] == WordBytes(words[i])
    decreases i
  {
    hide WordBytes;
    if i > 0 {
      BytesAt(words[1..], i - 1);
      var rest := BytesOf(words[1..]);
      assert BytesOf(words) == WordBytes(words[0]) + rest;
      assert BytesOf(words)[4 * i..4 * i + 4] == rest[4 * (i - 1)..4 * (i - 1) + 4];
    }
  }

  lemma OneBlock(p: seq<Octet>)
    requires |p| == 64
    ensures Blocks(p) == Compress(H0, Block(p))
  {
    hide Block, Compress;
    assert p[..0] == [] && p[0..] == p;
    assert Blocks([]) == H0;
  }

  lemma TwoBlocks(p: seq<Octet>)
    requires |p| == 128
    ensures Blocks(p) == Compress(Compress(H0, Block(p[..64])), Block(p[64..]))
  {
    hide Block, Compress;
    OneBlock(p[..64]);
  }

  // ----- rounds

  lemma NoRounds(h: Chain, block: seq<Word>)
    requires |block| == 16
    ensures Rounds(h, block, 0) == h
  {
  }

  lemma FirstWords(block: seq<Word>)
    requires |block| == 16
    ensures Words(block, 0, block)
  {
  }

  // ----- Appendix A: abc

  lemma Abc0(h: Chain, block: seq<Word>)
    requires Words(block, 0,
      [0x61626380, 0x00000000, 0x00000000, 0x00000000, 0x00000000, 0x00000000, 0x00000000, 0x00000000,
       0x00000000, 0x00000000, 0x00000000, 0x00000000, 0x00000000, 0x00000000, 0x00000000, 0x00000018])
    requires Rounds(h, block, 0) == Chain(0x67452301, 0xefcdab89, 0x98badcfe, 0x10325476, 0xc3d2e1f0)
    ensures Words(block, 16,
      [0xc2c4c700, 0x00000000, 0x00000030, 0x85898e01, 0x00000000, 0x00000060, 0x0b131c03, 0x00000030,
       0x85898ec1, 0x16263806, 0x00000000, 0x00000180, 0x2c4c700c, 0x000000f0, 0x93afb507, 0x5898e048])
    ensures Rounds(h, block, 16) == Chain(0x20bdd62f, 0x196bee77, 0x644a3da5, 0x1181ed99, 0x18c623f9)
  {
    assert Rounds(h, block, 2) == Chain(0x8990536d, 0x0116fc33, 0x59d148c0, 0x7bf36ae2, 0x98badcfe);
    assert Rounds(h, block, 4) == Chain(0xcdd8e11b, 0xa1390f08, 0x626414db, 0xc045bf0c, 0x59d148c0);
    assert Rounds(h, block, 6) == Chain(0x3fc7ca40, 0xcfd499de, 0xf3763846, 0x284e43c2, 0x626414db);
    assert Rounds(h, block, 8) == Chain(0x9e8c07d4, 0x993e30c1, 0x0ff1f290, 0xb3f52677, 0xf3763846);
    assert Rounds(h, block, 10) == Chain(0x8351f929, 0x4b6ae328, 0x27a301f5, 0x664f8c30, 0x0ff1f290);
    assert Rounds(h, block, 12) == Chain(0x63188fe4, 0xfbda9e89, 0x60d47e4a, 0x12dab8ca, 0x27a301f5);
    assert Rounds(h, block, 14) == Chain(0x9128f695, 0x4607b664, 0x18c623f9, 0x7ef6a7a2, 0x60d47e4a);
  }

  lemma Abc16(h: Chain, block: seq<Word>)
    requires Words(block, 16,
      [0xc2c4c700, 0x00000000, 0x00000030, 0x85898e01, 0x00000000, 0x00000060, 0x0b131c03, 0x00000030,
       0x85898ec1, 0x16263806, 0x00000000, 0x00000180, 0x2c4c700c, 0x000000f0, 0x93afb507, 0x5898e048])
    requires Rounds(h, block, 16) == Chain(0x20bdd62f, 0x196bee77, 0x644a3da5, 0x1181ed99, 0x18c623f9)
    ensures Words(block, 32,
      [0x8e9a9202, 0x00000600, 0xb131c0f0, 0x16263bc6, 0x4ebed41e, 0x626380a1, 0x16263806, 0x000018c0,
       0xd2e138c4, 0x00000f00, 0x3afb5079, 0x898e04e5, 0xe2ba3c2b, 0x000060c0, 0x053a37cd, 0x74458547])
    ensures Rounds(h, block, 32) == Chain(0x3b845d33, 0x1267b407, 0x717eebd7, 0xa0dc2d4b, 0xd2aa1365)
  {
    assert Rounds(h, block, 18) == Chain(0x82aa6728, 0x4e925823, 0xc82f758b, 0xc65afb9d, 0x644a3da5);
    assert Rounds(h, block, 20) == Chain(0xfd9e1d7d, 0xdc64901d, 0x20aa99ca, 0xd3a49608, 0xc82f758b);
    assert Rounds(h, block, 22) == Chain(0x33a23bfc, 0x1a37b0ca, 0x7f67875f, 0x77192407, 0x20aa99ca);
    assert Rounds(h, block, 24) == Chain(0xd541f12d, 0x21283486, 0x0ce88eff, 0x868dec32, 0x7f67875f);
    assert Rounds(h, block, 26) == Chain(0x48413ba4, 0xc7567dc6, 0x75507c4b, 0x884a0d21, 0x0ce88eff);
    assert Rounds(h, block, 28) == Chain(0x4aa84d97, 0xbe35fbd5, 0x12104ee9, 0xb1d59f71, 0x75507c4b);
    assert Rounds(h, block, 30) == Chain(0xc5fbaf5d, 0x8370b52e, 0xd2aa1365, 0x6f8d7ef5, 0x12104ee9);
  }

  lemma Abc32(h: Chain, block: seq<Word>)
    requires Words(block, 32,
      [0x8e9a9202, 0x00000600, 0xb131c0f0, 0x16263bc6, 0x4ebed41e, 0x626380a1, 0x16263806, 0x000018c0,
       0xd2e138c4, 0x00000f00, 0x3afb5079, 0x898e04e5, 0xe2ba3c2b, 0x000060c0, 0x053a37cd, 0x74458547])
    requires Rounds(h, block, 32) == Chain(0x3b845d33, 0x1267b407, 0x717eebd7, 0xa0dc2d4b, 0xd2aa1365)
    ensures Words(block, 48,
      [0xda9415ed, 0x26380a16, 0x626383a1, 0x4ebf54de, 0x3835b44b, 0x0000f600, 0x1e84c7a3, 0x98e04d98,
       0x651d16a0, 0x62658ca1, 0x458544d6, 0x44584cb7, 0x7ba06619, 0x6380aea2, 0x0ae55269, 0x627b49a1])
    ensures Rounds(h, block, 48) == Chain(0xbead02ca, 0xa01b846c, 0x8714787c, 0x503ca382, 0xfb86c6ab)
  {
    assert Rounds(h, block, 34) == Chain(0x2c0ebc11, 0x046faa0a, 0xcee1174c, 0xc499ed01, 0x717eebd7);
    assert Rounds(h, block, 36) == Chain(0xdcbbb0cb, 0x21796ad4, 0x4b03af04, 0x811bea82, 0xcee1174c);
    assert Rounds(h, block, 38) == Chain(0xdc63973f, 0x0f511fd8, 0xf72eec32, 0x085e5ab5, 0x4b03af04);
    assert Rounds(h, block, 40) == Chain(0x32de1cba, 0x4c986405, 0xf718e5cf, 0x03d447f6, 0xf72eec32);
    assert Rounds(h, block, 42) == Chain(0x970a0d5c, 0xfc87dedf, 0x8cb7872e, 0x53261901, 0xf718e5cf);
    assert Rounds(h, block, 44) == Chain(0xee1b1aaf, 0x7f193dc5, 0x25c28357, 0xff21f7b7, 0x8cb7872e);
    assert Rounds(h, block, 46) == Chain(0x1c51e1f2, 0x40f28e09, 0xfb86c6ab, 0x5fc64f71, 0x25c28357);
  }

  lemma Abc48(h: Chain, block: seq<Word>)
    requires Words(block, 48,
      [0xda9415ed, 0x26380a16, 0x626383a1, 0x4ebf54de, 0x3835b44b, 0x0000f600, 0x1e84c7a3, 0x98e04d98,
       0x651d16a0, 0x62658ca1, 0x458544d6, 0x44584cb7, 0x7ba06619, 0x6380aea2, 0x0ae55269, 0x627b49a1])
    requires Rounds(h, block, 48) == Chain(0xbead02ca, 0xa01b846c, 0x8714787c, 0x503ca382, 0xfb86c6ab)
    ensures Words(block, 64,
      [0x7cd45c9d, 0x000f0000, 0xfb50753a, 0xec6765e8, 0xba3c2be2, 0x0060c000, 0x3a37cd05, 0x458546f4,
       0xb8599dd6, 0x380a1a26, 0x01e02203, 0xe7cc3456, 0xe6e60b69, 0x00f60a00, 0x5795ef4f, 0x822e0879])
    ensures Rounds(h, block, 64) == Chain(0x6b61c9e1, 0xb66c020b, 0x9523272c, 0xf5d5b051, 0x8fd4b796)
  {
    assert Rounds(h, block, 50) == Chain(0x120731c5, 0xbaf39337, 0xafab40b2, 0x2806e11b, 0x8714787c);
    assert Rounds(h, block, 52) == Chain(0x3847ad66, 0x641db2ce, 0x4481cc71, 0xeebce4cd, 0xafab40b2);
    assert Rounds(h, block, 54) == Chain(0x27e9f1d8, 0xe490436d, 0x8e11eb59, 0x99076cb3, 0x4481cc71);
    assert Rounds(h, block, 56) == Chain(0x5e6456af, 0x7b71f76d, 0x09fa7c76, 0x792410db, 0x8e11eb59);
    assert Rounds(h, block, 58) == Chain(0xd262ff50, 0xc846093f, 0xd79915ab, 0x5edc7ddb, 0x09fa7c76);
    assert Rounds(h, block, 60) == Chain(0x3f52de5a, 0x09d785fd, 0x3498bfd4, 0xf211824f, 0xd79915ab);
    assert Rounds(h, block, 62) == Chain(0x548c9cb2, 0xd756c147, 0x8fd4b796, 0x4275e17f, 0x3498bfd4);
  }

  lemma Abc64(h: Chain, block: seq<Word>)
    requires Words(block, 64,
      [0x7cd45c9d, 0x000f0000, 0xfb50753a, 0xec6765e8, 0xba3c2be2, 0x0060c000, 0x3a37cd05, 0x458546f4,
       0xb8599dd6, 0x380a1a26, 0x01e02203, 0xe7cc3456, 0xe6e60b69, 0x00f60a00, 0x5795ef4f, 0x822e0879])
    requires Rounds(h, block, 64) == Chain(0x6b61c9e1, 0xb66c020b, 0x9523272c, 0xf5d5b051, 0x8fd4b796)
    ensures Rounds(h, block, 80) == Chain(0x42541b35, 0x5738d5e1, 0x21834873, 0x681e6df6, 0xd8fdf6ad)
  {
    assert Rounds(h, block, 66) == Chain(0x101655f9, 0x19dfa7ac, 0x5ad87278, 0xed9b0082, 0x9523272c);
    assert Rounds(h, block, 68) == Chain(0x78dd4d2b, 0x0c3df2b4, 0x4405957e, 0x0677e9eb, 0x5ad87278);
    assert Rounds(h, block, 70) == Chain(0x3f2588c2, 0x497093c0, 0xde37534a, 0x030f7cad, 0x4405957e);
    assert Rounds(h, block, 72) == Chain(0x39859de7, 0xc199f8c7, 0x8fc96230, 0x125c24f0, 0xde37534a);
    assert Rounds(h, block, 74) == Chain(0x11793f6f, 0xedb42de4, 0xce616779, 0xf0667e31, 0x8fc96230);
    assert Rounds(h, block, 76) == Chain(0x63f7dab7, 0x5ee76897, 0xc45e4fdb, 0x3b6d0b79, 0xce616779);
    assert Rounds(h, block, 78) == Chain(0x860d21cc, 0xa079b7d9, 0xd8fdf6ad, 0xd7b9da25, 0xc45e4fdb);
  }

  /** One block. */
  lemma AbcBlock(h: Chain, block: seq<Word>)
    requires h == Chain(0x67452301, 0xefcdab89, 0x98badcfe, 0x10325476, 0xc3d2e1f0)
    requires block == [0x61626380, 0x00000000, 0x00000000, 0x00000000, 0x00000000, 0x00000000, 0x00000000, 0x00000000,
                       0x00000000, 0x00000000, 0x00000000, 0x00000000, 0x00000000, 0x00000000, 0x00000000, 0x00000018]
    ensures Compress(h, block) == Chain(0xa9993e36, 0x4706816a, 0xba3e2571, 0x7850c26c, 0x9cd0d89d)
  {
    hide Words, Rounds, Schedule;
    FirstWords(block);
    NoRounds(h, block);
    Abc0(h, block);
    Abc16(h, block);
    Abc32(h, block);
    Abc48(h, block);
    Abc64(h, block);
  }

  const ABC: seq<Octet> := [0x61, 0x62, 0x63]

  lemma AbcWords(p: seq<Octet>)
    requires |p| == 64 && p[..4] == [0x61, 0x62, 0x63, 0x80] && (forall k | 4 <= k < 63 :: p[k] == 0) && p[63] == 0x18
    ensures Block(p) == [0x61626380, 0x00000000, 0x00000000, 0x00000000, 0x00000000, 0x00000000, 0x00000000, 0x00000000,
                          0x00000000, 0x00000000, 0x00000000, 0x00000000, 0x00000000, 0x00000000, 0x00000000, 0x00000018]
  {
    assert forall k | 0 <= k < 4 :: p[k] == p[..4][k];
    assert BigEndian(0x61, 0x62, 0x63, 0x80) == 0x61626380 && BigEndian(0, 0, 0, 0) == 0 && BigEndian(0, 0, 0, 0x18) == 0x18;
  }

  lemma AbcPadded(m: seq<Octet>)
    requires m == [0x61, 0x62, 0x63]
    ensures var p := Pad(m);
            |p| == 64 && p[..4] == [0x61, 0x62, 0x63, 0x80] && (forall k | 4 <= k < 63 :: p[k] == 0) && p[63] == 0x18
  {
    hide LengthField;
    SmallLength(24);
    assert Pad(m) == m + [0x80] + Zeros(52) + LengthField(24);
  }

  /** The digest of Appendix A. */
  lemma AbcDigest()
    ensures Digest(ABC) == [0xa9, 0x99, 0x3e, 0x36, 0x47, 0x06, 0x81, 0x6a, 0xba, 0x3e,
                            0x25, 0x71, 0x78, 0x50, 0xc2, 0x6c, 0x9c, 0xd0, 0xd8, 0x9d]
  {
    hide Block, Compress, BigEndian, WordBytes, Pad;
    AbcPadded(ABC);
    OneBlock(Pad(ABC));
    AbcWords(Pad(ABC));
    AbcBlock(H0, Block(Pad(ABC)));
    AbcBytes();
  }

  lemma AbcBytes()
    ensures ChainBytes(Chain(0xa9993e36, 0x4706816a, 0xba3e2571, 0x7850c26c, 0x9cd0d89d)) ==
      [0xa9, 0x99, 0x3e, 0x36, 0x47, 0x06, 0x81, 0x6a, 0xba, 0x3e,
       0x25, 0x71, 0x78, 0x50, 0xc2, 0x6c, 0x9c, 0xd0, 0xd8, 0x9d]
  {
  }

  // ----- Appendix B: abcdbcdecdefdefgefghfghighijhijkijkljklmklmnlmnomnopnopq

  lemma AlphabetFirst0(h: Chain, block: seq<Word>)
    requires Words(block, 0,
      [0x61626364, 0x62636465, 0x63646566, 0x64656667, 0x65666768, 0x66676869, 0x6768696a, 0x68696a6b,
       0x696a6b6c, 0x6a6b6c6d, 0x6b6c6d6e, 0x6c6d6e6f, 0x6d6e6f70, 0x6e6f7071, 0x80000000, 0x00000000])
    requires Rounds(h, block, 0) == Chain(0x67452301, 0xefcdab89, 0x98badcfe, 0x10325476, 0xc3d2e1f0)
    ensures Words(block, 16,
      [0x0a063a3e, 0xd8dadcdf, 0xdadcdec0, 0xc8d2b4be, 0x6f757b5b, 0x757b5967, 0x8da16d70, 0xdaeefaba,
       0xfaf6cab6, 0xa6fb675a, 0x0c604cc8, 0x604cc02c, 0x49c0e6e2, 0x2ee8cbbc, 0xcfd72ec4, 0x97e9810e])
    ensures Rounds(h, block, 16) == Chain(0x42637e39, 0xb2e7a8be, 0x4cbe52a1, 0xa180d207, 0xb867b2a8)
  {
    assert Rounds(h, block, 2) == Chain(0xebf3b452, 0x0116fc17, 0x59d148c0, 0x7bf36ae2, 0x98badcfe);
    assert Rounds(h, block, 4) == Chain(0x2c4f6eac, 0x5109913a, 0xbafced14, 0xc045bf05, 0x59d148c0);
    assert Rounds(h, block, 6) == Chain(0x96b85189, 0x33f4ae5b, 0x0b13dbab, 0x9442644e, 0xbafced14);
    assert Rounds(h, block, 8) == Chain(0x45833f0f, 0xdb04cb58, 0x65ae1462, 0xccfd2b96, 0x0b13dbab);
    assert Rounds(h, block, 10) == Chain(0x6350afda, 0xc565c35e, 0xd160cfc3, 0x36c132d6, 0x65ae1462);
    assert Rounds(h, block, 12) == Chain(0xe19ecaa2, 0x8993ea77, 0x98d42bf6, 0xb15970d7, 0xd160cfc3);
    assert Rounds(h, block, 14) == Chain(0x32f94a85, 0x8603481e, 0xb867b2a8, 0xe264fa9d, 0x98d42bf6);
  }

  lemma AlphabetFirst16(h: Chain, block: seq<Word>)
    requires Words(block, 16,
      [0x0a063a3e, 0xd8dadcdf, 0xdadcdec0, 0xc8d2b4be, 0x6f757b5b, 0x757b5967, 0x8da16d70, 0xdaeefaba,
       0xfaf6cab6, 0xa6fb675a, 0x0c604cc8, 0x604cc02c, 0x49c0e6e2, 0x2ee8cbbc, 0xcfd72ec4, 0x97e9810e])
    requires Rounds(h, block, 16) == Chain(0x42637e39, 0xb2e7a8be, 0x4cbe52a1, 0xa180d207, 0xb867b2a8)
    ensures Words(block, 32,
      [0x0989cbe8, 0xf24843fe, 0x5c40d0ba, 0xa8d9cc3b, 0xb2b9666e, 0xba7b71b7, 0x20b28a72, 0xb28af500,
       0x8ac87842, 0x289addf4, 0x56d51f21, 0xd96b7fd2, 0x3868e778, 0xab5e4848, 0x7f0e2118, 0xde87a111])
    ensures Rounds(h, block, 32) == Chain(0x52e31f60, 0xa9c84bec, 0x816d15ec, 0x78448908, 0x3549a991)
  {
    assert Rounds(h, block, 18) == Chain(0x426b9c35, 0x6b068048, 0x5098df8e, 0xacb9ea2f, 0x4cbe52a1);
    assert Rounds(h, block, 20) == Chain(0x6c445652, 0x944b1bd1, 0x509ae70d, 0x1ac1a012, 0x5098df8e);
    assert Rounds(h, block, 22) == Chain(0x09511177, 0x95836da5, 0x9b111594, 0x6512c6f4, 0x509ae70d);
    assert Rounds(h, block, 24) == Chain(0xfd224575, 0xe2b92dc4, 0xc254445d, 0x6560db69, 0x9b111594);
    assert Rounds(h, block, 26) == Chain(0x5a142c1a, 0xeeb82d9a, 0x7f48915d, 0x38ae4b71, 0xc254445d);
    assert Rounds(h, block, 28) == Chain(0xd526a644, 0x2972f7c7, 0x96850b06, 0xbbae0b66, 0x7f48915d);
    assert Rounds(h, block, 30) == Chain(0x05b457b2, 0xe1122421, 0x3549a991, 0xca5cbdf1, 0x96850b06);
  }

  lemma AlphabetFirst32(h: Chain, block: seq<Word>)
    requires Words(block, 32,
      [0x0989cbe8, 0xf24843fe, 0x5c40d0ba, 0xa8d9cc3b, 0xb2b9666e, 0xba7b71b7, 0x20b28a72, 0xb28af500,
       0x8ac87842, 0x289addf4, 0x56d51f21, 0xd96b7fd2, 0x3868e778, 0xab5e4848, 0x7f0e2118, 0xde87a111])
    requires Rounds(h, block, 32) == Chain(0x52e31f60, 0xa9c84bec, 0x816d15ec, 0x78448908, 0x3549a991)
    ensures Words(block, 48,
      [0xe8be56b0, 0x1a0ae652, 0xcd5611c8, 0x46ef29dc, 0x60d3da6d, 0xddf3ba6e, 0x2737f5e9, 0x4888a710,
       0xd2a1177b, 0x9999633b, 0xd6c69d03, 0xccf6127b, 0x7c58fe6d, 0xfdd99c68, 0xf8e32074, 0xe0ba3c7d])
    ensures Rounds(h, block, 48) == Chain(0xc8a69090, 0xa2ad4f02, 0xb1ba8907, 0x26307a99, 0x58cfa558)
  {
    assert Rounds(h, block, 34) == Chain(0x31c756a9, 0x5af3242c, 0x14b8c7d8, 0x2a7212fb, 0x816d15ec);
    assert Rounds(h, block, 36) == Chain(0xab7c32ee, 0xe9ac987c, 0x4c71d5aa, 0x16bcc90b, 0x14b8c7d8);
    assert Rounds(h, block, 38) == Chain(0x43f87ae9, 0x5933fc99, 0xaadf0cbb, 0x3a6b261f, 0x4c71d5aa);
    assert Rounds(h, block, 40) == Chain(0xadeb7478, 0x24957f22, 0x50fe1eba, 0x564cff26, 0xaadf0cbb);
    assert Rounds(h, block, 42) == Chain(0x79bcfb08, 0xd70e5010, 0x2b7add1e, 0x89255fc8, 0x50fe1eba);
    assert Rounds(h, block, 44) == Chain(0x633e9561, 0xf9bcb8de, 0x1e6f3ec2, 0x35c39404, 0x2b7add1e);
    assert Rounds(h, block, 46) == Chain(0xc6ea241e, 0x98c1ea64, 0x58cfa558, 0xbe6f2e37, 0x1e6f3ec2);
  }

  lemma AlphabetFirst48(h: Chain, block: seq<Word>)
    requires Words(block, 48,
      [0xe8be56b0, 0x1a0ae652, 0xcd5611c8, 0x46ef29dc, 0x60d3da6d, 0xddf3ba6e, 0x2737f5e9, 0x4888a710,
       0xd2a1177b, 0x9999633b, 0xd6c69d03, 0xccf6127b, 0x7c58fe6d, 0xfdd99c68, 0xf8e32074, 0xe0ba3c7d])
    requires Rounds(h, block, 48) == Chain(0xc8a69090, 0xa2ad4f02, 0xb1ba8907, 0x26307a99, 0x58cfa558)
    ensures Words(block, 64,
      [0x152198d6, 0x7b3f1982, 0x37f2d5b7, 0x8596323e, 0x810790d6, 0xbea0a942, 0x11c7e1b1, 0x6158d101,
       0x5fcd77d9, 0x7f2f12e6, 0xf868cfb1, 0xd6e997e9, 0xf526b852, 0xb7578dcc, 0x55d99df4, 0x1ff69958])
    ensures Rounds(h, block, 64) == Chain(0x513f9ca0, 0x2bfaf7a8, 0x10203537, 0xcd8952c4, 0xe7bddd70)
  {
    assert Rounds(h, block, 50) == Chain(0x7e846f58, 0x88341600, 0x3229a424, 0xa8ab53c0, 0xb1ba8907);
    assert Rounds(h, block, 52) == Chain(0x8d2e76c8, 0x86e358ba, 0x1fa11bd6, 0x220d0580, 0x3229a424);
    assert Rounds(h, block, 54) == Chain(0xedea95b1, 0xce892e10, 0x234b9db2, 0xa1b8d62e, 0x1fa11bd6);
    assert Rounds(h, block, 56) == Chain(0x776c3910, 0x36d1230a, 0x7b7aa56c, 0x33a24b84, 0x234b9db2);
    assert Rounds(h, block, 58) == Chain(0xac0a794f, 0xa681b723, 0x1ddb0e44, 0x8db448c2, 0x7b7aa56c);
    assert Rounds(h, block, 60) == Chain(0x9ef775c3, 0xf03d3782, 0xeb029e53, 0xe9a06dc8, 0x1ddb0e44);
    assert Rounds(h, block, 62) == Chain(0x4080d4dc, 0x36254b13, 0xe7bddd70, 0xbc0f4de0, 0xeb029e53);
  }

  lemma AlphabetFirst64(h: Chain, block: seq<Word>)
    requires Words(block, 64,
      [0x152198d6, 0x7b3f1982, 0x37f2d5b7, 0x8596323e, 0x810790d6, 0xbea0a942, 0x11c7e1b1, 0x6158d101,
       0x5fcd77d9, 0x7f2f12e6, 0xf868cfb1, 0xd6e997e9, 0xf526b852, 0xb7578dcc, 0x55d99df4, 0x1ff69958])
    requires Rounds(h, block, 64) == Chain(0x513f9ca0, 0x2bfaf7a8, 0x10203537, 0xcd8952c4, 0xe7bddd70)
    ensures Rounds(h, block, 80) == Chain(0x8ce34517, 0xd3ad7c25, 0x6b4e1883, 0x74351cd2, 0x86838382)
  {
    assert Rounds(h, block, 66) == Chain(0x1037d2d5, 0xe5895c81, 0x144fe728, 0x0afebdea, 0x10203537);
    assert Rounds(h, block, 68) == Chain(0x6d17c9fd, 0x14a82da9, 0x440df4b5, 0x79625720, 0x144fe728);
    assert Rounds(h, block, 70) == Chain(0xfdf6efff, 0x2c7b07bd, 0x5b45f27f, 0x452a0b6a, 0x440df4b5);
    assert Rounds(h, block, 72) == Chain(0x84065712, 0x112b96e3, 0xff7dbbff, 0x4b1ec1ef, 0x5b45f27f);
    assert Rounds(h, block, 74) == Chain(0xc5210e35, 0xab89fb71, 0xa10195c4, 0xc44ae5b8, 0xff7dbbff);
    assert Rounds(h, block, 76) == Chain(0x1a0e0e0a, 0x352d9f4b, 0x7148438d, 0x6ae27edc, 0xa10195c4);
    assert Rounds(h, block, 78) == Chain(0xad38620d, 0xd0d47349, 0x86838382, 0xcd4b67d2, 0x7148438d);
  }

  /** One block. */
  lemma AlphabetFirstBlock(h: Chain, block: seq<Word>)
    requires h == Chain(0x67452301, 0xefcdab89, 0x98badcfe, 0x10325476, 0xc3d2e1f0)
    requires block == [0x61626364, 0x62636465, 0x63646566, 0x64656667, 0x65666768, 0x66676869, 0x6768696a, 0x68696a6b,
                       0x696a6b6c, 0x6a6b6c6d, 0x6b6c6d6e, 0x6c6d6e6f, 0x6d6e6f70, 0x6e6f7071, 0x80000000, 0x00000000]
    ensures Compress(h, block) == Chain(0xf4286818, 0xc37b27ae, 0x0408f581, 0x84677148, 0x4a566572)
  {
    hide Words, Rounds, Schedule;
    FirstWords(block);
    NoRounds(h, block);
    AlphabetFirst0(h, block);
    AlphabetFirst16(h, block);
    AlphabetFirst32(h, block);
    AlphabetFirst48(h, block);
    AlphabetFirst64(h, block);
  }

  lemma AlphabetSecond0(h: Chain, block: seq<Word>)
    requires Words(block, 0,
      [0x00000000, 0x00000000, 0x00000000, 0x00000000, 0x00000000, 0x00000000, 0x00000000, 0x00000000,
       0x00000000, 0x00000000, 0x00000000, 0x00000000, 0x00000000, 0x00000000, 0x00000000, 0x000001c0])
    requires Rounds(h, block, 0) == Chain(0xf4286818, 0xc37b27ae, 0x0408f581, 0x84677148, 0x4a566572)
    ensures Words(block, 16,
      [0x00000000, 0x00000000, 0x00000380, 0x00000000, 0x00000000, 0x00000700, 0x00000000, 0x00000380,
       0x00000e00, 0x00000000, 0x00000000, 0x00001c00, 0x00000000, 0x00000d80, 0x00003800, 0x00000480])
    ensures Rounds(h, block, 16) == Chain(0xd9772360, 0x258b0baa, 0x2898132a, 0xffb35eef, 0xd0e89e4b)
  {
    assert Rounds(h, block, 2) == Chain(0x4d3dc58f, 0x2df257e9, 0x3d0a1a06, 0xb0dec9eb, 0x0408f581);
    assert Rounds(h, block, 4) == Chain(0xeef743c6, 0xc352bb05, 0xd34f7163, 0x4b7c95fa, 0x3d0a1a06);
    assert Rounds(h, block, 6) == Chain(0x5443915c, 0x41e34277, 0xbbbdd0f1, 0x70d4aec1, 0xd34f7163);
    assert Rounds(h, block, 8) == Chain(0xc6946813, 0xe7fa0377, 0x1510e457, 0xd078d09d, 0xbbbdd0f1);
    assert Rounds(h, block, 10) == Chain(0xb8538aca, 0xfdde1de1, 0xf1a51a04, 0xf9fe80dd, 0x1510e457);
    assert Rounds(h, block, 12) == Chain(0x43a2792f, 0x6ba94f63, 0xae14e2b2, 0x7f778778, 0xf1a51a04);
    assert Rounds(h, block, 14) == Chain(0xa2604ca8, 0xfecd7bbf, 0xd0e89e4b, 0xdaea53d8, 0xae14e2b2);
  }

  lemma AlphabetSecond16(h: Chain, block: seq<Word>)
    requires Words(block, 16,
      [0x00000000, 0x00000000, 0x00000380, 0x00000000, 0x00000000, 0x00000700, 0x00000000, 0x00000380,
       0x00000e00, 0x00000000, 0x00000000, 0x00001c00, 0x00000000, 0x00000d80, 0x00003800, 0x00000480])
    requires Rounds(h, block, 16) == Chain(0xd9772360, 0x258b0baa, 0x2898132a, 0xffb35eef, 0xd0e89e4b)
    ensures Words(block, 32,
      [0x00000000, 0x00007000, 0x00000e00, 0x00003600, 0x0000e000, 0x00000e00, 0x00000000, 0x0001ce00,
       0x00000000, 0x0000d800, 0x00038000, 0x00004f00, 0x00000000, 0x00070e00, 0x0000ee00, 0x00037500])
    ensures Rounds(h, block, 32) == Chain(0x8a4af384, 0x17986223, 0x028bec42, 0xc90a6f97, 0xd7105b6b)
  {
    assert Rounds(h, block, 18) == Chain(0xa51b58bc, 0x5507db6e, 0x365dc8d8, 0x8962c2ea, 0x2898132a);
    assert Rounds(h, block, 20) == Chain(0xd8992153, 0xc2eb709f, 0x2946d62f, 0x9541f6db, 0x365dc8d8);
    assert Rounds(h, block, 22) == Chain(0xee8700bd, 0x37482f5f, 0xf6264854, 0xf0badc27, 0x2946d62f);
    assert Rounds(h, block, 24) == Chain(0x8fbaa5b9, 0x9ad594b9, 0x7ba1c02f, 0xcdd20bd7, 0xf6264854);
    assert Rounds(h, block, 26) == Chain(0xeec50521, 0x88fb5867, 0x63eea96e, 0x66b5652e, 0x7ba1c02f);
    assert Rounds(h, block, 28) == Chain(0x5c416daf, 0x50bce434, 0x7bb14148, 0xe23ed619, 0x63eea96e);
    assert Rounds(h, block, 30) == Chain(0x0a2fb108, 0x2429be5f, 0xd7105b6b, 0x142f390d, 0x7bb14148);
  }

  lemma AlphabetSecond32(h: Chain, block: seq<Word>)
    requires Words(block, 32,
      [0x00000000, 0x00007000, 0x00000e00, 0x00003600, 0x0000e000, 0x00000e00, 0x00000000, 0x0001ce00,
       0x00000000, 0x0000d800, 0x00038000, 0x00004f00, 0x00000000, 0x00070e00, 0x0000ee00, 0x00037500])
    requires Rounds(h, block, 32) == Chain(0x8a4af384, 0x17986223, 0x028bec42, 0xc90a6f97, 0xd7105b6b)
    ensures Words(block, 48,
      [0x000e0000, 0x0000e000, 0x00003600, 0x001cee00, 0x00000000, 0x000df000, 0x00380000, 0x0004c600,
       0x0000e000, 0x0070ee00, 0x000ee000, 0x00369e00, 0x00e00000, 0x000ed600, 0x0000e000, 0x01cea600])
    ensures Rounds(h, block, 48) == Chain(0x46f93b68, 0x7316056a, 0xb0f40cfa, 0xcf2bb5eb, 0x7b074f58)
  {
    assert Rounds(h, block, 34) == Chain(0xf15f04f3, 0x6b629993, 0x2292bce1, 0xc5e61888, 0x028bec42);
    assert Rounds(h, block, 36) == Chain(0x696da404, 0x295cc25b, 0xfc57c13c, 0xdad8a664, 0x2292bce1);
    assert Rounds(h, block, 38) == Chain(0x87d5b80c, 0xcef5ae12, 0x1a5b6901, 0xca573096, 0xfc57c13c);
    assert Rounds(h, block, 40) == Chain(0x03bb6310, 0x84e2a5f2, 0x21f56e03, 0xb3bd6b84, 0x1a5b6901);
    assert Rounds(h, block, 42) == Chain(0xbfb25768, 0xc2d8f75f, 0x00eed8c4, 0xa138a97c, 0x21f56e03);
    assert Rounds(h, block, 44) == Chain(0xec1d3d61, 0x28589152, 0x2fec95da, 0xf0b63dd7, 0x00eed8c4);
    assert Rounds(h, block, 46) == Chain(0xc3d033ea, 0x3caed7af, 0x7b074f58, 0x8a162454, 0x2fec95da);
  }

  lemma AlphabetSecond48(h: Chain, block: seq<Word>)
    requires Words(block, 48,
      [0x000e0000, 0x0000e000, 0x00003600, 0x001cee00, 0x00000000, 0x000df000, 0x00380000, 0x0004c600,
       0x0000e000, 0x0070ee00, 0x000ee000, 0x00369e00, 0x00e00000, 0x000ed600, 0x0000e000, 0x01cea600])
    requires Rounds(h, block, 48) == Chain(0x46f93b68, 0x7316056a, 0xb0f40cfa, 0xcf2bb5eb, 0x7b074f58)
    ensures Words(block, 64,
      [0x00000000, 0x00d80000, 0x0380e000, 0x004f0000, 0x00000000, 0x070e0000, 0x00ee0000, 0x03751c00,
       0x0e000000, 0x00e0e000, 0x00363800, 0x1cee9000, 0x00000000, 0x0df09000, 0x3800e000, 0x04c77400])
    ensures Rounds(h, block, 64) == Chain(0xd504902b, 0xf66d9bf4, 0x24d85327, 0xdeaac406, 0xe996063d)
  {
    assert Rounds(h, block, 50) == Chain(0x850d411c, 0xdc8e7f26, 0x11be4eda, 0x9cc5815a, 0xb0f40cfa);
    assert Rounds(h, block, 52) == Chain(0x89fbd41d, 0x7e4672c0, 0x21435047, 0xb7239fc9, 0x11be4eda);
    assert Rounds(h, block, 54) == Chain(0x431d65bc, 0x1797e228, 0x627ef507, 0x1f919cb0, 0x21435047);
    assert Rounds(h, block, 56) == Chain(0x6da72e7f, 0x2bdbb8cb, 0x10c7596f, 0x05e5f88a, 0x627ef507);
    assert Rounds(h, block, 58) == Chain(0xe785655a, 0xa8495a9b, 0xdb69cb9f, 0xcaf6ee32, 0x10c7596f);
    assert Rounds(h, block, 60) == Chain(0xa65818f7, 0x5b086c42, 0xb9e15956, 0xea1256a6, 0xdb69cb9f);
    assert Rounds(h, block, 62) == Chain(0x93614c9c, 0x7aab101b, 0xe996063d, 0x96c21b10, 0xb9e15956);
  }

  lemma AlphabetSecond64(h: Chain, block: seq<Word>)
    requires Words(block, 64,
      [0x00000000, 0x00d80000, 0x0380e000, 0x004f0000, 0x00000000, 0x070e0000, 0x00ee0000, 0x03751c00,
       0x0e000000, 0x00e0e000, 0x00363800, 0x1cee9000, 0x00000000, 0x0df09000, 0x3800e000, 0x04c77400])
    requires Rounds(h, block, 64) == Chain(0xd504902b, 0xf66d9bf4, 0x24d85327, 0xdeaac406, 0xe996063d)
    ensures Rounds(h, block, 80) == Chain(0x906fd62c, 0x58c0aac0, 0xb6a55520, 0x74e9b89d, 0x9af00b7f)
  {
    assert Rounds(h, block, 66) == Chain(0x8b687819, 0x60a9da62, 0xf541240a, 0x3d9b66fd, 0x24d85327);
    assert Rounds(h, block, 68) == Chain(0xf6226bbf, 0x083e90c3, 0x62da1e06, 0x982a7698, 0xf541240a);
    assert Rounds(h, block, 70) == Chain(0x989dd165, 0x76c0563b, 0xfd889aef, 0xc20fa430, 0x62da1e06);
    assert Rounds(h, block, 72) == Chain(0xae1b8e7b, 0x8b2c7573, 0x66277459, 0xddb0158e, 0xfd889aef);
    assert Rounds(h, block, 74) == Chain(0x16f3babb, 0xca1840de, 0xeb86e39e, 0xe2cb1d5c, 0x66277459);
    assert Rounds(h, block, 76) == Chain(0x6bc02dfe, 0xd28d83ad, 0xc5bceeae, 0xb2861037, 0xeb86e39e);
    assert Rounds(h, block, 78) == Chain(0xda955482, 0xd3a6e275, 0x9af00b7f, 0x74a360eb, 0xc5bceeae);
  }

  /** One block. */
  lemma AlphabetSecondBlock(h: Chain, block: seq<Word>)
    requires h == Chain(0xf4286818, 0xc37b27ae, 0x0408f581, 0x84677148, 0x4a566572)
    requires block == [0x00000000, 0x00000000, 0x00000000, 0x00000000, 0x00000000, 0x00000000, 0x00000000, 0x00000000,
                       0x00000000, 0x00000000, 0x00000000, 0x00000000, 0x00000000, 0x00000000, 0x00000000, 0x000001c0]
    ensures Compress(h, block) == Chain(0x84983e44, 0x1c3bd26e, 0xbaae4aa1, 0xf95129e5, 0xe54670f1)
  {
    hide Words, Rounds, Schedule;
    FirstWords(block);
    NoRounds(h, block);
    AlphabetSecond0(h, block);
    AlphabetSecond16(h, block);
    AlphabetSecond32(h, block);
    AlphabetSecond48(h, block);
    AlphabetSecond64(h, block);
  }

  /** Fourteen words of four letters in a row, each a letter further: "abcd", "bcde" and so on. */
  const LETTERS: seq<Word> := [0x61626364, 0x62636465, 0x63646566, 0x64656667, 0x65666768, 0x66676869, 0x6768696a,
                               0x68696a6b, 0x696a6b6c, 0x6a6b6c6d, 0x6b6c6d6e, 0x6c6d6e6f, 0x6d6e6f70, 0x6e6f7071]

  const ALPHABET: seq<Octet> := BytesOf(LETTERS)

  /** Fourteen words and the one bit. */
  lemma FirstBlockWords(words: seq<Word>, p: seq<Octet>)
    requires |words| == 14 && |p| == 64 && p[..56] == BytesOf(words) && p[56] == 0x80 && forall k | 57 <= k < 64 :: p[k] == 0
    ensures Block(p) == words + [0x80000000, 0]
  {
    hide BigEndian, WordBytes, BytesOf;
    forall i: nat | i < 16
      ensures Block(p)[i] == (words + [0x80000000, 0])[i]
    {
      if i < 14 {
        BytesAt(words, i);
        assert p[4 * i..4 * i + 4] == p[..56][4 * i..4 * i + 4];
        WordRead(words[i], p[4 * i], p[4 * i + 1], p[4 * i + 2], p[4 * i + 3]);
      } else {
        AlphabetRest();
      }
    }
  }

  lemma WordRead(w: Word, x0: Octet, x1: Octet, x2: Octet, x3: Octet)
    requires [x0, x1, x2, x3] == WordBytes(w)
    ensures BigEndian(x0, x1, x2, x3) == w
  {
  }

  lemma AlphabetRest()
    ensures BigEndian(0x80, 0, 0, 0) == 0x80000000 && BigEndian(0, 0, 0, 0) == 0
  {
  }

  lemma AlphabetSecondWords(p: seq<Octet>)
    requires |p| == 64 && (forall k | 0 <= k < 62 :: p[k] == 0) && p[62] == 0x01 && p[63] == 0xc0
    ensures Block(p) == [0x00000000, 0x00000000, 0x00000000, 0x00000000, 0x00000000, 0x00000000, 0x00000000, 0x00000000,
                          0x00000000, 0x00000000, 0x00000000, 0x00000000, 0x00000000, 0x00000000, 0x00000000, 0x000001c0]
  {
    assert BigEndian(0, 0, 0, 0) == 0 && BigEndian(0, 0, 0x01, 0xc0) == 0x1c0;
  }

  /** Padding behind 56 bytes. */
  lemma PaddedAt(m: seq<Octet>)
    requires |m| == 56
    ensures var p := Pad(m);
            && |p| == 128 && p[..56] == m && p[56] == 0x80 && (forall k | 57 <= k < 126 :: p[k] == 0)
            && p[126] == 0x01 && p[127] == 0xc0
  {
    hide LengthField;
    SmallLength(448);
    assert (55 - |m|) % 64 == 63;
    assert Pad(m) == m + [0x80] + Zeros(63) + LengthField(448);
    assert LengthField(448)[6] == 0x01 && LengthField(448)[7] == 0xc0;
  }

  /** The digest of Appendix B. */
  lemma AlphabetDigest()
    ensures Digest(ALPHABET) == [0x84, 0x98, 0x3e, 0x44, 0x1c, 0x3b, 0xd2, 0x6e, 0xba, 0xae,
                                 0x4a, 0xa1, 0xf9, 0x51, 0x29, 0xe5, 0xe5, 0x46, 0x70, 0xf1]
  {
    hide Block, Compress, BigEndian, WordBytes, BytesOf, Pad;
    var p := Pad(ALPHABET);
    PaddedAt(ALPHABET);
    assert p[..64][..56] == p[..56];
    TwoBlocks(p);
    FirstBlockWords(LETTERS, p[..64]);
    AlphabetSecondWords(p[64..]);
    AlphabetFirstBlock(H0, Block(p[..64]));
    AlphabetSecondBlock(Compress(H0, Block(p[..64])), Block(p[64..]));
    AlphabetBytes();
  }

  lemma AlphabetBytes()
    ensures ChainBytes(Chain(0x84983e44, 0x1c3bd26e, 0xbaae4aa1, 0xf95129e5, 0xe54670f1)) ==
      [0x84, 0x98, 0x3e, 0x44, 0x1c, 0x3b, 0xd2, 0x6e, 0xba, 0xae,
       0x4a, 0xa1, 0xf9, 0x51, 0x29, 0xe5, 0xe5, 0x46, 0x70, 0xf1]
  {
  }

  // ----- the implementation

  /** Fed in pieces, however it is cut, each of the two messages has the digest of its example. */
  method ExamplesInPieces(pieces: seq<seq<Octet>>) returns (digest: seq<Octet>)
    ensures Sha1.Concat(pieces) == ABC ==>
      digest == [0xa9, 0x99, 0x3e, 0x36, 0x47, 0x06, 0x81, 0x6a, 0xba, 0x3e, 0x25, 0x71, 0x78, 0x50, 0xc2, 0x6c, 0x9c, 0xd0, 0xd8, 0x9d]
    ensures Sha1.Concat(pieces) == ALPHABET ==>
      digest == [0x84, 0x98, 0x3e, 0x44, 0x1c, 0x3b, 0xd2, 0x6e, 0xba, 0xae, 0x4a, 0xa1, 0xf9, 0x51, 0x29, 0xe5, 0xe5, 0x46, 0x70, 0xf1]
  {
    hide Digest;
    digest := Sha1.DigestOfPieces(pieces);
    AbcDigest();
    AlphabetDigest();
  }
}
