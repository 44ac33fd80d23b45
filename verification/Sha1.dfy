/** The streaming implementation: a block buffer that is filled by pieces, the digest of a
    full block over a 16-word buffer that is rewritten in place, and padding in place.
    The host is little-endian, so a word of the buffer is read least significant byte first. */
module Sha1 {
  import opened Sha1Spec

  const UINT64_RANGE: nat := 0x1_0000_0000_0000_0000

  /** A word of the buffer, as a little-endian host loads it. */
  function LoadWord(m: seq<Octet>, n: nat): Word
    requires |m| == 64 && n < 16
  {
    BigEndian(m[4 * n + 3], m[4 * n + 2], m[4 * n + 1], m[4 * n])
  }

  /** Byte i of a word in little-endian memory. */
  function ByteOf(w: Word, i: nat): Octet
    requires i < 4
  {
    WordBytes(w)[3 - i]
  }

  lemma StoreThenLoad(w: Word)
    ensures BigEndian(ByteOf(w, 3), ByteOf(w, 2), ByteOf(w, 1), ByteOf(w, 0)) == w
  {
  }

  /** m.b32: the sixteen words of the buffer. */
  function Words(m: seq<Octet>): (words: seq<Word>)
    requires |m| == 64
    ensures |words| == 16
  {
    seq(16, n requires 0 <= n < 16 => LoadWord(m, n))
  }

  /** The sixteen words before round t: the schedule words of the last sixteen rounds, each at
      its index modulo 16 (up to round 16, the words of the block itself). */
  ghost predicate Holds(words: seq<Word>, block: seq<Word>, t: nat)
    requires |words| == 16 && |block| == 16
  {
    if t <= 16 then words == block
    else forall i: nat :: t - 16 <= i < t ==> words[i % 16] == Schedule(block, i)
  }

  // ----- the constant table and the macros

  const K_TABLE: seq<Word> := [0x5a827999, 0x6ed9eba1, 0x8f1bbcdc, 0xca62c1d6]

  function S(n: nat, x: Word): Word
    requires 0 < n < 32
  {
    (x << n) | (x >> (32 - n))
  }

  /** The word that the first five are added up to in round t. */
  function Added(t: nat, a: Word, f: Word, e: Word, w: Word): Word
    requires t < 80
  {
    Sum(S(5, a), f, e, w, K_TABLE[t / 20])
  }

  lemma SameConstants(t: nat)
    requires t < 80
    ensures K_TABLE[t / 20] == K(t)
  {
  }

  lemma SameShift(n: nat, x: Word)
    requires 0 < n < 32
    ensures S(n, x) == RotateLeft(n, x)
  {
  }

  lemma AddedIsSum(t: nat, a: Word, f: Word, e: Word, w: Word)
    requires t < 80
    ensures Added(t, a, f, e, w) == Sum(RotateLeft(5, a), f, e, w, K(t))
  {
    SameConstants(t);
    SameShift(5, a);
    hide S, RotateLeft, K, Sum;
  }

  /** The word that round t computes, and where. */
  function NewWord(words: seq<Word>, t: nat): Word
    requires |words| == 16
  {
    var s := t % 16;
    S(1, words[(s + 13) % 16] ^ words[(s + 8) % 16] ^ words[(s + 2) % 16] ^ words[s])
  }

  lemma NewWordShifts(words: seq<Word>, t: nat)
    requires |words| == 16
    ensures var s := t % 16;
            NewWord(words, t) == RotateLeft(1, Xor(words[(s + 13) % 16], words[(s + 8) % 16], words[(s + 2) % 16], words[s]))
  {
    hide S, RotateLeft;
    var s := t % 16;
    SameShift(1, Xor(words[(s + 13) % 16], words[(s + 8) % 16], words[(s + 2) % 16], words[s]));
  }

  lemma HeldAt(words: seq<Word>, block: seq<Word>, t: nat, i: nat)
    requires |words| == 16 && |block| == 16 && Holds(words, block, t) && 16 <= t && t - 16 <= i < t
    ensures words[i % 16] == Schedule(block, i)
  {
  }

  /** The new word is the schedule's. */
  lemma NewWordIsScheduled(words: seq<Word>, block: seq<Word>, t: nat)
    requires |words| == 16 && |block| == 16 && Holds(words, block, t) && 16 <= t
    ensures NewWord(words, t) == Schedule(block, t)
  {
    hide RotateLeft, Holds, Xor, NewWord;
    NewWordShifts(words, t);
    HeldAt(words, block, t, t - 3);
    HeldAt(words, block, t, t - 8);
    HeldAt(words, block, t, t - 14);
    HeldAt(words, block, t, t - 16);
    Indices(t);
  }

  lemma ModShift(q: int, x: nat)
    ensures (16 * q + x) % 16 == x % 16
  {
  }

  lemma Indices(t: nat)
    requires 16 <= t
    ensures var s := t % 16;
            && (s + 13) % 16 == (t - 3) % 16 && (s + 8) % 16 == (t - 8) % 16 && (s + 2) % 16 == (t - 14) % 16
            && s == (t - 16) % 16
  {
    var q, s := t / 16 - 1, t % 16;
    assert t == 16 * (q + 1) + s;
    ModShift(q, s + 13);
    ModShift(q, s + 8);
    ModShift(q, s + 2);
    ModShift(q, s);
  }

  lemma OtherSlot(t: nat, i: nat)
    requires 16 <= t && t - 16 < i < t
    ensures i % 16 != t % 16
  {
  }

  /** The circular buffer keeps up with the 80-word schedule. */
  lemma CircularSchedule(words: seq<Word>, block: seq<Word>, t: nat)
    requires |words| == 16 && |block| == 16 && Holds(words, block, t) && 16 <= t
    ensures NewWord(words, t) == Schedule(block, t)
    ensures Holds(words[t % 16 := NewWord(words, t)], block, t + 1)
  {
    NewWordIsScheduled(words, block, t);
    SlotWritten(words, block, t, NewWord(words, t));
  }

  lemma SlotWritten(words: seq<Word>, block: seq<Word>, t: nat, w: Word)
    requires |words| == 16 && |block| == 16 && Holds(words, block, t) && 16 <= t && w == Schedule(block, t)
    ensures Holds(words[t % 16 := w], block, t + 1)
  {
    hide Schedule;
    var words' := words[t % 16 := w];
    forall i: nat | t + 1 - 16 <= i < t + 1
      ensures words'[i % 16] == Schedule(block, i)
    {
      if i < t {
        HeldAt(words, block, t, i);
        OtherSlot(t, i);
      }
    }
  }

  lemma Start(h: Chain, block: seq<Word>, words: seq<Word>)
    requires |block| == 16 && words == block
    ensures Holds(words, block, 0) && Rounds(h, block, 0) == h
  {
  }

  /** One round, with the function of its group of twenty already computed. */
  lemma NextRound(h: Chain, block: seq<Word>, t: nat, g: Chain, f: Word)
    requires |block| == 16 && t < 80 && g == Rounds(h, block, t) && f == F(t, g.b, g.c, g.d)
    ensures Chain(Added(t, g.a, f, g.e, Schedule(block, t)), g.a, S(30, g.b), g.c, g.d) == Rounds(h, block, t + 1)
  {
    hide RotateLeft, F, K, Schedule, Sum, Added, S;
    AddedIsSum(t, g.a, f, g.e, Schedule(block, t));
    SameShift(30, g.b);
  }

  /** The last block of a whole number of blocks. */
  lemma LastBlock(bytes: seq<Octet>)
    requires bytes != [] && |bytes| % 64 == 0
    ensures Blocks(bytes) == Compress(Blocks(bytes[..|bytes| - 64]), Block(bytes[|bytes| - 64..]))
  {
  }

  lemma LengthGrows(n: nat, k: nat)
    ensures (8 * n % UINT64_RANGE + k * 8) % UINT64_RANGE == 8 * (n + k) % UINT64_RANGE
  {
  }

  lemma ZerosAdd(a: nat, b: nat)
    ensures Zeros(a) + Zeros(b) == Zeros(a + b) && (a == 0 ==> Zeros(a) == [])
  {
  }

  lemma Multiple(d: int, z: int)
    requires d > 0
    ensures z >= 1 ==> d * z >= d
    ensures z <= -1 ==> d * z <= 0 - d
  {
  }

  lemma Quotient(n: nat, d: nat, x: nat, y: nat)
    requires y < d && n == d * x + y
    ensures n / d == x
  {
    var z := n / d - x;
    assert d * z == y - n % d by {
      assert d * z == d * (n / d) - d * x;
    }
    Multiple(d, z);
  }

  lemma QuotientOfSum(q: nat, d: nat, k: nat, r: nat)
    requires d > 0
    ensures (q * k * d + r) / d == q * k + r / d
  {
    var x, y := r / d, r % d;
    assert q * k * d + r == d * (q * k + x) + y;
    Quotient(q * k * d + r, d, q * k + x, y);
  }

  /** The byte of weight 256^i, for i < 8, does not see multiples of 2^64. */
  lemma LengthByteWraps(n: nat, i: nat)
    requires i < 8
    ensures LengthByte(n % UINT64_RANGE, i) == LengthByte(n, i)
  {
    hide Power256;
    var d, k, q, r := Power256(i), Power256(7 - i), n / UINT64_RANGE, n % UINT64_RANGE;
    PowersMultiply(i);
    assert q * (256 * k) * d == q * UINT64_RANGE by {
      assert q * (256 * k) * d == q * (256 * k * d);
    }
    QuotientOfSum(q, d, 256 * k, r);
    assert q * (256 * k) == 256 * (q * k);
    ModOfSum(q * k, r / d);
  }

  lemma ModOfSum(m: nat, x: nat)
    ensures (256 * m + x) % 256 == x % 256
  {
  }

  lemma PowersMultiply(i: nat)
    requires i < 8
    ensures 256 * Power256(7 - i) * Power256(i) == UINT64_RANGE
  {
    assert Power256(1) == 256 && Power256(2) == 256 * 256;
    assert Power256(3) == 0x100_0000 && Power256(4) == 0x1_0000_0000;
    assert Power256(5) == 0x100_0000_0000 && Power256(6) == 0x1_0000_0000_0000;
    assert Power256(7) == 0x100_0000_0000_0000;
  }

  /** The length field depends on the length modulo 2^64 only. */
  lemma LengthWraps(bits: nat)
    ensures LengthField(bits % UINT64_RANGE) == LengthField(bits)
  {
    hide LengthByte;
    forall i | 0 <= i < 8
      ensures LengthByte(bits % UINT64_RANGE, i) == LengthByte(bits, i)
    {
      LengthByteWraps(bits, i);
    }
  }

  /** The bytes of a word that a little-endian host holds, from the last to the first. */
  function Bytes(w: Word): seq<Octet> { [ByteOf(w, 3), ByteOf(w, 2), ByteOf(w, 1), ByteOf(w, 0)] }

  lemma BytesInOrder(w: Word)
    ensures Bytes(w) == WordBytes(w)
  {
    hide WordBytes;
  }

  /** The room left after the one bit, and the zero bits that follow. */
  lemma PadLengths(n: nat)
    ensures var p := 64 - (n + 1) % 64;
            if p < 8 then (n + 1 + p) % 64 == 0 && p + 56 == (55 - n) % 64 && (n + 1 + p + 56) % 64 == 56
            else p - 8 == (55 - n) % 64 && (n + 1 + (p - 8)) % 64 == 56
  {
  }

  /** The four bytes of word k are in the opposite order. */
  ghost predicate Swapped(was: seq<Octet>, now: seq<Octet>, k: nat)
    requires |was| == 64 && |now| == 64 && k < 16
  {
    && now[4 * k] == was[4 * k + 3] && now[4 * k + 1] == was[4 * k + 2]
    && now[4 * k + 2] == was[4 * k + 1] && now[4 * k + 3] == was[4 * k]
  }

  /** A byte swap and little-endian loads are big-endian loads. */
  lemma SwappedWords(was: seq<Octet>, now: seq<Octet>)
    requires |was| == 64 && |now| == 64 && forall k: nat :: k < 16 ==> Swapped(was, now, k)
    ensures Words(now) == Block(was)
  {
    hide BigEndian;
    forall k: nat | k < 16
      ensures Words(now)[k] == Block(was)[k]
    {
      assert Swapped(was, now, k);
    }
  }

  class Sha1Context {
    var h: Chain             // h.b32
    var c: nat               // c.b64[0], the message length in bits
    const m: array<Octet>    // m.b8
    var count: nat           // bytes waiting in m
    ghost var message: seq<Octet>

    /** The bytes fed so far: their whole blocks are in h, the rest of them in m. */
    ghost predicate Fed(bytes: seq<Octet>)
      reads this`h, this`count, m
    {
      && m.Length == 64
      && count == |bytes| % 64
      && h == Blocks(bytes[..|bytes| - count])
      && m[..count] == bytes[|bytes| - count..]
    }

    ghost predicate Valid()
      reads this, m
    {
      Fed(message) && c == 8 * |message| % UINT64_RANGE
    }

    constructor ()
      ensures Valid() && fresh(m) && message == []
    {
      m := new Octet[64];
      h := Chain(0x67452301, 0xefcdab89, 0x98badcfe, 0x10325476, 0xc3d2e1f0);
      c, count := 0, 0;
      message := [];
    }

    /** Store a word of the buffer. */
    method StoreWord(n: nat, w: Word)
      requires m.Length == 64 && n < 16
      modifies m
      ensures Words(m[..]) == old(Words(m[..]))[n := w]
    {
      m[4 * n], m[4 * n + 1], m[4 * n + 2], m[4 * n + 3] := ByteOf(w, 0), ByteOf(w, 1), ByteOf(w, 2), ByteOf(w, 3);
      StoreThenLoad(w);
    }

    /** Swap the bytes of every word of the buffer. */
    method SwapBytes()
      requires m.Length == 64
      modifies m
      ensures Words(m[..]) == old(Block(m[..]))
    {
      hide Words, Block;
      ghost var was := m[..];
      var i := 0;
      while i < 16
        invariant i <= 16
        invariant forall k :: 4 * i <= k < 64 ==> m[k] == was[k]
        invariant forall k: nat :: k < i ==>
          m[4 * k] == was[4 * k + 3] && m[4 * k + 1] == was[4 * k + 2]
          && m[4 * k + 2] == was[4 * k + 1] && m[4 * k + 3] == was[4 * k]
      {
        m[4 * i], m[4 * i + 1], m[4 * i + 2], m[4 * i + 3] := m[4 * i + 3], m[4 * i + 2], m[4 * i + 1], m[4 * i];
        i := i + 1;
      }
      SwappedWords(was, m[..]);
    }

    /** The word of round t; from round 16 on, written over the one of round t - 16. */
    method WordOf(t: nat, ghost block: seq<Word>) returns (w: Word)
      requires m.Length == 64 && |block| == 16 && Holds(Words(m[..]), block, t)
      modifies m
      ensures w == Schedule(block, t) && Holds(Words(m[..]), block, t + 1)
    {
      hide LoadWord, Words;
      var s := t % 16;
      if t >= 16 {
        CircularSchedule(Words(m[..]), block, t);
        w := NewWord(Words(m[..]), t);
        StoreWord(s, w);
      } else {
        w := Words(m[..])[s];
      }
    }

    /** The eighty rounds, in four groups of twenty. */
    method EightyRounds(ghost block: seq<Word>) returns (g: Chain)
      requires m.Length == 64 && |block| == 16 && Words(m[..]) == block
      modifies m
      ensures g == Rounds(h, block, 80)
    {
      hide LoadWord, Words, S, Schedule, Rounds, Holds, Added;
      ghost var h0 := h;
      Start(h0, block, Words(m[..]));
      var a, b, c, d, e := h.a, h.b, h.c, h.d, h.e;
      var t := 0;
      while t < 20
        invariant t <= 20 && Holds(Words(m[..]), block, t)
        invariant Chain(a, b, c, d, e) == Rounds(h0, block, t)
      {
        var w := WordOf(t, block);
        var f := ((b & c) | ((!b) & d));
        NextRound(h0, block, t, Chain(a, b, c, d, e), f);
        var tmp := Added(t, a, f, e, w);
        e, d, c, b, a := d, c, S(30, b), a, tmp;
        t := t + 1;
      }
      while t < 40
        invariant 20 <= t <= 40 && Holds(Words(m[..]), block, t)
        invariant Chain(a, b, c, d, e) == Rounds(h0, block, t)
      {
        var w := WordOf(t, block);
        var f := (b ^ c ^ d);
        NextRound(h0, block, t, Chain(a, b, c, d, e), f);
        var tmp := Added(t, a, f, e, w);
        e, d, c, b, a := d, c, S(30, b), a, tmp;
        t := t + 1;
      }
      while t < 60
        invariant 40 <= t <= 60 && Holds(Words(m[..]), block, t)
        invariant Chain(a, b, c, d, e) == Rounds(h0, block, t)
      {
        var w := WordOf(t, block);
        var f := ((b & c) | (b & d) | (c & d));
        NextRound(h0, block, t, Chain(a, b, c, d, e), f);
        var tmp := Added(t, a, f, e, w);
        e, d, c, b, a := d, c, S(30, b), a, tmp;
        t := t + 1;
      }
      while t < 80
        invariant 60 <= t <= 80 && Holds(Words(m[..]), block, t)
        invariant Chain(a, b, c, d, e) == Rounds(h0, block, t)
      {
        var w := WordOf(t, block);
        var f := (b ^ c ^ d);
        NextRound(h0, block, t, Chain(a, b, c, d, e), f);
        var tmp := Added(t, a, f, e, w);
        e, d, c, b, a := d, c, S(30, b), a, tmp;
        t := t + 1;
      }
      g := Chain(a, b, c, d, e);
    }

    /** Compress the block in the buffer. */
    method Step()
      requires m.Length == 64
      modifies this`h, m
      ensures h == Compress(old(h), old(Block(m[..])))
    {
      hide Words, Block, Rounds, AddChain;
      ghost var block := Block(m[..]);
      SwapBytes();
      var g := EightyRounds(block);
      h := AddChain(h, g);
      forall k | 0 <= k < 64 {
        m[k] := 0;
      }
    }

    /** Copy bytes behind what waits in the buffer, and compress the buffer if that fills it. */
    method CopyIn(piece: seq<Octet>, ghost bytes: seq<Octet>)
      requires Fed(bytes) && count + |piece| <= 64
      modifies this`h, this`count, m
      ensures Fed(bytes + piece) && count == |bytes + piece| % 64
    {
      hide Blocks, Block, Compress;
      ghost var head, bytes' := m[..count], bytes + piece;
      forall k | 0 <= k < |piece| {
        m[count + k] := piece[k];
      }
      assert m[..count + |piece|] == head + piece;
      ghost var done := |bytes| - count;
      assert bytes'[..done] == bytes[..done];
      assert bytes'[done..] == bytes[done..] + piece;
      count := count + |piece|;
      if count == 64 {
        count := 0;
        assert m[..64] == m[..];
        LastBlock(bytes');
        assert |bytes'| - 64 == done;
        Step();
        assert bytes'[..|bytes'|] == bytes';
      }
    }

    /** Copy a piece of the message that fits behind what waits in the buffer. */
    method Feed(piece: seq<Octet>)
      requires Valid() && count + |piece| <= 64
      modifies this`h, this`c, this`count, this`message, m
      ensures Valid() && message == old(message) + piece
    {
      hide Fed;
      CopyIn(piece, message);
      c := (c + |piece| * 8) % UINT64_RANGE;
      LengthGrows(|message|, |piece|);
      message := message + piece;
    }

    /** Feed more of the message. */
    method Loop(input: seq<Octet>)
      requires Valid()
      modifies this`h, this`c, this`count, this`message, m
      ensures Valid() && message == old(message) + input
    {
      hide Blocks, Fed;
      var off := 0;
      while off < |input|
        invariant off <= |input| && Valid()
        invariant message == old(message) + input[..off]
      {
        FedCount(message);
        var gapLen := 64 - count % 64;
        var copySize := if gapLen < |input| - off then gapLen else |input| - off;
        Feed(input[off..off + copySize]);
        assert input[..off] + input[off..off + copySize] == input[..off + copySize];
        off := off + copySize;
      }
      assert input[..|input|] == input;
    }

    lemma FedCount(bytes: seq<Octet>)
      requires Fed(bytes)
      ensures count == |bytes| % 64
    {
    }

    /** The one bit, and zero bits to the end of the block if the length has no room in it. */
    method PadBlock() returns (padLen: nat, ghost first: nat)
      requires Valid()
      modifies this`h, this`count, m
      ensures Fed(message + [0x80] + Zeros(first)) && 8 <= padLen && count == 64 - padLen
      ensures first + padLen - 8 == (55 - |message|) % 64
    {
      hide Fed, Zeros;
      FedCount(message);
      ghost var bytes := message + [0x80];
      CopyIn([0x80], message);
      padLen := 64 - count % 64;
      PadLengths(|message|);
      first := 0;
      ZerosAdd(0, 0);
      assert bytes + Zeros(0) == bytes;
      if padLen < 8 {
        first := padLen;
        CopyIn(Zeros(padLen), bytes);
        padLen := 64 - count % 64;
      }
    }

    /** The one bit and the zero bits: the buffer is left with room for the length. */
    method PadToLength()
      requires Valid()
      modifies this`h, this`count, m
      ensures Fed(message + [0x80] + Zeros((55 - |message|) % 64)) && count == 56
    {
      hide Fed, Zeros;
      ghost var bytes := message + [0x80];
      var padLen, first := PadBlock();
      ZerosAdd(first, padLen - 8);
      assert bytes + Zeros(first) + Zeros(padLen - 8) == bytes + (Zeros(first) + Zeros(padLen - 8));
      CopyIn(Zeros(padLen - 8), bytes + Zeros(first));
      FedCount(bytes + Zeros(first) + Zeros(padLen - 8));
    }

    /** Pad the message in the buffer: the length goes last, its high byte first. */
    method PadMessage()
      requires Valid()
      modifies this`h, this`count, m
      ensures Fed(Pad(message)) && count == 0
    {
      hide Blocks, LengthByte, Zeros, Fed, Power256;
      PadToLength();
      ghost var bytes := message + [0x80] + Zeros((55 - |message|) % 64);
      ghost var put := [];
      assert bytes + put == bytes;
      var i := 8;
      while i > 0
        invariant 0 <= i <= 8 && |put| == 8 - i && put == LengthField(c)[..8 - i]
        invariant Fed(bytes + put) && count == |bytes + put| % 64
      {
        i := i - 1;
        CopyIn([LengthByte(c, i)], bytes + put);
        assert bytes + put + [LengthByte(c, i)] == bytes + (put + [LengthByte(c, i)]);
        put := put + [LengthByte(c, i)];
      }
      LengthWraps(8 * |message|);
      assert put == LengthField(c);
    }

    /** The digest. The words of h are read byte by byte, the most significant first. */
    method Result() returns (digest: seq<Octet>)
      requires Valid()
      modifies this`h, this`count, m
      ensures digest == Digest(message)
    {
      hide Blocks, Pad, WordBytes;
      PadMessage();
      ghost var bytes := Pad(message);
      assert bytes[..|bytes| - 0] == bytes;
      BytesInOrder(h.a);
      BytesInOrder(h.b);
      BytesInOrder(h.c);
      BytesInOrder(h.d);
      BytesInOrder(h.e);
      digest := Bytes(h.a) + Bytes(h.b) + Bytes(h.c) + Bytes(h.d) + Bytes(h.e);
    }
  }

  function Concat(pieces: seq<seq<Octet>>): seq<Octet> {
    var n := |pieces|;
    if n == 0 then [] else Concat(pieces[..n - 1]) + pieces[n - 1]
  }

  /** However a message is cut into pieces, the streamed digest is the digest of the message. */
  method DigestOfPieces(pieces: seq<seq<Octet>>) returns (digest: seq<Octet>)
    ensures digest == Digest(Concat(pieces))
  {
    hide Digest;
    var ctx := new Sha1Context();
    var i := 0;
    while i < |pieces|
      invariant i <= |pieces| && ctx.Valid() && fresh(ctx) && fresh(ctx.m)
      invariant ctx.message == Concat(pieces[..i])
    {
      assert pieces[..i + 1][..i] == pieces[..i];
      ctx.Loop(pieces[i]);
      i := i + 1;
    }
    assert pieces[..|pieces|] == pieces;
    digest := ctx.Result();
  }
}
