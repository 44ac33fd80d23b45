/** The capacity that storage is allocated with, on machine words, and that it is the capacity the buffer's
    storage is modelled with. */
module NextPowerOfTwo {
  import ByteBuffers

  predicate IsPowerOfTwo(n: bv32) { n != 0 && n & (n - 1) == 0 }

  /** A power of two not below `self` whose half is; all ones when there is none. */
  predicate Smeared(self: bv32, n: bv32) {
    if self <= 0x8000_0000 then IsPowerOfTwo(n) && self <= n && (n == 1 || n >> 1 < self) else n == 0xFFFF_FFFF
  }

  /** Smears the highest bit downwards. */
  method NextPowerOf2ClampedToMax(self: bv32) returns (n: bv32)
    ensures Smeared(self, n)
  {
    if !(self > 0) {
      return 1;
    }
    n := self;
    n := n - 1;
    n := n | (n >> 1);
    n := n | (n >> 2);
    n := n | (n >> 4);
    n := n | (n >> 8);
    n := n | (n >> 16);
    if n != 0xFFFF_FFFF {
      n := n + 1;
    }
  }

  /** Which is the least power of two that is not smaller. */
  lemma NextIsLeast(self: bv32, n: bv32, m: bv32)
    requires IsPowerOfTwo(n) && (n == 1 || n >> 1 < self)
    requires IsPowerOfTwo(m) && self <= m
    ensures n <= m
  {
  }

  // ----- the same on numbers

  function AsNumber(w: bv32): nat { w as nat }

  /** The powers of two, as words and as numbers. */
  function Power(k: nat): bv32
    requires k < 32
  {
    match k
    case 0 => 0x1 case 1 => 0x2 case 2 => 0x4 case 3 => 0x8
    case 4 => 0x10 case 5 => 0x20 case 6 => 0x40 case 7 => 0x80
    case 8 => 0x100 case 9 => 0x200 case 10 => 0x400 case 11 => 0x800
    case 12 => 0x1000 case 13 => 0x2000 case 14 => 0x4000 case 15 => 0x8000
    case 16 => 0x10000 case 17 => 0x20000 case 18 => 0x40000 case 19 => 0x80000
    case 20 => 0x100000 case 21 => 0x200000 case 22 => 0x400000 case 23 => 0x800000
    case 24 => 0x1000000 case 25 => 0x2000000 case 26 => 0x4000000 case 27 => 0x8000000
    case 28 => 0x10000000 case 29 => 0x20000000 case 30 => 0x40000000 case _ => 0x80000000
  }

  function Number(k: nat): nat
    requires k < 32
  {
    match k
    case 0 => 0x1 case 1 => 0x2 case 2 => 0x4 case 3 => 0x8
    case 4 => 0x10 case 5 => 0x20 case 6 => 0x40 case 7 => 0x80
    case 8 => 0x100 case 9 => 0x200 case 10 => 0x400 case 11 => 0x800
    case 12 => 0x1000 case 13 => 0x2000 case 14 => 0x4000 case 15 => 0x8000
    case 16 => 0x10000 case 17 => 0x20000 case 18 => 0x40000 case 19 => 0x80000
    case 20 => 0x100000 case 21 => 0x200000 case 22 => 0x400000 case 23 => 0x800000
    case 24 => 0x1000000 case 25 => 0x2000000 case 26 => 0x4000000 case 27 => 0x8000000
    case 28 => 0x10000000 case 29 => 0x20000000 case 30 => 0x40000000 case _ => 0x80000000
  }

  lemma Limits0(w: bv32)
    ensures w <= 0x1 <==> w as nat <= 0x1
    ensures w <= 0x2 <==> w as nat <= 0x2
    ensures w <= 0x4 <==> w as nat <= 0x4
    ensures w <= 0x8 <==> w as nat <= 0x8
    ensures w <= 0x10 <==> w as nat <= 0x10
    ensures w <= 0x20 <==> w as nat <= 0x20
    ensures w <= 0x40 <==> w as nat <= 0x40
    ensures w <= 0x80 <==> w as nat <= 0x80
  {
  }

  lemma Limits8(w: bv32)
    ensures w <= 0x100 <==> w as nat <= 0x100
    ensures w <= 0x200 <==> w as nat <= 0x200
    ensures w <= 0x400 <==> w as nat <= 0x400
    ensures w <= 0x800 <==> w as nat <= 0x800
    ensures w <= 0x1000 <==> w as nat <= 0x1000
    ensures w <= 0x2000 <==> w as nat <= 0x2000
    ensures w <= 0x4000 <==> w as nat <= 0x4000
    ensures w <= 0x8000 <==> w as nat <= 0x8000
  {
  }

  lemma Limits16(w: bv32)
    ensures w <= 0x10000 <==> w as nat <= 0x10000
    ensures w <= 0x20000 <==> w as nat <= 0x20000
    ensures w <= 0x40000 <==> w as nat <= 0x40000
    ensures w <= 0x80000 <==> w as nat <= 0x80000
    ensures w <= 0x100000 <==> w as nat <= 0x100000
    ensures w <= 0x200000 <==> w as nat <= 0x200000
    ensures w <= 0x400000 <==> w as nat <= 0x400000
    ensures w <= 0x800000 <==> w as nat <= 0x800000
  {
  }

  lemma Limits24(w: bv32)
    ensures w <= 0x1000000 <==> w as nat <= 0x1000000
    ensures w <= 0x2000000 <==> w as nat <= 0x2000000
    ensures w <= 0x4000000 <==> w as nat <= 0x4000000
    ensures w <= 0x8000000 <==> w as nat <= 0x8000000
    ensures w <= 0x10000000 <==> w as nat <= 0x10000000
    ensures w <= 0x20000000 <==> w as nat <= 0x20000000
    ensures w <= 0x40000000 <==> w as nat <= 0x40000000
    ensures w <= 0x80000000 <==> w as nat <= 0x80000000
  {
  }

  lemma LimitsIn0(w: bv32, k: nat)
    requires k < 8
    ensures w <= Power(k) <==> AsNumber(w) <= Number(k)
  {
    Limits0(w);
  }

  lemma LimitsIn8(w: bv32, k: nat)
    requires 8 <= k < 16
    ensures w <= Power(k) <==> AsNumber(w) <= Number(k)
  {
    Limits8(w);
  }

  lemma LimitsIn16(w: bv32, k: nat)
    requires 16 <= k < 24
    ensures w <= Power(k) <==> AsNumber(w) <= Number(k)
  {
    Limits16(w);
  }

  lemma LimitsIn24(w: bv32, k: nat)
    requires 24 <= k < 32
    ensures w <= Power(k) <==> AsNumber(w) <= Number(k)
  {
    Limits24(w);
  }

  /** Words compare with powers of two as numbers do. */
  lemma Limits(w: bv32, k: nat)
    requires k < 32
    ensures w <= Power(k) <==> AsNumber(w) <= Number(k)
  {
    hide AsNumber, Power, Number;
    if k < 8 { LimitsIn0(w, k); } else if k < 16 { LimitsIn8(w, k); } else if k < 24 { LimitsIn16(w, k); } else { LimitsIn24(w, k); }
  }

  lemma Values0()
    ensures (0x1 as bv32) as nat == 0x1 && (0x2 as bv32) as nat == 0x2 && (0x4 as bv32) as nat == 0x4 && (0x8 as bv32) as nat == 0x8
    ensures (0x10 as bv32) as nat == 0x10 && (0x20 as bv32) as nat == 0x20 && (0x40 as bv32) as nat == 0x40 && (0x80 as bv32) as nat == 0x80
  {
  }

  lemma Values8()
    ensures (0x100 as bv32) as nat == 0x100 && (0x200 as bv32) as nat == 0x200 && (0x400 as bv32) as nat == 0x400 && (0x800 as bv32) as nat == 0x800
    ensures (0x1000 as bv32) as nat == 0x1000 && (0x2000 as bv32) as nat == 0x2000 && (0x4000 as bv32) as nat == 0x4000 && (0x8000 as bv32) as nat == 0x8000
  {
  }

  lemma Values16()
    ensures (0x10000 as bv32) as nat == 0x10000 && (0x20000 as bv32) as nat == 0x20000 && (0x40000 as bv32) as nat == 0x40000 && (0x80000 as bv32) as nat == 0x80000
    ensures (0x100000 as bv32) as nat == 0x100000 && (0x200000 as bv32) as nat == 0x200000 && (0x400000 as bv32) as nat == 0x400000 && (0x800000 as bv32) as nat == 0x800000
  {
  }

  lemma Values24()
    ensures (0x1000000 as bv32) as nat == 0x1000000 && (0x2000000 as bv32) as nat == 0x2000000 && (0x4000000 as bv32) as nat == 0x4000000 && (0x8000000 as bv32) as nat == 0x8000000
    ensures (0x10000000 as bv32) as nat == 0x10000000 && (0x20000000 as bv32) as nat == 0x20000000 && (0x40000000 as bv32) as nat == 0x40000000 && (0x80000000 as bv32) as nat == 0x80000000
  {
  }

  lemma Values(k: nat)
    requires k < 32
    ensures AsNumber(Power(k)) == Number(k)
  {
    Values0();
    Values8();
    Values16();
    Values24();
  }

  lemma Halves(k: nat)
    requires 0 < k < 32
    ensures Power(k) >> 1 == Power(k - 1) && Number(k) == 2 * Number(k - 1) && Power(k) != 1
  {
  }

  /** There are no other powers of two. */
  lemma Exponent(n: bv32) returns (k: nat)
    requires IsPowerOfTwo(n)
    ensures k < 32 && n == Power(k)
  {
    NoOther(n);
    k :| k < 32 && n == Power(k);
  }

  lemma NoOther(n: bv32)
    requires IsPowerOfTwo(n)
    ensures exists k: nat :: k < 32 && n == Power(k)
  {
    assert Power(0) == 0x1 && Power(1) == 0x2 && Power(2) == 0x4 && Power(3) == 0x8;
    assert Power(4) == 0x10 && Power(5) == 0x20 && Power(6) == 0x40 && Power(7) == 0x80;
    assert Power(8) == 0x100 && Power(9) == 0x200 && Power(10) == 0x400 && Power(11) == 0x800;
    assert Power(12) == 0x1000 && Power(13) == 0x2000 && Power(14) == 0x4000 && Power(15) == 0x8000;
    assert Power(16) == 0x10000 && Power(17) == 0x20000 && Power(18) == 0x40000 && Power(19) == 0x80000;
    assert Power(20) == 0x100000 && Power(21) == 0x200000 && Power(22) == 0x400000 && Power(23) == 0x800000;
    assert Power(24) == 0x1000000 && Power(25) == 0x2000000 && Power(26) == 0x4000000 && Power(27) == 0x8000000;
    assert Power(28) == 0x10000000 && Power(29) == 0x20000000 && Power(30) == 0x40000000 && Power(31) == 0x80000000;
    assert n in {0x1, 0x2, 0x4, 0x8, 0x10, 0x20, 0x40, 0x80, 0x100, 0x200, 0x400, 0x800, 0x1000, 0x2000, 0x4000, 0x8000,
                 0x10000, 0x20000, 0x40000, 0x80000, 0x100000, 0x200000, 0x400000, 0x800000, 0x1000000, 0x2000000, 0x4000000, 0x8000000, 0x10000000, 0x20000000, 0x40000000, 0x80000000};
  }

  lemma {:induction false} DoublesUpTo(n: nat, j: nat, k: nat)
    requires j <= k < 32 && n <= Number(k) && (k > 0 ==> Number(k - 1) < n)
    ensures ByteBuffers.PowerOfTwoFrom(n, Number(j)) == Number(k)
    decreases k - j
  {
    hide Number;
    if j < k {
      Grows(j, k - 1);
      Halves(j + 1);
      DoublesUpTo(n, j + 1, k);
    }
  }

  lemma {:induction false} Grows(j: nat, k: nat)
    requires j <= k < 32
    ensures 0 < Number(j) <= Number(k)
    decreases k
  {
    if j < k {
      Grows(j, k - 1);
      Halves(k);
    }
  }

  predicate SameNumber(self: bv32, n: bv32) {
    && AsNumber(self) <= ByteBuffers.MAX_INDEX
    && AsNumber(n) == ByteBuffers.NextPowerOf2ClampedToMax(AsNumber(self))
  }

  lemma SmearedPower(self: bv32, n: bv32) returns (k: nat)
    requires Smeared(self, n) && self <= 0x8000_0000
    ensures k < 32 && n == Power(k)
  {
    k := Exponent(n);
  }

  lemma SmearedHalf(self: bv32, k: nat)
    requires k < 32 && Smeared(self, Power(k)) && self <= 0x8000_0000
    ensures self <= Power(k) && (k > 0 ==> Power(k - 1) < self)
  {
    if k > 0 {
      Halves(k);
    }
  }

  lemma PowerCase(self: bv32, k: nat)
    requires k < 32 && Smeared(self, Power(k)) && self <= 0x8000_0000
    ensures SameNumber(self, Power(k))
  {
    hide AsNumber, Power, Number, Smeared, ByteBuffers.NextPowerOf2ClampedToMax;
    SmearedHalf(self, k);
    Between(self, k);
    Values(k);
    NumberBelow(AsNumber(self), k);
  }

  lemma LargeWord(self: bv32)
    requires self > 0x8000_0000
    ensures SameNumber(self, 0xFFFF_FFFF)
  {
    hide AsNumber, Power, Number, ByteBuffers.NextPowerOf2ClampedToMax;
    WordInRange(self);
    Limits(self, 31);
    One();
    AboveAll(AsNumber(self));
    LargestWord();
  }

  /** The word and the number agree, for every word. */
  lemma WordAndNumber(self: bv32, n: bv32)
    requires Smeared(self, n)
    ensures SameNumber(self, n)
  {
    if self <= 0x8000_0000 {
      hide Power, Smeared, SameNumber;
      var k := SmearedPower(self, n);
      PowerCase(self, k);
    } else {
      LargeWord(self);
    }
  }

  lemma Between(self: bv32, k: nat)
    requires k < 32 && self <= Power(k) && (k > 0 ==> Power(k - 1) < self)
    ensures AsNumber(self) <= Number(k) && (k > 0 ==> Number(k - 1) < AsNumber(self))
  {
    hide AsNumber, Power, Number;
    Limits(self, k);
    if k > 0 {
      Limits(self, k - 1);
    }
  }

  lemma NumberBelow(n: nat, k: nat)
    requires k < 32 && n <= Number(k) && (k > 0 ==> Number(k - 1) < n)
    ensures n <= ByteBuffers.MAX_INDEX && Number(k) == ByteBuffers.NextPowerOf2ClampedToMax(n)
  {
    hide Number;
    One();
    DoublesUpTo(n, 0, k);
    Grows(k, 31);
  }

  lemma LargestWord()
    ensures AsNumber(0xFFFF_FFFF) == 0xFFFF_FFFF
  {
  }

  lemma WordInRange(w: bv32)
    ensures AsNumber(w) <= ByteBuffers.MAX_INDEX
  {
  }

  lemma One()
    ensures Number(0) == 1 && Number(31) == 0x8000_0000 && Power(31) == 0x8000_0000
  {
  }

  lemma {:induction false} DoublesOn(n: nat, j: nat)
    requires j < 32 && Number(31) < n
    ensures 0 < Number(j) && ByteBuffers.PowerOfTwoFrom(n, Number(j)) == ByteBuffers.PowerOfTwoFrom(n, Number(31))
    decreases 31 - j
  {
    hide Number;
    Grows(j, 31);
    if j < 31 {
      Halves(j + 1);
      DoublesOn(n, j + 1);
    }
  }

  lemma AboveAll(n: nat)
    requires 0x8000_0000 < n <= ByteBuffers.MAX_INDEX
    ensures ByteBuffers.NextPowerOf2ClampedToMax(n) == ByteBuffers.MAX_INDEX
  {
    hide Number;
    One();
    DoublesOn(n, 0);
  }
}
