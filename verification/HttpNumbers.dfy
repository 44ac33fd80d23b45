/** The two 64-bit accumulators of the parser: Content-Length values and chunk sizes. */
module HttpNumbers {
  import opened HttpTypes
  import opened HttpMachine
  import opened HttpBatch

  /** The largest Content-Length and the largest chunk size the parser takes; the overflow
      tests are conservative, so both are a little less than 2^64 - 1. */
  const MAX_DECIMAL: nat := 18446744073709551609
  const MAX_HEX: nat := 18446744073709551599

  predicate AllDigits(ds: Bytes) { forall i :: 0 <= i < |ds| ==> IsNum(ds[i]) }

  /** The value of decimal digits read after a number `n`. */
  function Decimal(n: nat, ds: Bytes): nat
    requires AllDigits(ds)
  {
    var k := |ds|;
    if k == 0 then n else Decimal(n, ds[..k - 1]) * 10 + Digit(ds[k - 1])
  }

  /** A Content-Length value is accepted exactly when it is at most MAX_DECIMAL, and then it
      is the decimal number written: no wrap-around, and never the sentinel. */
  lemma {:induction false} ContentLengthValue(h: Scan, ds: Bytes)
    requires h.headerState == ContentLengthNum && h.contentLength <= MAX_DECIMAL && AllDigits(ds)
    ensures ValueAll(h, ds) ==
              if Decimal(h.contentLength, ds) <= MAX_DECIMAL then
                Good(h.(contentLength := Decimal(h.contentLength, ds)))
              else Bad(InvalidContentLength)
    decreases |ds|
  {
    var k := |ds|;
    if k > 0 {
      ContentLengthValue(h, ds[..k - 1]);
      var n := Decimal(h.contentLength, ds[..k - 1]);
      if n <= MAX_DECIMAL {
        DigitStep(h.(contentLength := n), ds[k - 1]);
      }
    }
  }

  lemma DigitStep(h: Scan, d: Byte)
    requires h.headerState == ContentLengthNum && h.contentLength <= MAX_DECIMAL && IsNum(d)
    ensures var n := h.contentLength * 10 + Digit(d);
            ValueByte(h, d) ==
              if n <= MAX_DECIMAL then Good(h.(contentLength := n)) else Bad(InvalidContentLength)
  {
  }

  predicate AllHex(ds: Bytes) { forall i :: 0 <= i < |ds| ==> Unhex(ds[i]) != -1 }

  /** The value of chunk size characters read after a number `n`. */
  function Hexadecimal(n: nat, ds: Bytes): nat
    requires AllHex(ds)
  {
    var k := |ds|;
    if k == 0 then n else Hexadecimal(n, ds[..k - 1]) * 16 + Unhex(ds[k - 1])
  }

  /** The chunk size characters are the hexadecimal digits, and, because the table is only
      half written out, every byte from 0x80 up, which counts as a zero. */
  lemma HexCharacters(c: Byte)
    ensures Unhex(c) != -1 <==> IsHex(c) || c as int >= 128
    ensures c as int >= 128 ==> Unhex(c) == 0
  {
  }
}
