/** The wire format of Protocol Buffers, as far as the six messages need it: varints and
    length-delimited fields, tags, and messages as sequences of fields. */
module ProtoWire {
  import opened Wrappers

  type Byte = n: int | 0 <= n < 256
  type Int32 = n: int | -0x8000_0000 <= n <= 0x7FFF_FFFF

  const INT_MAX: nat := 0x7FFF_FFFF
  const TWO_TO_THE_32: nat := 0x1_0000_0000
  const TWO_TO_THE_64: nat := 0x1_0000_0000_0000_0000

  /** A number in groups of seven bits, the lowest first; all but the last have the top bit set. */
  function Varint(n: nat): (r: seq<Byte>)
    ensures 0 < |r|
  {
    if n < 128 then [n] else [n % 128 + 128] + Varint(n / 128)
  }

  datatype Read<+T> = Malformed | Got(value: T, rest: seq<Byte>)

  /** The number at the start of the input, in at most `k` bytes. */
  function ReadVarint(s: seq<Byte>, k: nat): (r: Read<nat>)
    ensures r.Got? ==> |r.rest| < |s| && r.rest == s[|s| - |r.rest|..]
    decreases k
  {
    if k == 0 || s == [] then Malformed
    else if s[0] < 128 then Got(s[0], s[1..])
    else
      var r := ReadVarint(s[1..], k - 1);
      if r.Malformed? then Malformed else Got(s[0] - 128 + 128 * r.value, r.rest)
  }

  function Power128(k: nat): nat {
    if k == 0 then 1 else 128 * Power128(k - 1)
  }

  lemma {:induction false} VarintRoundTrip(n: nat, k: nat, rest: seq<Byte>)
    requires 0 < k && n < Power128(k)
    ensures ReadVarint(Varint(n) + rest, k) == Got(n, rest)
    decreases k
  {
    var s := Varint(n) + rest;
    if n < 128 {
      assert s[1..] == rest;
    } else {
      assert s[1..] == Varint(n / 128) + rest;
      VarintRoundTrip(n / 128, k - 1, rest);
    }
  }

  /** Ten bytes hold every 64-bit number. */
  lemma Varint64RoundTrip(n: nat, rest: seq<Byte>)
    requires n < TWO_TO_THE_64
    ensures ReadVarint(Varint(n) + rest, 10) == Got(n, rest)
  {
    assert Power128(5) == 0x8_0000_0000;
    assert Power128(8) == 128 * 128 * 128 * Power128(5);
    assert Power128(10) == 128 * 128 * Power128(8);
    VarintRoundTrip(n, 10, rest);
  }

  /** `ComputeRawVarint32Size`. */
  function Varint32Size(n: nat): nat
    requires n < TWO_TO_THE_32
  {
    if n < 0x80 then 1 else if n < 0x4000 then 2 else if n < 0x20_0000 then 3 else if n < 0x1000_0000 then 4 else 5
  }

  lemma Varint32SizeIsLength(n: nat)
    requires n < TWO_TO_THE_32
    ensures |Varint(n)| == Varint32Size(n)
  {
    assert |Varint(n)| == if n < 128 then 1 else 1 + |Varint(n / 128)|;
    var n1 := n / 128;
    assert |Varint(n1)| == if n1 < 128 then 1 else 1 + |Varint(n1 / 128)|;
    var n2 := n1 / 128;
    assert |Varint(n2)| == if n2 < 128 then 1 else 1 + |Varint(n2 / 128)|;
    var n3 := n2 / 128;
    assert |Varint(n3)| == if n3 < 128 then 1 else 1 + |Varint(n3 / 128)|;
  }

  /** A signed number is sign-extended to 64 bits, and read back from the low 32. */
  function Extended(v: Int32): nat {
    if v < 0 then v + TWO_TO_THE_64 else v
  }

  function Low32(n: nat): Int32 {
    var low := n % TWO_TO_THE_32;
    if low <= INT_MAX then low else low - TWO_TO_THE_32
  }

  lemma Low32Extended(v: Int32)
    ensures Low32(Extended(v)) == v
  {
    if v < 0 {
      assert Extended(v) == (TWO_TO_THE_32 - 1) * TWO_TO_THE_32 + (v + TWO_TO_THE_32);
    }
  }

  /** `ComputeInt32Size`. */
  function Int32Size(v: Int32): nat {
    if v >= 0 then Varint32Size(v) else 10
  }

  /** A number of n groups. */
  lemma {:induction false} VarintLength(n: nat, k: nat)
    requires Power128(k) <= n < Power128(k + 1)
    ensures |Varint(n)| == k + 1
    decreases k
  {
    if k == 0 {
      assert Power128(1) == 128;
    } else {
      assert Power128(k) == 128 * Power128(k - 1) && Power128(k + 1) == 128 * Power128(k);
      assert n >= 128 by { assert Power128(k - 1) >= 1 by { PowerPositive(k - 1); } }
      VarintLength(n / 128, k - 1);
    }
  }

  lemma PowerPositive(k: nat)
    ensures Power128(k) >= 1
  {
  }

  lemma Int32SizeIsLength(v: Int32)
    ensures |Varint(Extended(v))| == Int32Size(v)
  {
    if v >= 0 {
      Varint32SizeIsLength(v);
    } else {
      assert Power128(5) == 0x8_0000_0000;
      assert Power128(8) == 128 * 128 * 128 * Power128(5);
      assert Power128(9) == 128 * Power128(8) && Power128(10) == 128 * Power128(9);
      VarintLength(Extended(v), 9);
    }
  }

  /** One field: its tag, which holds its wire type, and what follows. */
  datatype Field =
    | Number(tag: nat, value: nat)
    | Bytes(tag: nat, payload: seq<Byte>)
    | Unknown(tag: nat)

  /** What follows a tag, by its wire type. Fields of the fixed-size wire types are skipped; groups
      are not modelled. */
  function AfterTag(tag: nat, s: seq<Byte>): (r: Read<Field>)
    ensures r.Got? ==> |r.rest| <= |s| && r.value.tag == tag
  {
    if tag % 8 == 0 then
      var v := ReadVarint(s, 10);
      if v.Malformed? then Malformed else Got(Number(tag, v.value), v.rest)
    else if tag % 8 == 2 then
      var n := ReadVarint(s, 10);
      if n.Malformed? then Malformed
      else
        var length := Low32(n.value);
        if length < 0 || |n.rest| < length then Malformed
        else Got(Bytes(tag, n.rest[..length]), n.rest[length..])
    else if tag % 8 == 1 && 8 <= |s| then Got(Unknown(tag), s[8..])
    else if tag % 8 == 5 && 4 <= |s| then Got(Unknown(tag), s[4..])
    else Malformed
  }

  /** The tag at the start of the input; it must have a field number. */
  function ReadTag(s: seq<Byte>): (r: Read<nat>)
    ensures r.Got? ==> |r.rest| < |s|
  {
    var t := ReadVarint(s, 10);
    if t.Malformed? || t.value % TWO_TO_THE_32 / 8 == 0 then Malformed
    else Got(t.value % TWO_TO_THE_32, t.rest)
  }

  /** The field at the start of the input. */
  function Next(s: seq<Byte>): (r: Read<Field>)
    ensures r.Got? ==> |r.rest| < |s|
  {
    var t := ReadTag(s);
    if t.Malformed? then Malformed else AfterTag(t.value, t.rest)
  }

  /** A field that has a field number, the right wire type and no more than 64 bits. */
  predicate Sound(f: Field) {
    match f
    case Number(tag, value) => 8 <= tag < TWO_TO_THE_32 && tag % 8 == 0 && value < TWO_TO_THE_64
    case Bytes(tag, _) => 8 <= tag < TWO_TO_THE_32 && tag % 8 == 2
    case Unknown(_) => false
  }

  function Encode(f: Field): seq<Byte> {
    match f
    case Number(tag, value) => Varint(tag) + Varint(value)
    case Bytes(tag, payload) => Varint(tag) + Varint(|payload|) + payload
    case Unknown(tag) => Varint(tag)
  }

  lemma NumberRoundTrip(tag: nat, value: nat, rest: seq<Byte>)
    requires Sound(Number(tag, value))
    ensures Next(Encode(Number(tag, value)) + rest) == Got(Number(tag, value), rest)
  {
    hide ReadVarint, Varint;
    var after := Varint(value) + rest;
    assert Encode(Number(tag, value)) + rest == Varint(tag) + after;
    Varint64RoundTrip(tag, after);
    Varint64RoundTrip(value, rest);
  }

  lemma BytesRoundTrip(tag: nat, payload: seq<Byte>, rest: seq<Byte>)
    requires Sound(Bytes(tag, payload)) && |payload| <= INT_MAX
    ensures Next(Encode(Bytes(tag, payload)) + rest) == Got(Bytes(tag, payload), rest)
  {
    hide ReadVarint, Varint;
    var n := |payload|;
    var after := Varint(n) + (payload + rest);
    assert Encode(Bytes(tag, payload)) + rest == Varint(tag) + after;
    Varint64RoundTrip(tag, after);
    Varint64RoundTrip(n, payload + rest);
    assert Low32(n) == n;
    assert (payload + rest)[..n] == payload && (payload + rest)[n..] == rest;
  }

  lemma FieldRoundTrip(f: Field, rest: seq<Byte>)
    requires Sound(f) && (f.Bytes? ==> |f.payload| <= INT_MAX)
    ensures Next(Encode(f) + rest) == Got(f, rest)
  {
    hide Next, Encode;
    match f
    case Number(tag, value) => NumberRoundTrip(tag, value, rest);
    case Bytes(tag, payload) => BytesRoundTrip(tag, payload, rest);
  }

  /** A message is read field by field, each of which changes what was read so far. */
  function Fold<M>(m: M, s: seq<Byte>, set_: (M, Field) -> Option<M>): Option<M>
    decreases |s|
  {
    if s == [] then Some(m)
    else
      var r := Next(s);
      if r.Malformed? then None
      else
        var m' := set_(m, r.value);
        if m'.None? then None else Fold(m'.value, r.rest, set_)
  }

  predicate AllSound(fields: seq<Field>) {
    forall f | f in fields :: Sound(f)
  }

  /** One round of reading: the tag, what follows it, and what it changes. */
  lemma FoldStep<M>(m: M, s: seq<Byte>, set_: (M, Field) -> Option<M>)
    requires s != []
    ensures var t := ReadTag(s);
            Fold(m, s, set_) ==
              if t.Malformed? then None
              else
                var r := AfterTag(t.value, t.rest);
                if r.Malformed? then None
                else
                  var m' := set_(m, r.value);
                  if m'.None? then None else Fold(m'.value, r.rest, set_)
  {
    hide ReadTag, AfterTag;
  }

  lemma FoldEnd<M>(m: M, set_: (M, Field) -> Option<M>)
    ensures Fold(m, [], set_) == Some(m)
  {
  }

  lemma VarintMore(s: seq<Byte>, k: nat)
    requires 0 < k && s != [] && s[0] >= 128
    ensures var r := ReadVarint(s[1..], k - 1);
            ReadVarint(s, k) == if r.Malformed? then r else Got(s[0] - 128 + 128 * r.value, r.rest)
  {
  }

  lemma VarintLast(s: seq<Byte>, k: nat)
    ensures k == 0 || s == [] ==> ReadVarint(s, k) == Malformed
    ensures 0 < k && s != [] && s[0] < 128 ==> ReadVarint(s, k) == Got(s[0], s[1..])
  {
  }

  function EncodeAll(fields: seq<Field>): seq<Byte>
  {
    if fields == [] then [] else Encode(fields[0]) + EncodeAll(fields[1..])
  }

  function SetAll<M>(m: M, fields: seq<Field>, set_: (M, Field) -> Option<M>): Option<M> {
    if fields == [] then Some(m)
    else
      var m' := set_(m, fields[0]);
      if m'.None? then None else SetAll(m'.value, fields[1..], set_)
  }

  lemma {:induction false} SetAllConcat<M>(m: M, a: seq<Field>, b: seq<Field>, set_: (M, Field) -> Option<M>)
    ensures SetAll(m, a + b, set_) ==
            var r := SetAll(m, a, set_);
            if r.None? then None else SetAll(r.value, b, set_)
    decreases |a|
  {
    if a == [] {
      assert a + b == b;
    } else {
      assert (a + b)[1..] == a[1..] + b;
      var m' := set_(m, a[0]);
      if m'.Some? {
        SetAllConcat(m'.value, a[1..], b, set_);
      }
    }
  }

  lemma PayloadFits(f: Field)
    ensures f.Bytes? ==> |f.payload| <= |Encode(f)|
  {
  }

  /** Reading what was written applies the written fields in order. */
  lemma {:induction false} FoldEncoded<M>(m: M, fields: seq<Field>, rest: seq<Byte>, set_: (M, Field) -> Option<M>)
    requires AllSound(fields) && |EncodeAll(fields)| <= INT_MAX
    ensures Fold(m, EncodeAll(fields) + rest, set_) ==
            var r := SetAll(m, fields, set_);
            if r.None? then None else Fold(r.value, rest, set_)
    decreases |fields|
  {
    hide Next, Encode, Sound;
    if fields == [] {
      assert EncodeAll(fields) + rest == rest;
    } else {
      PayloadFits(fields[0]);
      var tail := EncodeAll(fields[1..]) + rest;
      assert EncodeAll(fields) + rest == Encode(fields[0]) + tail;
      FieldRoundTrip(fields[0], tail);
      var m' := set_(m, fields[0]);
      if m'.Some? {
        FoldEncoded(m'.value, fields[1..], rest, set_);
      }
    }
  }

  lemma {:induction false} EncodeAllConcat(a: seq<Field>, b: seq<Field>)
    ensures EncodeAll(a + b) == EncodeAll(a) + EncodeAll(b)
    decreases |a|
  {
    if a == [] {
      assert a + b == b;
    } else {
      assert (a + b)[1..] == a[1..] + b;
      EncodeAllConcat(a[1..], b);
    }
  }
}
