/** The generated message code: writers, size calculators, readers that loop over tags, and merges.
    A message that a reader fills is an object whose record of fields is updated in place. */
module ProtoCodec {
  import opened Wrappers
  import opened ProtoWire
  import opened ProtoModel

  class CodedOutput {
    var bytes: seq<Byte>

    constructor ()
      ensures bytes == []
    {
      bytes := [];
    }

    method WriteRawVarint(n: nat)
      modifies this
      ensures bytes == old(bytes) + Varint(n)
    {
      var value := n;
      while value > 127
        invariant bytes + Varint(value) == old(bytes) + Varint(n)
      {
        bytes := bytes + [value % 128 + 128];
        value := value / 128;
      }
      bytes := bytes + [value];
    }

    method WriteInt32(v: Int32)
      modifies this
      ensures bytes == old(bytes) + Varint(Extended(v))
    {
      WriteRawVarint(if v >= 0 then v else v + TWO_TO_THE_64);
    }

    method WriteString(s: Str)
      modifies this
      ensures bytes == old(bytes) + Varint(|s|) + s
    {
      WriteRawVarint(|s|);
      bytes := bytes + s;
    }

    method WriteStringField(tag: nat, s: Str)
      modifies this
      ensures bytes == old(bytes) + EncodeAll(StringField(tag, s))
    {
      EncodeOne(Bytes(tag, s));
      if |s| != 0 {
        WriteRawVarint(tag);
        WriteString(s);
      }
    }

    method WriteInt32Field(tag: nat, v: Int32)
      modifies this
      ensures bytes == old(bytes) + EncodeAll(IntField(tag, v))
    {
      EncodeOne(Number(tag, Extended(v)));
      if v != 0 {
        WriteRawVarint(tag);
        WriteInt32(v);
      }
    }
  }

  /** The groups that are still to come, above those that were read. */
  function Place(value: nat, scale: nat, high: nat): nat { value + scale * high }

  function Placed(value: nat, scale: nat, r: Read<nat>): Read<nat> {
    if r.Malformed? then Malformed else Got(Place(value, scale, r.value), r.rest)
  }

  lemma PlaceFirst(r: Read<nat>)
    ensures Placed(0, 1, r) == r
  {
  }

  lemma PlaceNext(value: nat, scale: nat, b: nat, r: Read<nat>)
    requires 128 <= b
    ensures Placed(value, scale, if r.Malformed? then r else Got(b - 128 + 128 * r.value, r.rest)) ==
              Placed(Place(value, scale, b - 128), 128 * scale, r)
  {
    if r.Got? {
      assert scale * (b - 128 + 128 * r.value) == scale * (b - 128) + scale * (128 * r.value);
      assert scale * (128 * r.value) == 128 * scale * r.value;
    }
  }

  class CodedInput {
    var rest: seq<Byte>

    constructor (rest: seq<Byte>)
      ensures this.rest == rest
    {
      this.rest := rest;
    }

    /** A number in at most ten bytes. */
    method ReadRawVarint() returns (ok: bool, value: nat)
      modifies this
      ensures var r := ReadVarint(old(rest), 10);
              ok == r.Got? && (ok ==> value == r.value && rest == r.rest)
    {
      hide Place, ReadVarint;
      ghost var all := ReadVarint(rest, 10);
      var k, scale: nat := 10, 1;
      value := 0;
      PlaceFirst(all);
      while k > 0 && rest != [] && rest[0] >= 128
        invariant 0 <= k <= 10
        invariant all == Placed(value, scale, ReadVarint(rest, k))
      {
        VarintMore(rest, k);
        PlaceNext(value, scale, rest[0], ReadVarint(rest[1..], k - 1));
        value := Place(value, scale, rest[0] - 128);
        scale := 128 * scale;
        k := k - 1;
        rest := rest[1..];
      }
      VarintLast(rest, k);
      if k == 0 || rest == [] {
        return false, 0;
      }
      value := Place(value, scale, rest[0]);
      rest := rest[1..];
      ok := true;
    }

    /** The next tag, 0 at the end of the input. */
    method ReadNextTag() returns (ok: bool, tag: nat)
      modifies this
      ensures old(rest) == [] ==> ok && tag == 0 && rest == []
      ensures old(rest) != [] ==>
                var r := ReadTag(old(rest));
                ok == r.Got? && (ok ==> tag == r.value && tag != 0 && rest == r.rest)
    {
      if rest == [] {
        return true, 0;
      }
      var value;
      ok, value := ReadRawVarint();
      tag := value % TWO_TO_THE_32;
      ok := ok && tag / 8 != 0;
    }

    method ReadInt32(ghost tag: nat) returns (ok: bool, v: Int32)
      requires tag % 8 == 0
      modifies this
      ensures var r := AfterTag(tag, old(rest));
              ok == r.Got? && (ok ==> v == Low32(r.value.value) && r.value.Number? && rest == r.rest)
    {
      var value;
      ok, value := ReadRawVarint();
      v := Low32(value);
    }

    /** A length and as many bytes: a string, or the bytes of a sub-message. */
    method ReadBytes(ghost tag: nat) returns (ok: bool, payload: seq<Byte>)
      requires tag % 8 == 2
      modifies this
      ensures var r := AfterTag(tag, old(rest));
              ok == r.Got? && (ok ==> r.value == Bytes(tag, payload) && rest == r.rest)
    {
      var value;
      ok, value := ReadRawVarint();
      var length := Low32(value);
      if !ok || length < 0 || |rest| < length {
        return false, [];
      }
      payload := rest[..length];
      rest := rest[length..];
    }

    /** A field that the message does not know. */
    method SkipField(tag: nat) returns (ok: bool)
      modifies this
      ensures var r := AfterTag(tag, old(rest));
              ok == r.Got? && (ok ==> rest == r.rest)
    {
      if tag % 8 == 0 {
        var value;
        ok, value := ReadRawVarint();
      } else if tag % 8 == 2 {
        var payload;
        ok, payload := ReadBytes(tag);
      } else if tag % 8 == 1 && 8 <= |rest| {
        rest := rest[8..];
        ok := true;
      } else if tag % 8 == 5 && 4 <= |rest| {
        rest := rest[4..];
        ok := true;
      } else {
        ok := false;
      }
    }
  }

  lemma EncodeOne(f: Field)
    ensures EncodeAll([f]) == Encode(f)
  {
    assert EncodeAll([f][1..]) == [];
  }

  /** The size of a field with a one-byte tag. */
  lemma BytesSize(tag: nat, payload: seq<Byte>)
    requires tag < 128 && |payload| <= INT_MAX
    ensures |Encode(Bytes(tag, payload))| == 1 + Varint32Size(|payload|) + |payload|
  {
    Varint32SizeIsLength(|payload|);
  }

  /** One more element of a repeated field. */
  lemma RepeatedSnoc<T>(tag: nat, ms: seq<T>, i: nat, write: T -> seq<Byte>)
    requires i < |ms|
    ensures EncodeAll(Repeated(tag, ms[..i + 1], write)) ==
              EncodeAll(Repeated(tag, ms[..i], write)) + Encode(Bytes(tag, write(ms[i])))
  {
    assert Repeated(tag, ms[..i + 1], write) == Repeated(tag, ms[..i], write) + [Bytes(tag, write(ms[i]))];
    EncodeAllConcat(Repeated(tag, ms[..i], write), [Bytes(tag, write(ms[i]))]);
    EncodeOne(Bytes(tag, write(ms[i])));
  }

  lemma RepeatedNone<T>(tag: nat, ms: seq<T>, write: T -> seq<Byte>)
    ensures EncodeAll(Repeated(tag, ms[..0], write)) == []
  {
  }

  /** `1 + ComputeStringSize(s)` and `1 + ComputeInt32Size(v)`, for fields that are written. */
  method StringFieldSize(tag: nat, s: Str) returns (size: nat)
    requires tag < 128 && |s| <= INT_MAX
    ensures size == |EncodeAll(StringField(tag, s))|
  {
    size := 0;
    if |s| != 0 {
      BytesSize(tag, s);
      EncodeOne(Bytes(tag, s));
      size := 1 + Varint32Size(|s|) + |s|;
    }
  }

  method Int32FieldSize(tag: nat, v: Int32) returns (size: nat)
    requires tag < 128
    ensures size == |EncodeAll(IntField(tag, v))|
  {
    size := 0;
    if v != 0 {
      Int32SizeIsLength(v);
      EncodeOne(Number(tag, Extended(v)));
      size := 1 + Int32Size(v);
    }
  }

  lemma ReadOn<M>(m: M, s: seq<Byte>, set_: (M, Field) -> Option<M>)
    ensures s == [] ==> Fold(m, s, set_) == Some(m)
    ensures s != [] ==>
              var t := ReadTag(s);
              && (t.Malformed? ==> Fold(m, s, set_) == None)
              && (t.Got? ==>
                    var r := AfterTag(t.value, t.rest);
                    && (r.Malformed? ==> Fold(m, s, set_) == None)
                    && (r.Got? ==>
                          var m' := set_(m, r.value);
                          Fold(m, s, set_) == if m'.None? then None else Fold(m'.value, r.rest, set_)))
  {
    if s == [] {
      FoldEnd(m, set_);
    } else {
      FoldStep(m, s, set_);
    }
  }

  /** A tag, a length and a payload make a field. */
  lemma WroteField(before: seq<Byte>, tag: nat, payload: seq<Byte>)
    ensures before + Varint(tag) + Varint(|payload|) + payload == before + Encode(Bytes(tag, payload))
  {
  }

  class StadAnnotationProto {
    var m: StadAnnotation

    constructor (m: StadAnnotation)
      ensures this.m == m
    {
      this.m := m;
    }

    static method CalculateSize(m: StadAnnotation) returns (size: nat)
      requires |m.Write()| <= INT_MAX
      ensures size == |m.Write()|
    {
      StringFits(m.Fields(), 10, m.json);
      size := StringFieldSize(10, m.json);
    }

    static method InternalWriteTo(m: StadAnnotation, output: CodedOutput)
      modifies output
      ensures output.bytes == old(output.bytes) + m.Write()
    {
      output.WriteStringField(10, m.json);
    }

    method MergeFrom(other: StadAnnotation)
      modifies this
      ensures m == old(m).Merge(other)
    {
      if |other.json| != 0 {
        m := m.(json := other.json);
      }
    }

    method InternalMergeFrom(input: CodedInput) returns (ok: bool)
      modifies this, input
      ensures ok == StadAnnotation.Parse(old(m), old(input.rest)).Some?
      ensures ok ==> StadAnnotation.Parse(old(m), old(input.rest)) == Some(m)
    {
      hide Fold, ReadTag, AfterTag;
      ghost var all := StadAnnotation.Parse(m, input.rest);
      while true
        invariant StadAnnotation.Parse(m, input.rest) == all
        decreases |input.rest|
      {
        ReadOn(m, input.rest, StadAnnotation.Set);
        var tag;
        ok, tag := input.ReadNextTag();
        if !ok || tag == 0 {
          return;
        }
        if tag == 10 {
          var payload;
          ok, payload := input.ReadBytes(tag);
          m := m.(json := payload);
        } else {
          ok := input.SkipField(tag);
        }
        if !ok {
          return;
        }
      }
    }
  }

  lemma StringFits(fields: seq<Field>, tag: nat, s: Str)
    requires s != [] ==> Bytes(tag, s) in fields
    ensures |s| <= |EncodeAll(fields)|
  {
    if s != [] {
      PayloadIsShorter(fields, Bytes(tag, s));
    }
  }

  /** A repeated field of annotations. */
  method StadAnnotationsSize(tag: nat, ms: seq<StadAnnotation>) returns (size: nat)
    requires tag < 128 && forall e | e in ms :: |e.Write()| <= INT_MAX
    ensures size == |EncodeAll(Repeated(tag, ms, StadAnnotation.Written))|
  {
    hide Encode, Varint, EncodeAll, StadAnnotation.Write;
    RepeatedNone(tag, ms, StadAnnotation.Written);
    size := 0;
    for i := 0 to |ms|
      invariant size == |EncodeAll(Repeated(tag, ms[..i], StadAnnotation.Written))|
    {
      var n := StadAnnotationProto.CalculateSize(ms[i]);
      BytesSize(tag, ms[i].Write());
      RepeatedSnoc(tag, ms, i, StadAnnotation.Written);
      size := size + 1 + Varint32Size(n) + n;
    }
    assert ms[..|ms|] == ms;
  }

  method WriteStadAnnotations(tag: nat, ms: seq<StadAnnotation>, output: CodedOutput)
    requires tag < 128 && forall e | e in ms :: |e.Write()| <= INT_MAX
    modifies output
    ensures output.bytes == old(output.bytes) + EncodeAll(Repeated(tag, ms, StadAnnotation.Written))
  {
    hide Encode, Varint, EncodeAll, StadAnnotation.Write;
    RepeatedNone(tag, ms, StadAnnotation.Written);
    for i := 0 to |ms|
      invariant output.bytes == old(output.bytes) + EncodeAll(Repeated(tag, ms[..i], StadAnnotation.Written))
    {
      RepeatedSnoc(tag, ms, i, StadAnnotation.Written);
      WroteField(output.bytes, tag, ms[i].Write());
      output.WriteRawVarint(tag);
      var n := StadAnnotationProto.CalculateSize(ms[i]);
      output.WriteRawVarint(n);
      StadAnnotationProto.InternalWriteTo(ms[i], output);
    }
    assert ms[..|ms|] == ms;
  }

  class AnnotationInfoProto {
    var m: AnnotationInfo

    constructor (m: AnnotationInfo)
      ensures this.m == m
    {
      this.m := m;
    }

    static lemma Parts(m: AnnotationInfo)
      requires |m.Write()| <= INT_MAX
      ensures forall e | e in m.annotations :: |e.Write()| <= INT_MAX
    {
      hide EncodeAll, StadAnnotation.Write;
      forall e | e in m.annotations
        ensures |e.Write()| <= INT_MAX
      {
        InRepeated(10, m.annotations, StadAnnotation.Written, e);
        PayloadIsShorter(m.Fields(), Bytes(10, e.Write()));
      }
    }

    static method CalculateSize(m: AnnotationInfo) returns (size: nat)
      requires |m.Write()| <= INT_MAX
      ensures size == |m.Write()|
    {
      Parts(m);
      size := StadAnnotationsSize(10, m.annotations);
    }

    static method InternalWriteTo(m: AnnotationInfo, output: CodedOutput)
      requires |m.Write()| <= INT_MAX
      modifies output
      ensures output.bytes == old(output.bytes) + m.Write()
    {
      Parts(m);
      WriteStadAnnotations(10, m.annotations, output);
    }

    method MergeFrom(other: AnnotationInfo)
      modifies this
      ensures m == old(m).Merge(other)
    {
      m := m.(annotations := m.annotations + other.annotations);
    }

    method InternalMergeFrom(input: CodedInput) returns (ok: bool)
      modifies this, input
      ensures ok == AnnotationInfo.Parse(old(m), old(input.rest)).Some?
      ensures ok ==> AnnotationInfo.Parse(old(m), old(input.rest)) == Some(m)
    {
      hide Fold, ReadTag, AfterTag;
      ghost var all := AnnotationInfo.Parse(m, input.rest);
      while true
        invariant AnnotationInfo.Parse(m, input.rest) == all
        decreases |input.rest|
      {
        ReadOn(m, input.rest, AnnotationInfo.Set);
        var tag;
        ok, tag := input.ReadNextTag();
        if !ok || tag == 0 {
          return;
        }
        if tag == 10 {
          var payload;
          ok, payload := input.ReadBytes(tag);
          if ok {
            var e := new StadAnnotationProto(StadAnnotation([]));
            var entry := new CodedInput(payload);
            ok := e.InternalMergeFrom(entry);
            m := m.(annotations := m.annotations + [e.m]);
          }
        } else {
          ok := input.SkipField(tag);
        }
        if !ok {
          return;
        }
      }
    }
  }

  /** An optional sub-message: created when it is not there, and then read into. */
  method MergeInfoFrom(info: Option<AnnotationInfo>, payload: seq<Byte>) returns (ok: bool, r: Option<AnnotationInfo>)
    ensures ok == ReadInfo(info, payload).Some? && (ok ==> r == ReadInfo(info, payload))
  {
    var target := new AnnotationInfoProto(if info.None? then AnnotationInfo([]) else info.value);
    var input := new CodedInput(payload);
    ok := target.InternalMergeFrom(input);
    r := Some(target.m);
  }

  method MergeInfo(info: Option<AnnotationInfo>, other: Option<AnnotationInfo>) returns (r: Option<AnnotationInfo>)
    ensures r == MergedInfo(info, other)
  {
    r := info;
    if other.Some? {
      var target := new AnnotationInfoProto(if info.None? then AnnotationInfo([]) else info.value);
      target.MergeFrom(other.value);
      r := Some(target.m);
    }
  }

  method InfoFieldSize(tag: nat, info: Option<AnnotationInfo>) returns (size: nat)
    requires tag < 128 && (info.Some? ==> |info.value.Write()| <= INT_MAX)
    ensures size == |EncodeAll(InfoField(tag, info))|
  {
    size := 0;
    if info.Some? {
      var n := AnnotationInfoProto.CalculateSize(info.value);
      BytesSize(tag, info.value.Write());
      EncodeOne(Bytes(tag, info.value.Write()));
      size := 1 + Varint32Size(n) + n;
    }
  }

  method WriteInfoField(tag: nat, info: Option<AnnotationInfo>, output: CodedOutput)
    requires info.Some? ==> |info.value.Write()| <= INT_MAX
    modifies output
    ensures output.bytes == old(output.bytes) + EncodeAll(InfoField(tag, info))
  {
    if info.Some? {
      hide Encode, Varint, AnnotationInfo.Write;
      WroteField(output.bytes, tag, info.value.Write());
      EncodeOne(Bytes(tag, info.value.Write()));
      output.WriteRawVarint(tag);
      var n := AnnotationInfoProto.CalculateSize(info.value);
      output.WriteRawVarint(n);
      AnnotationInfoProto.InternalWriteTo(info.value, output);
    }
  }

  lemma InfoFits(fields: seq<Field>, tag: nat, info: Option<AnnotationInfo>)
    requires info.Some? ==> Bytes(tag, info.value.Write()) in fields
    ensures info.Some? ==> |info.value.Write()| <= |EncodeAll(fields)|
  {
    if info.Some? {
      PayloadIsShorter(fields, Bytes(tag, info.value.Write()));
    }
  }

  lemma EncodeFour(a: seq<Field>, b: seq<Field>, c: seq<Field>, d: seq<Field>)
    ensures EncodeAll(a + b + c + d) == EncodeAll(a) + EncodeAll(b) + EncodeAll(c) + EncodeAll(d)
  {
    EncodeAllConcat(a + b + c, d);
    EncodeAllConcat(a + b, c);
    EncodeAllConcat(a, b);
  }

  class MemberDefinitionProto {
    var m: MemberDefinition

    constructor (m: MemberDefinition)
      ensures this.m == m
    {
      this.m := m;
    }

    /** What is written is the fields in their order, each short enough. */
    static lemma Parts(m: MemberDefinition)
      requires |m.Write()| <= INT_MAX
      ensures m.Write() == EncodeAll(StringField(10, m.typ)) + EncodeAll(StringField(18, m.name)) +
                EncodeAll(IntField(24, m.kind)) + EncodeAll(InfoField(34, m.annotationInfo))
      ensures |m.typ| <= INT_MAX && |m.name| <= INT_MAX
      ensures m.annotationInfo.Some? ==> |m.annotationInfo.value.Write()| <= INT_MAX
    {
      hide EncodeAll, AnnotationInfo.Write;
      StringFits(m.Fields(), 10, m.typ);
      StringFits(m.Fields(), 18, m.name);
      InfoFits(m.Fields(), 34, m.annotationInfo);
      EncodeFour(StringField(10, m.typ), StringField(18, m.name), IntField(24, m.kind), InfoField(34, m.annotationInfo));
    }

    static method CalculateSize(m: MemberDefinition) returns (size: nat)
      requires |m.Write()| <= INT_MAX
      ensures size == |m.Write()|
    {
      hide EncodeAll, MemberDefinition.Write;
      Parts(m);
      var typ := StringFieldSize(10, m.typ);
      var name := StringFieldSize(18, m.name);
      var kind := Int32FieldSize(24, m.kind);
      var info := InfoFieldSize(34, m.annotationInfo);
      size := typ + name + kind + info;
    }

    static method InternalWriteTo(m: MemberDefinition, output: CodedOutput)
      requires |m.Write()| <= INT_MAX
      modifies output
      ensures output.bytes == old(output.bytes) + m.Write()
    {
      hide EncodeAll, MemberDefinition.Write;
      Parts(m);
      output.WriteStringField(10, m.typ);
      output.WriteStringField(18, m.name);
      output.WriteInt32Field(24, m.kind);
      WriteInfoField(34, m.annotationInfo, output);
    }

    method MergeFrom(other: MemberDefinition)
      modifies this
      ensures m == old(m).Merge(other)
    {
      if |other.typ| != 0 {
        m := m.(typ := other.typ);
      }
      if |other.name| != 0 {
        m := m.(name := other.name);
      }
      if other.kind != 0 {
        m := m.(kind := other.kind);
      }
      var info := MergeInfo(m.annotationInfo, other.annotationInfo);
      m := m.(annotationInfo := info);
    }

    method InternalMergeFrom(input: CodedInput) returns (ok: bool)
      modifies this, input
      ensures ok == MemberDefinition.Parse(old(m), old(input.rest)).Some?
      ensures ok ==> MemberDefinition.Parse(old(m), old(input.rest)) == Some(m)
    {
      hide Fold, ReadTag, AfterTag, ReadInfo;
      ghost var all := MemberDefinition.Parse(m, input.rest);
      while true
        invariant MemberDefinition.Parse(m, input.rest) == all
        decreases |input.rest|
      {
        ReadOn(m, input.rest, MemberDefinition.Set);
        var tag;
        ok, tag := input.ReadNextTag();
        if !ok || tag == 0 {
          return;
        }
        if tag == 10 {
          var payload;
          ok, payload := input.ReadBytes(tag);
          m := m.(typ := payload);
        } else if tag == 18 {
          var payload;
          ok, payload := input.ReadBytes(tag);
          m := m.(name := payload);
        } else if tag == 24 {
          var kind;
          ok, kind := input.ReadInt32(tag);
          m := m.(kind := kind);
        } else if tag == 34 {
          var payload;
          ok, payload := input.ReadBytes(tag);
          if ok {
            var info;
            ok, info := MergeInfoFrom(m.annotationInfo, payload);
            m := m.(annotationInfo := info);
          }
        } else {
          ok := input.SkipField(tag);
        }
        if !ok {
          return;
        }
      }
    }
  }

  /** A repeated field of members. */
  method MemberDefinitionsSize(tag: nat, ms: seq<MemberDefinition>) returns (size: nat)
    requires tag < 128 && forall e | e in ms :: |e.Write()| <= INT_MAX
    ensures size == |EncodeAll(Repeated(tag, ms, MemberDefinition.Written))|
  {
    hide Encode, Varint, EncodeAll, MemberDefinition.Write;
    RepeatedNone(tag, ms, MemberDefinition.Written);
    size := 0;
    for i := 0 to |ms|
      invariant size == |EncodeAll(Repeated(tag, ms[..i], MemberDefinition.Written))|
    {
      var n := MemberDefinitionProto.CalculateSize(ms[i]);
      BytesSize(tag, ms[i].Write());
      RepeatedSnoc(tag, ms, i, MemberDefinition.Written);
      size := size + 1 + Varint32Size(n) + n;
    }
    assert ms[..|ms|] == ms;
  }

  method WriteMemberDefinitions(tag: nat, ms: seq<MemberDefinition>, output: CodedOutput)
    requires tag < 128 && forall e | e in ms :: |e.Write()| <= INT_MAX
    modifies output
    ensures output.bytes == old(output.bytes) + EncodeAll(Repeated(tag, ms, MemberDefinition.Written))
  {
    hide Encode, Varint, EncodeAll, MemberDefinition.Write;
    RepeatedNone(tag, ms, MemberDefinition.Written);
    for i := 0 to |ms|
      invariant output.bytes == old(output.bytes) + EncodeAll(Repeated(tag, ms[..i], MemberDefinition.Written))
    {
      RepeatedSnoc(tag, ms, i, MemberDefinition.Written);
      WroteField(output.bytes, tag, ms[i].Write());
      output.WriteRawVarint(tag);
      var n := MemberDefinitionProto.CalculateSize(ms[i]);
      output.WriteRawVarint(n);
      MemberDefinitionProto.InternalWriteTo(ms[i], output);
    }
    assert ms[..|ms|] == ms;
  }

  class StadModelProto {
    var m: StadModel

    constructor (m: StadModel)
      ensures this.m == m
    {
      this.m := m;
    }

    static lemma Parts(m: StadModel)
      requires |m.Write()| <= INT_MAX
      ensures m.Write() == EncodeAll(StringField(10, m.typ)) + EncodeAll(IntField(16, m.typeCode)) +
                EncodeAll(InfoField(26, m.annotationinfo)) + EncodeAll(Repeated(34, m.members, MemberDefinition.Written))
      ensures |m.typ| <= INT_MAX && (m.annotationinfo.Some? ==> |m.annotationinfo.value.Write()| <= INT_MAX)
      ensures forall e | e in m.members :: |e.Write()| <= INT_MAX
    {
      hide EncodeAll, AnnotationInfo.Write, MemberDefinition.Write;
      StringFits(m.Fields(), 10, m.typ);
      InfoFits(m.Fields(), 26, m.annotationinfo);
      var members := Repeated(34, m.members, MemberDefinition.Written);
      forall e | e in m.members
        ensures |e.Write()| <= INT_MAX
      {
        InRepeated(34, m.members, MemberDefinition.Written, e);
        PayloadIsShorter(m.Fields(), Bytes(34, e.Write()));
      }
      EncodeFour(StringField(10, m.typ), IntField(16, m.typeCode), InfoField(26, m.annotationinfo), members);
    }

    static method CalculateSize(m: StadModel) returns (size: nat)
      requires |m.Write()| <= INT_MAX
      ensures size == |m.Write()|
    {
      hide EncodeAll, StadModel.Write;
      Parts(m);
      var typ := StringFieldSize(10, m.typ);
      var typeCode := Int32FieldSize(16, m.typeCode);
      var info := InfoFieldSize(26, m.annotationinfo);
      var members := MemberDefinitionsSize(34, m.members);
      size := typ + typeCode + info + members;
    }

    static method InternalWriteTo(m: StadModel, output: CodedOutput)
      requires |m.Write()| <= INT_MAX
      modifies output
      ensures output.bytes == old(output.bytes) + m.Write()
    {
      hide EncodeAll, StadModel.Write;
      Parts(m);
      output.WriteStringField(10, m.typ);
      output.WriteInt32Field(16, m.typeCode);
      WriteInfoField(26, m.annotationinfo, output);
      WriteMemberDefinitions(34, m.members, output);
    }

    method MergeFrom(other: StadModel)
      modifies this
      ensures m == old(m).Merge(other)
    {
      if |other.typ| != 0 {
        m := m.(typ := other.typ);
      }
      if other.typeCode != 0 {
        m := m.(typeCode := other.typeCode);
      }
      var info := MergeInfo(m.annotationinfo, other.annotationinfo);
      m := m.(annotationinfo := info);
      m := m.(members := m.members + other.members);
    }

    method InternalMergeFrom(input: CodedInput) returns (ok: bool)
      modifies this, input
      ensures ok == StadModel.Parse(old(m), old(input.rest)).Some?
      ensures ok ==> StadModel.Parse(old(m), old(input.rest)) == Some(m)
    {
      hide Fold, ReadTag, AfterTag, ReadInfo, MemberDefinition.Parse;
      ghost var all := StadModel.Parse(m, input.rest);
      while true
        invariant StadModel.Parse(m, input.rest) == all
        decreases |input.rest|
      {
        ReadOn(m, input.rest, StadModel.Set);
        var tag;
        ok, tag := input.ReadNextTag();
        if !ok || tag == 0 {
          return;
        }
        if tag == 10 {
          var payload;
          ok, payload := input.ReadBytes(tag);
          m := m.(typ := payload);
        } else if tag == 16 {
          var typeCode;
          ok, typeCode := input.ReadInt32(tag);
          m := m.(typeCode := typeCode);
        } else if tag == 26 {
          var payload;
          ok, payload := input.ReadBytes(tag);
          if ok {
            var info;
            ok, info := MergeInfoFrom(m.annotationinfo, payload);
            m := m.(annotationinfo := info);
          }
        } else if tag == 34 {
          var payload;
          ok, payload := input.ReadBytes(tag);
          if ok {
            var e := new MemberDefinitionProto(MemberDefinition([], [], 0, None));
            var entry := new CodedInput(payload);
            ok := e.InternalMergeFrom(entry);
            m := m.(members := m.members + [e.m]);
          }
        } else {
          ok := input.SkipField(tag);
        }
        if !ok {
          return;
        }
      }
    }
  }

  /** A repeated field of models. */
  method StadModelsSize(tag: nat, ms: seq<StadModel>) returns (size: nat)
    requires tag < 128 && forall e | e in ms :: |e.Write()| <= INT_MAX
    ensures size == |EncodeAll(Repeated(tag, ms, StadModel.Written))|
  {
    hide Encode, Varint, EncodeAll, StadModel.Write;
    RepeatedNone(tag, ms, StadModel.Written);
    size := 0;
    for i := 0 to |ms|
      invariant size == |EncodeAll(Repeated(tag, ms[..i], StadModel.Written))|
    {
      var n := StadModelProto.CalculateSize(ms[i]);
      BytesSize(tag, ms[i].Write());
      RepeatedSnoc(tag, ms, i, StadModel.Written);
      size := size + 1 + Varint32Size(n) + n;
    }
    assert ms[..|ms|] == ms;
  }

  method WriteStadModels(tag: nat, ms: seq<StadModel>, output: CodedOutput)
    requires tag < 128 && forall e | e in ms :: |e.Write()| <= INT_MAX
    modifies output
    ensures output.bytes == old(output.bytes) + EncodeAll(Repeated(tag, ms, StadModel.Written))
  {
    hide Encode, Varint, EncodeAll, StadModel.Write;
    RepeatedNone(tag, ms, StadModel.Written);
    for i := 0 to |ms|
      invariant output.bytes == old(output.bytes) + EncodeAll(Repeated(tag, ms[..i], StadModel.Written))
    {
      RepeatedSnoc(tag, ms, i, StadModel.Written);
      WroteField(output.bytes, tag, ms[i].Write());
      output.WriteRawVarint(tag);
      var n := StadModelProto.CalculateSize(ms[i]);
      output.WriteRawVarint(n);
      StadModelProto.InternalWriteTo(ms[i], output);
    }
    assert ms[..|ms|] == ms;
  }

  class DataSetProto {
    var m: DataSet

    constructor (m: DataSet)
      ensures this.m == m
    {
      this.m := m;
    }

    static lemma Parts(m: DataSet)
      requires |m.Write()| <= INT_MAX
      ensures m.Write() == EncodeAll(StringField(10, m.name)) + EncodeAll(Repeated(18, m.listModels, StadModel.Written)) +
                EncodeAll(Repeated(26, m.singleModels, StadModel.Written))
      ensures |m.name| <= INT_MAX
      ensures forall e | e in m.listModels + m.singleModels :: |e.Write()| <= INT_MAX
    {
      hide EncodeAll, StadModel.Write;
      StringFits(m.Fields(), 10, m.name);
      var lists, singles := Repeated(18, m.listModels, StadModel.Written), Repeated(26, m.singleModels, StadModel.Written);
      forall e | e in m.listModels + m.singleModels
        ensures |e.Write()| <= INT_MAX
      {
        if e in m.listModels {
          InRepeated(18, m.listModels, StadModel.Written, e);
          PayloadIsShorter(m.Fields(), Bytes(18, e.Write()));
        } else {
          InRepeated(26, m.singleModels, StadModel.Written, e);
          PayloadIsShorter(m.Fields(), Bytes(26, e.Write()));
        }
      }
      EncodeAllConcat(StringField(10, m.name) + lists, singles);
      EncodeAllConcat(StringField(10, m.name), lists);
    }

    static method CalculateSize(m: DataSet) returns (size: nat)
      requires |m.Write()| <= INT_MAX
      ensures size == |m.Write()|
    {
      hide EncodeAll, DataSet.Write, StadModel.Write;
      Parts(m);
      var name := StringFieldSize(10, m.name);
      var lists := StadModelsSize(18, m.listModels);
      var singles := StadModelsSize(26, m.singleModels);
      size := name + lists + singles;
    }

    static method InternalWriteTo(m: DataSet, output: CodedOutput)
      requires |m.Write()| <= INT_MAX
      modifies output
      ensures output.bytes == old(output.bytes) + m.Write()
    {
      hide EncodeAll, DataSet.Write, StadModel.Write;
      Parts(m);
      output.WriteStringField(10, m.name);
      WriteStadModels(18, m.listModels, output);
      WriteStadModels(26, m.singleModels, output);
    }

    method MergeFrom(other: DataSet)
      modifies this
      ensures m == old(m).Merge(other)
    {
      if |other.name| != 0 {
        m := m.(name := other.name);
      }
      m := m.(listModels := m.listModels + other.listModels);
      m := m.(singleModels := m.singleModels + other.singleModels);
    }

    method InternalMergeFrom(input: CodedInput) returns (ok: bool)
      modifies this, input
      ensures ok == DataSet.Parse(old(m), old(input.rest)).Some?
      ensures ok ==> DataSet.Parse(old(m), old(input.rest)) == Some(m)
    {
      hide Fold, ReadTag, AfterTag, StadModel.Parse;
      ghost var all := DataSet.Parse(m, input.rest);
      while true
        invariant DataSet.Parse(m, input.rest) == all
        decreases |input.rest|
      {
        ReadOn(m, input.rest, DataSet.Set);
        var tag;
        ok, tag := input.ReadNextTag();
        if !ok || tag == 0 {
          return;
        }
        if tag == 10 {
          var payload;
          ok, payload := input.ReadBytes(tag);
          m := m.(name := payload);
        } else if tag == 18 {
          var payload;
          ok, payload := input.ReadBytes(tag);
          if ok {
            var e := new StadModelProto(StadModel([], 0, None, []));
            var entry := new CodedInput(payload);
            ok := e.InternalMergeFrom(entry);
            m := m.(listModels := m.listModels + [e.m]);
          }
        } else if tag == 26 {
          var payload;
          ok, payload := input.ReadBytes(tag);
          if ok {
            var e := new StadModelProto(StadModel([], 0, None, []));
            var entry := new CodedInput(payload);
            ok := e.InternalMergeFrom(entry);
            m := m.(singleModels := m.singleModels + [e.m]);
          }
        } else {
          ok := input.SkipField(tag);
        }
        if !ok {
          return;
        }
      }
    }
  }

  /** A repeated field of data sets. */
  method DataSetsSize(tag: nat, ms: seq<DataSet>) returns (size: nat)
    requires tag < 128 && forall e | e in ms :: |e.Write()| <= INT_MAX
    ensures size == |EncodeAll(Repeated(tag, ms, DataSet.Written))|
  {
    hide Encode, Varint, EncodeAll, DataSet.Write;
    RepeatedNone(tag, ms, DataSet.Written);
    size := 0;
    for i := 0 to |ms|
      invariant size == |EncodeAll(Repeated(tag, ms[..i], DataSet.Written))|
    {
      var n := DataSetProto.CalculateSize(ms[i]);
      BytesSize(tag, ms[i].Write());
      RepeatedSnoc(tag, ms, i, DataSet.Written);
      size := size + 1 + Varint32Size(n) + n;
    }
    assert ms[..|ms|] == ms;
  }

  method WriteDataSets(tag: nat, ms: seq<DataSet>, output: CodedOutput)
    requires tag < 128 && forall e | e in ms :: |e.Write()| <= INT_MAX
    modifies output
    ensures output.bytes == old(output.bytes) + EncodeAll(Repeated(tag, ms, DataSet.Written))
  {
    hide Encode, Varint, EncodeAll, DataSet.Write;
    RepeatedNone(tag, ms, DataSet.Written);
    for i := 0 to |ms|
      invariant output.bytes == old(output.bytes) + EncodeAll(Repeated(tag, ms[..i], DataSet.Written))
    {
      RepeatedSnoc(tag, ms, i, DataSet.Written);
      WroteField(output.bytes, tag, ms[i].Write());
      output.WriteRawVarint(tag);
      var n := DataSetProto.CalculateSize(ms[i]);
      output.WriteRawVarint(n);
      DataSetProto.InternalWriteTo(ms[i], output);
    }
    assert ms[..|ms|] == ms;
  }

  class RegistryProto {
    var m: Registry

    constructor (m: Registry)
      ensures this.m == m
    {
      this.m := m;
    }

    static lemma Parts(m: Registry)
      requires |m.Write()| <= INT_MAX
      ensures forall e | e in m.dataSets :: |e.Write()| <= INT_MAX
    {
      hide EncodeAll, DataSet.Write;
      forall e | e in m.dataSets
        ensures |e.Write()| <= INT_MAX
      {
        InRepeated(10, m.dataSets, DataSet.Written, e);
        PayloadIsShorter(m.Fields(), Bytes(10, e.Write()));
      }
    }

    static method CalculateSize(m: Registry) returns (size: nat)
      requires |m.Write()| <= INT_MAX
      ensures size == |m.Write()|
    {
      Parts(m);
      size := DataSetsSize(10, m.dataSets);
    }

    static method InternalWriteTo(m: Registry, output: CodedOutput)
      requires |m.Write()| <= INT_MAX
      modifies output
      ensures output.bytes == old(output.bytes) + m.Write()
    {
      Parts(m);
      WriteDataSets(10, m.dataSets, output);
    }

    method MergeFrom(other: Registry)
      modifies this
      ensures m == old(m).Merge(other)
    {
      m := m.(dataSets := m.dataSets + other.dataSets);
    }

    method InternalMergeFrom(input: CodedInput) returns (ok: bool)
      modifies this, input
      ensures ok == Registry.Parse(old(m), old(input.rest)).Some?
      ensures ok ==> Registry.Parse(old(m), old(input.rest)) == Some(m)
    {
      hide Fold, ReadTag, AfterTag, DataSet.Parse;
      ghost var all := Registry.Parse(m, input.rest);
      while true
        invariant Registry.Parse(m, input.rest) == all
        decreases |input.rest|
      {
        ReadOn(m, input.rest, Registry.Set);
        var tag;
        ok, tag := input.ReadNextTag();
        if !ok || tag == 0 {
          return;
        }
        if tag == 10 {
          var payload;
          ok, payload := input.ReadBytes(tag);
          if ok {
            var e := new DataSetProto(DataSet([], [], []));
            var entry := new CodedInput(payload);
            ok := e.InternalMergeFrom(entry);
            m := m.(dataSets := m.dataSets + [e.m]);
          }
        } else {
          ok := input.SkipField(tag);
        }
        if !ok {
          return;
        }
      }
    }
  }

  /** Writing two registries one after the other and reading the bytes into a new one gives what
      `MergeFrom` makes of them; writing one alone gives it back, in as many bytes as calculated. */
  method WriteAndRead(a: Registry, b: Registry) returns (size: nat, alone: RegistryProto, together: RegistryProto)
    requires |a.Write()| <= INT_MAX && |b.Write()| <= INT_MAX
    ensures alone.m == a && together.m == a.Merge(b) && size == |a.Write()|
  {
    hide Registry.Write, Registry.Parse;
    size := RegistryProto.CalculateSize(a);
    var output := new CodedOutput();
    RegistryProto.InternalWriteTo(a, output);
    var first := new CodedInput(output.bytes);
    RegistryProto.InternalWriteTo(b, output);
    var both := new CodedInput(output.bytes);
    assert [] + a.Write() == a.Write();
    RegistryRoundTrip(a, b);
    alone := new RegistryProto(Registry([]));
    var ok := alone.InternalMergeFrom(first);
    together := new RegistryProto(Registry([]));
    ok := together.InternalMergeFrom(both);
  }
}
