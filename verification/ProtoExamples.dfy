/** The six messages in literal bytes. */
module ProtoExamples {
  import opened Wrappers
  import opened ProtoWire
  import opened ProtoModel

  lemma NumberBytes(tag: nat, n: nat, rest: seq<Field>)
    ensures EncodeAll([Number(tag, n)] + rest) == Varint(tag) + Varint(n) + EncodeAll(rest)
    ensures EncodeAll([]) == []
  {
    assert ([Number(tag, n)] + rest)[1..] == rest;
  }

  lemma PayloadBytes(tag: nat, payload: seq<Byte>, rest: seq<Field>)
    ensures EncodeAll([Bytes(tag, payload)] + rest) == Varint(tag) + Varint(|payload|) + payload + EncodeAll(rest)
    ensures EncodeAll([]) == []
  {
    assert ([Bytes(tag, payload)] + rest)[1..] == rest;
  }

  /** One field with fewer than 128 bytes, as a message of its own. */
  lemma OneField(tag: nat, payload: seq<Byte>)
    requires tag < 128 && |payload| < 128
    ensures EncodeAll([Bytes(tag, payload)]) == [tag, |payload|] + payload
  {
    PayloadBytes(tag, payload, []);
    assert [Bytes(tag, payload)] + [] == [Bytes(tag, payload)];
  }

  lemma OneRepeated<T>(tag: nat, e: T, write: T -> seq<Byte>)
    ensures Repeated(tag, [e], write) == [Bytes(tag, write(e))] && Repeated(tag, [], write) == []
  {
  }

  /** The bytes of an annotation and of annotation info. */
  const ANNOTATION := StadAnnotation([106])
  const INFO := AnnotationInfo([ANNOTATION])

  lemma AnnotationBytes()
    ensures ANNOTATION.Write() == [10, 1, 106] && INFO.Write() == [10, 3, 10, 1, 106]
  {
    OneField(10, [106]);
    OneField(10, [10, 1, 106]);
    assert ANNOTATION.Write() == [10, 1, 106];
    OneRepeated(10, ANNOTATION, StadAnnotation.Written);
  }

  /** Of a member definition: two strings, the kind, and annotation info. */
  const MEMBER := MemberDefinition([116], [110], 1, Some(INFO))

  lemma MemberBytes()
    ensures MEMBER.Write() == [10, 1, 116, 18, 1, 110, 24, 1, 34, 5, 10, 3, 10, 1, 106]
  {
    hide EncodeAll;
    AnnotationBytes();
    var info := INFO.Write();
    var f4 := [Bytes(34, info)];
    var f3 := [Number(24, 1)] + f4;
    var f2 := [Bytes(18, [110])] + f3;
    OneField(34, info);
    NumberBytes(24, 1, f4);
    PayloadBytes(18, [110], f3);
    PayloadBytes(10, [116], f2);
    assert MEMBER.Fields() == [Bytes(10, [116])] + f2;
  }

  /** Of a model: a string, a negative type code in ten bytes, annotation info that is present but empty, and a member. */
  const MODEL := StadModel([109], -1, Some(AnnotationInfo([])), [MEMBER])

  lemma NextGroup(n: nat)
    requires n >= 128
    ensures Varint(n) == [n % 128 + 128] + Varint(n / 128)
  {
  }

  lemma FiveGroups()
    ensures Varint(0xF_FFFF_FFFF) == [255, 255, 255, 255, 255, 1]
  {
    SmallTags();
    hide Varint;
    NextGroup(0xFF);
    NextGroup(0x7FFF);
    NextGroup(0x3F_FFFF);
    NextGroup(0x1FFF_FFFF);
    NextGroup(0xF_FFFF_FFFF);
  }

  lemma MinusOne()
    ensures Varint(Extended(-1)) == [255, 255, 255, 255, 255, 255, 255, 255, 255, 1]
  {
    hide Varint;
    FiveGroups();
    NextGroup(0x7FF_FFFF_FFFF);
    NextGroup(0x3_FFFF_FFFF_FFFF);
    NextGroup(0x1FF_FFFF_FFFF_FFFF);
    NextGroup(0xFFFF_FFFF_FFFF_FFFF);
    assert Extended(-1) == 0xFFFF_FFFF_FFFF_FFFF;
  }

  lemma ModelBytes()
    ensures MODEL.Write() ==
            [10, 1, 109] + ([16] + [255, 255, 255, 255, 255, 255, 255, 255, 255, 1] + ([26, 0] +
            ([34, 15] + [10, 1, 116, 18, 1, 110, 24, 1, 34, 5, 10, 3, 10, 1, 106])))
  {
    hide MODEL, StadModel.Write, MemberDefinition.Write;
    MemberBytes();
    MinusOne();
    ModelParts();
  }

  lemma ModelParts()
    requires |MEMBER.Write()| == 15
    ensures MODEL.Write() == [10, 1, 109] + ([16] + Varint(Extended(-1)) + ([26, 0] + ([34, 15] + MEMBER.Write())))
  {
    hide EncodeAll, Varint, MemberDefinition.Write, AnnotationInfo.Write;
    SmallTags();
    OneRepeated(34, MEMBER, MemberDefinition.Written);
    EmptyInfo();
    var f4 := [Bytes(34, MEMBER.Write())];
    var f3 := [Bytes(26, [])] + f4;
    var f2 := [Number(16, Extended(-1))] + f3;
    OneField(34, MEMBER.Write());
    PayloadBytes(26, [], f4);
    NumberBytes(16, Extended(-1), f3);
    PayloadBytes(10, [109], f2);
    assert MODEL.Fields() == [Bytes(10, [109])] + f2;
  }

  lemma EmptyInfo()
    ensures AnnotationInfo([]).Write() == []
  {
  }

  lemma SmallTags()
    ensures Varint(0) == [0] && Varint(1) == [1] && Varint(10) == [10] && Varint(16) == [16] && Varint(26) == [26]
  {
  }

  /** Of a data set with one model of each list, and of a registry. */
  const DATA_SET := DataSet([100], [StadModel([108], 0, None, [])], [StadModel([115], 0, None, [])])

  lemma NamedModel(name: Byte)
    ensures StadModel([name], 0, None, []).Write() == [10, 1, name]
  {
    OneField(10, [name]);
    OneRepeated(34, MEMBER, MemberDefinition.Written);
    assert StadModel([name], 0, None, []).Fields() == [Bytes(10, [name])];
  }

  lemma DataSetBytes()
    ensures DATA_SET.Write() == [10, 1, 100, 18, 3, 10, 1, 108, 26, 3, 10, 1, 115]
  {
    hide EncodeAll, StadModel.Write;
    NamedModel(108);
    NamedModel(115);
    var l, t := StadModel([108], 0, None, []), StadModel([115], 0, None, []);
    OneRepeated(18, l, StadModel.Written);
    OneRepeated(26, t, StadModel.Written);
    OneField(26, t.Write());
    PayloadBytes(18, l.Write(), [Bytes(26, t.Write())]);
    PayloadBytes(10, [100], [Bytes(18, l.Write())] + [Bytes(26, t.Write())]);
    assert DATA_SET.Fields() == [Bytes(10, [100])] + ([Bytes(18, l.Write())] + [Bytes(26, t.Write())]);
  }

  lemma RegistryBytes()
    ensures Registry([DATA_SET]).Write() == [10, 13, 10, 1, 100, 18, 3, 10, 1, 108, 26, 3, 10, 1, 115]
  {
    hide EncodeAll, DataSet.Write;
    DataSetBytes();
    OneRepeated(10, DATA_SET, DataSet.Written);
    OneField(10, DATA_SET.Write());
  }

  // ----- other fields, and malformed input

  lemma FirstTag(tag: Byte, rest: seq<Byte>)
    requires tag < 128
    ensures ReadTag([tag] + rest) == if tag < 8 then Malformed else Got(tag, rest)
  {
    assert ([tag] + rest)[1..] == rest;
  }

  /** Fields of the fixed-size wire types are skipped, eight and four bytes long. */
  lemma FixedSkipped(tag: Byte, skipped: seq<Byte>, rest: seq<Byte>)
    requires 8 <= tag < 128 && ((tag % 8 == 1 && |skipped| == 8) || (tag % 8 == 5 && |skipped| == 4))
    ensures Next([tag] + (skipped + rest)) == Got(Unknown(tag), rest)
  {
    hide ReadTag;
    FirstTag(tag, skipped + rest);
    assert (skipped + rest)[|skipped|..] == rest;
  }

  /** There is no field number 0, no wire type 3, 4, 6 or 7, and no field shorter than it says. */
  lemma Refused(tag: Byte, rest: seq<Byte>)
    requires tag < 128
    requires tag < 8 || tag % 8 == 3 || tag % 8 == 4 || tag % 8 == 6 || tag % 8 == 7
             || (tag % 8 == 1 && |rest| < 8) || (tag % 8 == 5 && |rest| < 4) || rest == []
             || (tag % 8 == 2 && rest[0] < 128 && |rest| - 1 < rest[0])
    ensures Next([tag] + rest) == Malformed && Next([]) == Malformed
  {
    hide ReadTag;
    FirstTag(tag, rest);
    NoTag();
  }

  lemma NoTag()
    ensures ReadTag([]) == Malformed
  {
  }

  /** A number goes on for ten bytes at most. */
  lemma {:induction false} AllContinue(s: seq<Byte>, k: nat)
    requires k <= |s| && forall i | 0 <= i < k :: s[i] >= 128
    ensures ReadVarint(s, k) == Malformed
    decreases k
  {
    if k > 0 {
      AllContinue(s[1..], k - 1);
    }
  }

  /** A field that a message does not have leaves it as it is. */
  lemma UnknownIgnored(f: Field, r: Registry, d: DataSet, m: StadModel, i: AnnotationInfo, a: StadAnnotation, e: MemberDefinition)
    ensures f.Unknown? || f.tag !in {10, 16, 18, 24, 26, 34} ==>
              && Registry.Set(r, f) == Some(r) && DataSet.Set(d, f) == Some(d) && StadModel.Set(m, f) == Some(m)
              && AnnotationInfo.Set(i, f) == Some(i) && StadAnnotation.Set(a, f) == Some(a)
              && MemberDefinition.Set(e, f) == Some(e)
  {
  }
}
