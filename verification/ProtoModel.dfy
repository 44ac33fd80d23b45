/** The six messages of the model registry as values: what is written for each, what a field that
    is read does to each, and what merging means. Strings are their UTF-8 bytes. */
module ProtoModel {
  import opened Wrappers
  import opened ProtoWire

  type Str = seq<Byte>

  /** Scalars are written unless they have their default value, messages if they are present, and
      repeated messages one field each. */
  function StringField(tag: nat, s: Str): seq<Field> { if s == [] then [] else [Bytes(tag, s)] }

  function IntField(tag: nat, v: Int32): seq<Field> { if v == 0 then [] else [Number(tag, Extended(v))] }

  function InfoField(tag: nat, o: Option<AnnotationInfo>): seq<Field> {
    if o.None? then [] else [Bytes(tag, o.value.Write())]
  }

  function Repeated<T>(tag: nat, ms: seq<T>, write: T -> seq<Byte>): seq<Field> {
    seq(|ms|, i requires 0 <= i < |ms| => Bytes(tag, write(ms[i])))
  }

  function MergedString(s: Str, t: Str): Str { if t != [] then t else s }

  function MergedInt(s: Int32, t: Int32): Int32 { if t != 0 then t else s }

  function MergedInfo(s: Option<AnnotationInfo>, t: Option<AnnotationInfo>): Option<AnnotationInfo> {
    if t.None? then s else Some((if s.None? then AnnotationInfo([]) else s.value).Merge(t.value))
  }

  /** A sub-message is read into the one that is there, if there is one. */
  function ReadInfo(s: Option<AnnotationInfo>, payload: seq<Byte>): Option<AnnotationInfo> {
    AnnotationInfo.Parse(if s.None? then AnnotationInfo([]) else s.value, payload)
  }

  datatype StadAnnotation = StadAnnotation(json: Str) {
    function Fields(): seq<Field> { StringField(10, json) }

    function Write(): seq<Byte> { EncodeAll(Fields()) }

    function Merge(other: StadAnnotation): StadAnnotation { StadAnnotation(MergedString(json, other.json)) }

    static function Set(m: StadAnnotation, f: Field): Option<StadAnnotation> {
      if f.tag == 10 && f.Bytes? then Some(m.(json := f.payload)) else Some(m)
    }

    static function Written(e: StadAnnotation): seq<Byte> { e.Write() }

    static function Parse(m: StadAnnotation, s: seq<Byte>): Option<StadAnnotation> { Fold(m, s, Set) }
  }

  datatype AnnotationInfo = AnnotationInfo(annotations: seq<StadAnnotation>) {
    function Fields(): seq<Field> { Repeated(10, annotations, StadAnnotation.Written) }

    function Write(): seq<Byte> { EncodeAll(Fields()) }

    function Merge(other: AnnotationInfo): AnnotationInfo { AnnotationInfo(annotations + other.annotations) }

    static function Set(m: AnnotationInfo, f: Field): Option<AnnotationInfo> {
      if f.tag == 10 && f.Bytes? then
        var e := StadAnnotation.Parse(StadAnnotation([]), f.payload);
        if e.None? then None else Some(AnnotationInfo(m.annotations + [e.value]))
      else Some(m)
    }

    static function Parse(m: AnnotationInfo, s: seq<Byte>): Option<AnnotationInfo> { Fold(m, s, Set) }
  }

  datatype MemberDefinition =
    MemberDefinition(typ: Str, name: Str, kind: Int32, annotationInfo: Option<AnnotationInfo>)
  {
    function Fields(): seq<Field> {
      StringField(10, typ) + StringField(18, name) + IntField(24, kind) + InfoField(34, annotationInfo)
    }

    function Write(): seq<Byte> { EncodeAll(Fields()) }

    function Merge(other: MemberDefinition): MemberDefinition {
      MemberDefinition(MergedString(typ, other.typ), MergedString(name, other.name), MergedInt(kind, other.kind),
                       MergedInfo(annotationInfo, other.annotationInfo))
    }

    static function Set(m: MemberDefinition, f: Field): Option<MemberDefinition> {
      if f.tag == 10 && f.Bytes? then Some(m.(typ := f.payload))
      else if f.tag == 18 && f.Bytes? then Some(m.(name := f.payload))
      else if f.tag == 24 && f.Number? then Some(m.(kind := Low32(f.value)))
      else if f.tag == 34 && f.Bytes? then
        var info := ReadInfo(m.annotationInfo, f.payload);
        if info.None? then None else Some(m.(annotationInfo := info))
      else Some(m)
    }

    static function Written(e: MemberDefinition): seq<Byte> { e.Write() }

    static function Parse(m: MemberDefinition, s: seq<Byte>): Option<MemberDefinition> { Fold(m, s, Set) }
  }

  datatype StadModel =
    StadModel(typ: Str, typeCode: Int32, annotationinfo: Option<AnnotationInfo>, members: seq<MemberDefinition>)
  {
    function Fields(): seq<Field> {
      StringField(10, typ) + IntField(16, typeCode) + InfoField(26, annotationinfo) +
      Repeated(34, members, MemberDefinition.Written)
    }

    function Write(): seq<Byte> { EncodeAll(Fields()) }

    function Merge(other: StadModel): StadModel {
      StadModel(MergedString(typ, other.typ), MergedInt(typeCode, other.typeCode),
                MergedInfo(annotationinfo, other.annotationinfo), members + other.members)
    }

    static function Set(m: StadModel, f: Field): Option<StadModel> {
      if f.tag == 10 && f.Bytes? then Some(m.(typ := f.payload))
      else if f.tag == 16 && f.Number? then Some(m.(typeCode := Low32(f.value)))
      else if f.tag == 26 && f.Bytes? then
        var info := ReadInfo(m.annotationinfo, f.payload);
        if info.None? then None else Some(m.(annotationinfo := info))
      else if f.tag == 34 && f.Bytes? then
        var e := MemberDefinition.Parse(MemberDefinition([], [], 0, None), f.payload);
        if e.None? then None else Some(m.(members := m.members + [e.value]))
      else Some(m)
    }

    static function Written(e: StadModel): seq<Byte> { e.Write() }

    static function Parse(m: StadModel, s: seq<Byte>): Option<StadModel> { Fold(m, s, Set) }
  }

  datatype DataSet = DataSet(name: Str, listModels: seq<StadModel>, singleModels: seq<StadModel>) {
    function Fields(): seq<Field> {
      StringField(10, name) + Repeated(18, listModels, StadModel.Written) +
      Repeated(26, singleModels, StadModel.Written)
    }

    function Write(): seq<Byte> { EncodeAll(Fields()) }

    function Merge(other: DataSet): DataSet {
      DataSet(MergedString(name, other.name), listModels + other.listModels, singleModels + other.singleModels)
    }

    static function Set(m: DataSet, f: Field): Option<DataSet> {
      if f.tag == 10 && f.Bytes? then Some(m.(name := f.payload))
      else if (f.tag == 18 || f.tag == 26) && f.Bytes? then
        var e := StadModel.Parse(StadModel([], 0, None, []), f.payload);
        if e.None? then None
        else if f.tag == 18 then Some(m.(listModels := m.listModels + [e.value]))
        else Some(m.(singleModels := m.singleModels + [e.value]))
      else Some(m)
    }

    static function Written(e: DataSet): seq<Byte> { e.Write() }

    static function Parse(m: DataSet, s: seq<Byte>): Option<DataSet> { Fold(m, s, Set) }
  }

  datatype Registry = Registry(dataSets: seq<DataSet>) {
    function Fields(): seq<Field> { Repeated(10, dataSets, DataSet.Written) }

    function Write(): seq<Byte> { EncodeAll(Fields()) }

    function Merge(other: Registry): Registry { Registry(dataSets + other.dataSets) }

    static function Set(m: Registry, f: Field): Option<Registry> {
      if f.tag == 10 && f.Bytes? then
        var e := DataSet.Parse(DataSet([], [], []), f.payload);
        if e.None? then None else Some(Registry(m.dataSets + [e.value]))
      else Some(m)
    }

    static function Parse(m: Registry, s: seq<Byte>): Option<Registry> { Fold(m, s, Set) }
  }

  /** Repeated fields append, whatever the message. */
  lemma {:induction false} RepeatedAppends<M(!new), T(!new)>(
    m: M, tag: nat, ms: seq<T>, write: T -> seq<Byte>, set_: (M, Field) -> Option<M>, add: (M, seq<T>) -> M)
    requires forall x: M, e: T | e in ms :: set_(x, Bytes(tag, write(e))) == Some(add(x, [e]))
    requires forall x: M, a: seq<T>, b: seq<T> :: add(add(x, a), b) == add(x, a + b)
    requires forall x: M :: add(x, []) == x
    ensures SetAll(m, Repeated(tag, ms, write), set_) == Some(add(m, ms))
    decreases |ms|
  {
    var fields := Repeated(tag, ms, write);
    if ms != [] {
      assert fields[0] == Bytes(tag, write(ms[0])) && fields[1..] == Repeated(tag, ms[1..], write);
      RepeatedAppends(add(m, [ms[0]]), tag, ms[1..], write, set_, add);
      assert [ms[0]] + ms[1..] == ms;
    }
  }

  lemma {:induction false} PayloadIsShorter(fields: seq<Field>, f: Field)
    requires f in fields && f.Bytes?
    ensures |f.payload| <= |EncodeAll(fields)|
    decreases |fields|
  {
    if f == fields[0] {
      PayloadFits(f);
    } else {
      PayloadIsShorter(fields[1..], f);
    }
  }

  lemma InRepeated<T>(tag: nat, ms: seq<T>, write: T -> seq<Byte>, e: T)
    requires e in ms
    ensures Bytes(tag, write(e)) in Repeated(tag, ms, write)
  {
    var i :| 0 <= i < |ms| && ms[i] == e;
    assert Repeated(tag, ms, write)[i] == Bytes(tag, write(e));
  }

  /** Merging into an empty message gives the message. */
  lemma MergeIntoEmptyInfo(b: AnnotationInfo)
    ensures AnnotationInfo([]).Merge(b) == b
  {
    assert [] + b.annotations == b.annotations;
  }

  lemma MergeIntoEmptyMember(b: MemberDefinition)
    ensures MemberDefinition([], [], 0, None).Merge(b) == b
  {
    if b.annotationInfo.Some? {
      MergeIntoEmptyInfo(b.annotationInfo.value);
    }
  }

  lemma MergeIntoEmptyModel(b: StadModel)
    ensures StadModel([], 0, None, []).Merge(b) == b
  {
    assert [] + b.members == b.members;
    if b.annotationinfo.Some? {
      MergeIntoEmptyInfo(b.annotationinfo.value);
    }
  }

  lemma MergeIntoEmptyDataSet(b: DataSet)
    ensures DataSet([], [], []).Merge(b) == b
  {
    assert [] + b.listModels == b.listModels && [] + b.singleModels == b.singleModels;
  }

  lemma MergeIntoEmptyRegistry(b: Registry)
    ensures Registry([]).Merge(b) == b
  {
    assert [] + b.dataSets == b.dataSets;
  }

  lemma FoldWritten<M>(x: M, fields: seq<Field>, set_: (M, Field) -> Option<M>)
    requires AllSound(fields) && |EncodeAll(fields)| <= INT_MAX
    ensures Fold(x, EncodeAll(fields), set_) == SetAll(x, fields, set_)
  {
    FoldEncoded(x, fields, [], set_);
    assert EncodeAll(fields) + [] == EncodeAll(fields);
  }

  /** Reading what was written merges it. */
  lemma StadAnnotationReads(x: StadAnnotation, b: StadAnnotation)
    requires |b.Write()| <= INT_MAX
    ensures StadAnnotation.Parse(x, b.Write()) == Some(x.Merge(b))
  {
    assert SetAll(x, b.Fields(), StadAnnotation.Set) == Some(x.Merge(b));
    FoldWritten(x, b.Fields(), StadAnnotation.Set);
  }

  lemma AnnotationsAppend(x: AnnotationInfo, b: AnnotationInfo)
    requires |b.Write()| <= INT_MAX
    ensures SetAll(x, b.Fields(), AnnotationInfo.Set) == Some(x.Merge(b))
  {
    var set_ := AnnotationInfo.Set;
    var add := (m: AnnotationInfo, a: seq<StadAnnotation>) => AnnotationInfo(m.annotations + a);
    forall m: AnnotationInfo, e | e in b.annotations
      ensures set_(m, Bytes(10, StadAnnotation.Written(e))) == Some(add(m, [e]))
    {
      InRepeated(10, b.annotations, StadAnnotation.Written, e);
      PayloadIsShorter(b.Fields(), Bytes(10, StadAnnotation.Written(e)));
      StadAnnotationReads(StadAnnotation([]), e);
    }
    forall m: AnnotationInfo, a, c
      ensures add(add(m, a), c) == add(m, a + c)
    {
      assert m.annotations + (a + c) == m.annotations + a + c;
    }
    forall m: AnnotationInfo ensures add(m, []) == m {
      assert m.annotations + [] == m.annotations;
    }
    RepeatedAppends(x, 10, b.annotations, StadAnnotation.Written, set_, add);
  }

  lemma AnnotationInfoReads(x: AnnotationInfo, b: AnnotationInfo)
    requires |b.Write()| <= INT_MAX
    ensures AnnotationInfo.Parse(x, b.Write()) == Some(x.Merge(b))
  {
    AnnotationsAppend(x, b);
    FoldWritten(x, b.Fields(), AnnotationInfo.Set);
  }

  /** A sub-message that is present is merged into the one that is there. */
  lemma InfoReads(s: Option<AnnotationInfo>, t: AnnotationInfo)
    requires |t.Write()| <= INT_MAX
    ensures ReadInfo(s, t.Write()) == MergedInfo(s, Some(t))
  {
    AnnotationInfoReads(if s.None? then AnnotationInfo([]) else s.value, t);
  }

  /** The singular fields of a member definition, one after the other. */
  lemma MemberFieldsSet(x: MemberDefinition, b: MemberDefinition)
    requires |b.Write()| <= INT_MAX
    ensures SetAll(x, b.Fields(), MemberDefinition.Set) == Some(x.Merge(b))
  {
    var set_ := MemberDefinition.Set;
    var typ, name, kind := StringField(10, b.typ), StringField(18, b.name), IntField(24, b.kind);
    var info := InfoField(34, b.annotationInfo);
    SetAllConcat(x, typ + name + kind, info, set_);
    SetAllConcat(x, typ + name, kind, set_);
    SetAllConcat(x, typ, name, set_);
    var x1 := x.(typ := MergedString(x.typ, b.typ));
    assert SetAll(x, typ, set_) == Some(x1);
    var x2 := x1.(name := MergedString(x.name, b.name));
    assert SetAll(x1, name, set_) == Some(x2);
    Low32Extended(b.kind);
    var x3 := x2.(kind := MergedInt(x.kind, b.kind));
    assert SetAll(x2, kind, set_) == Some(x3);
    if b.annotationInfo.Some? {
      PayloadIsShorter(b.Fields(), info[0]);
      InfoReads(x.annotationInfo, b.annotationInfo.value);
    }
  }

  lemma MemberDefinitionReads(x: MemberDefinition, b: MemberDefinition)
    requires |b.Write()| <= INT_MAX
    ensures MemberDefinition.Parse(x, b.Write()) == Some(x.Merge(b))
  {
    hide MemberDefinition.Set;
    MemberFieldsSet(x, b);
    MemberDefinitionSound(b);
    hide MemberDefinition.Fields;
    FoldWritten(x, b.Fields(), MemberDefinition.Set);
  }

  lemma MemberAppends(m: StadModel, e: MemberDefinition)
    requires |e.Write()| <= INT_MAX
    ensures StadModel.Set(m, Bytes(34, e.Write())) == Some(m.(members := m.members + [e]))
  {
    hide MemberDefinition.Write, MemberDefinition.Parse;
    MemberDefinitionReads(MemberDefinition([], [], 0, None), e);
    MergeIntoEmptyMember(e);
  }

  lemma MembersAppend(x: StadModel, b: StadModel)
    requires |b.Write()| <= INT_MAX
    ensures SetAll(x, Repeated(34, b.members, MemberDefinition.Written), StadModel.Set) ==
              Some(x.(members := x.members + b.members))
  {
    hide StadModel.Set, MemberDefinition.Write;
    var set_ := StadModel.Set;
    var add := (m: StadModel, a: seq<MemberDefinition>) => m.(members := m.members + a);
    forall m: StadModel, e | e in b.members
      ensures set_(m, Bytes(34, MemberDefinition.Written(e))) == Some(add(m, [e]))
    {
      InRepeated(34, b.members, MemberDefinition.Written, e);
      PayloadIsShorter(b.Fields(), Bytes(34, MemberDefinition.Written(e)));
      MemberAppends(m, e);
    }
    forall m: StadModel, a, c
      ensures add(add(m, a), c) == add(m, a + c)
    {
      assert m.members + (a + c) == m.members + a + c;
    }
    forall m: StadModel ensures add(m, []) == m {
      assert m.members + [] == m.members;
    }
    RepeatedAppends(x, 34, b.members, MemberDefinition.Written, set_, add);
  }

  lemma StadModelFieldsSet(x: StadModel, b: StadModel)
    requires |b.Write()| <= INT_MAX
    ensures SetAll(x, b.Fields(), StadModel.Set) == Some(x.Merge(b))
  {
    var set_ := StadModel.Set;
    var typ, code := StringField(10, b.typ), IntField(16, b.typeCode);
    var info, members := InfoField(26, b.annotationinfo), Repeated(34, b.members, MemberDefinition.Written);
    SetAllConcat(x, typ + code + info, members, set_);
    SetAllConcat(x, typ + code, info, set_);
    SetAllConcat(x, typ, code, set_);
    var x1 := x.(typ := MergedString(x.typ, b.typ));
    assert SetAll(x, typ, set_) == Some(x1);
    Low32Extended(b.typeCode);
    var x2 := x1.(typeCode := MergedInt(x.typeCode, b.typeCode));
    assert SetAll(x1, code, set_) == Some(x2);
    if b.annotationinfo.Some? {
      PayloadIsShorter(b.Fields(), info[0]);
      InfoReads(x.annotationinfo, b.annotationinfo.value);
    }
    var x3 := x2.(annotationinfo := MergedInfo(x.annotationinfo, b.annotationinfo));
    assert SetAll(x2, info, set_) == Some(x3);
    MembersAppend(x3, b);
  }

  lemma StadModelReads(x: StadModel, b: StadModel)
    requires |b.Write()| <= INT_MAX
    ensures StadModel.Parse(x, b.Write()) == Some(x.Merge(b))
  {
    hide StadModel.Set;
    StadModelFieldsSet(x, b);
    StadModelSound(b);
    hide StadModel.Fields;
    FoldWritten(x, b.Fields(), StadModel.Set);
  }

  lemma ModelAppends(m: DataSet, e: StadModel)
    requires |e.Write()| <= INT_MAX
    ensures DataSet.Set(m, Bytes(18, e.Write())) == Some(m.(listModels := m.listModels + [e]))
    ensures DataSet.Set(m, Bytes(26, e.Write())) == Some(m.(singleModels := m.singleModels + [e]))
  {
    hide StadModel.Write, StadModel.Parse;
    StadModelReads(StadModel([], 0, None, []), e);
    MergeIntoEmptyModel(e);
  }

  lemma ListModelsAppend(x: DataSet, b: DataSet)
    requires |b.Write()| <= INT_MAX
    ensures SetAll(x, Repeated(18, b.listModels, StadModel.Written), DataSet.Set) ==
              Some(x.(listModels := x.listModels + b.listModels))
  {
    hide DataSet.Set, StadModel.Write;
    var set_ := DataSet.Set;
    var add := (m: DataSet, a: seq<StadModel>) => m.(listModels := m.listModels + a);
    forall m: DataSet, e | e in b.listModels
      ensures set_(m, Bytes(18, StadModel.Written(e))) == Some(add(m, [e]))
    {
      InRepeated(18, b.listModels, StadModel.Written, e);
      PayloadIsShorter(b.Fields(), Bytes(18, StadModel.Written(e)));
      ModelAppends(m, e);
    }
    forall m: DataSet, a, c
      ensures add(add(m, a), c) == add(m, a + c)
    {
      assert m.listModels + (a + c) == m.listModels + a + c;
    }
    forall m: DataSet ensures add(m, []) == m {
      assert m.listModels + [] == m.listModels;
    }
    RepeatedAppends(x, 18, b.listModels, StadModel.Written, set_, add);
  }

  lemma SingleModelsAppend(x: DataSet, b: DataSet)
    requires |b.Write()| <= INT_MAX
    ensures SetAll(x, Repeated(26, b.singleModels, StadModel.Written), DataSet.Set) ==
              Some(x.(singleModels := x.singleModels + b.singleModels))
  {
    hide DataSet.Set, StadModel.Write;
    var set_ := DataSet.Set;
    var add := (m: DataSet, a: seq<StadModel>) => m.(singleModels := m.singleModels + a);
    forall m: DataSet, e | e in b.singleModels
      ensures set_(m, Bytes(26, StadModel.Written(e))) == Some(add(m, [e]))
    {
      InRepeated(26, b.singleModels, StadModel.Written, e);
      PayloadIsShorter(b.Fields(), Bytes(26, StadModel.Written(e)));
      ModelAppends(m, e);
    }
    forall m: DataSet, a, c
      ensures add(add(m, a), c) == add(m, a + c)
    {
      assert m.singleModels + (a + c) == m.singleModels + a + c;
    }
    forall m: DataSet ensures add(m, []) == m {
      assert m.singleModels + [] == m.singleModels;
    }
    RepeatedAppends(x, 26, b.singleModels, StadModel.Written, set_, add);
  }

  lemma DataSetFieldsSet(x: DataSet, b: DataSet)
    requires |b.Write()| <= INT_MAX
    ensures SetAll(x, b.Fields(), DataSet.Set) == Some(x.Merge(b))
  {
    hide EncodeAll, StadModel.Parse;
    var set_ := DataSet.Set;
    var name := StringField(10, b.name);
    var lists, singles := Repeated(18, b.listModels, StadModel.Written), Repeated(26, b.singleModels, StadModel.Written);
    SetAllConcat(x, name + lists, singles, set_);
    SetAllConcat(x, name, lists, set_);
    var x1 := x.(name := MergedString(x.name, b.name));
    assert SetAll(x, name, set_) == Some(x1);
    ListModelsAppend(x1, b);
    SingleModelsAppend(x1.(listModels := x1.listModels + b.listModels), b);
  }

  lemma DataSetReads(x: DataSet, b: DataSet)
    requires |b.Write()| <= INT_MAX
    ensures DataSet.Parse(x, b.Write()) == Some(x.Merge(b))
  {
    hide DataSet.Set;
    DataSetFieldsSet(x, b);
    DataSetSound(b);
    hide DataSet.Fields;
    FoldWritten(x, b.Fields(), DataSet.Set);
  }

  lemma DataSetAppends(m: Registry, e: DataSet)
    requires |e.Write()| <= INT_MAX
    ensures Registry.Set(m, Bytes(10, e.Write())) == Some(Registry(m.dataSets + [e]))
  {
    hide DataSet.Write, DataSet.Parse;
    DataSetReads(DataSet([], [], []), e);
    MergeIntoEmptyDataSet(e);
  }

  lemma RegistryReads(x: Registry, b: Registry)
    requires |b.Write()| <= INT_MAX
    ensures Registry.Parse(x, b.Write()) == Some(x.Merge(b))
  {
    hide Registry.Set, DataSet.Write;
    var set_ := Registry.Set;
    var add := (m: Registry, a: seq<DataSet>) => Registry(m.dataSets + a);
    forall m: Registry, e | e in b.dataSets
      ensures set_(m, Bytes(10, DataSet.Written(e))) == Some(add(m, [e]))
    {
      InRepeated(10, b.dataSets, DataSet.Written, e);
      PayloadIsShorter(b.Fields(), Bytes(10, DataSet.Written(e)));
      DataSetAppends(m, e);
    }
    forall m: Registry, a, c
      ensures add(add(m, a), c) == add(m, a + c)
    {
      assert m.dataSets + (a + c) == m.dataSets + a + c;
    }
    forall m: Registry ensures add(m, []) == m {
      assert m.dataSets + [] == m.dataSets;
    }
    RepeatedAppends(x, 10, b.dataSets, DataSet.Written, set_, add);
    FoldWritten(x, b.Fields(), set_);
  }

  // Two messages written one after the other are read as their merge, and one alone as itself: with
  // sub-messages present or absent as they were, and with negative numbers.

  lemma RegistryRoundTrip(a: Registry, b: Registry)
    requires |a.Write()| <= INT_MAX
    ensures Registry.Parse(Registry([]), a.Write()) == Some(a)
    ensures |b.Write()| <= INT_MAX ==> Registry.Parse(Registry([]), a.Write() + b.Write()) == Some(a.Merge(b))
  {
    hide Registry.Set, Registry.Fields;
    RegistrySound(a);
    RegistryReads(Registry([]), a);
    MergeIntoEmptyRegistry(a);
    FoldEncoded(Registry([]), a.Fields(), b.Write(), Registry.Set);
    FoldWritten(Registry([]), a.Fields(), Registry.Set);
    if |b.Write()| <= INT_MAX {
      RegistryReads(a, b);
    }
  }

  lemma RegistrySound(a: Registry)
    ensures AllSound(a.Fields())
  {
  }

  lemma DataSetRoundTrip(a: DataSet, b: DataSet)
    requires |a.Write()| <= INT_MAX
    ensures DataSet.Parse(DataSet([], [], []), a.Write()) == Some(a)
    ensures |b.Write()| <= INT_MAX ==> DataSet.Parse(DataSet([], [], []), a.Write() + b.Write()) == Some(a.Merge(b))
  {
    hide DataSet.Set, DataSet.Fields;
    DataSetSound(a);
    DataSetReads(DataSet([], [], []), a);
    MergeIntoEmptyDataSet(a);
    FoldEncoded(DataSet([], [], []), a.Fields(), b.Write(), DataSet.Set);
    FoldWritten(DataSet([], [], []), a.Fields(), DataSet.Set);
    if |b.Write()| <= INT_MAX {
      DataSetReads(a, b);
    }
  }

  lemma DataSetSound(a: DataSet)
    ensures AllSound(a.Fields())
  {
  }

  lemma StadModelRoundTrip(a: StadModel, b: StadModel)
    requires |a.Write()| <= INT_MAX
    ensures StadModel.Parse(StadModel([], 0, None, []), a.Write()) == Some(a)
    ensures |b.Write()| <= INT_MAX ==> StadModel.Parse(StadModel([], 0, None, []), a.Write() + b.Write()) == Some(a.Merge(b))
  {
    hide StadModel.Set, StadModel.Fields;
    StadModelSound(a);
    StadModelReads(StadModel([], 0, None, []), a);
    MergeIntoEmptyModel(a);
    FoldEncoded(StadModel([], 0, None, []), a.Fields(), b.Write(), StadModel.Set);
    FoldWritten(StadModel([], 0, None, []), a.Fields(), StadModel.Set);
    if |b.Write()| <= INT_MAX {
      StadModelReads(a, b);
    }
  }

  lemma StadModelSound(a: StadModel)
    ensures AllSound(a.Fields())
  {
  }

  lemma AnnotationInfoRoundTrip(a: AnnotationInfo, b: AnnotationInfo)
    requires |a.Write()| <= INT_MAX
    ensures AnnotationInfo.Parse(AnnotationInfo([]), a.Write()) == Some(a)
    ensures |b.Write()| <= INT_MAX ==> AnnotationInfo.Parse(AnnotationInfo([]), a.Write() + b.Write()) == Some(a.Merge(b))
  {
    hide AnnotationInfo.Set, AnnotationInfo.Fields;
    AnnotationInfoSound(a);
    AnnotationInfoReads(AnnotationInfo([]), a);
    MergeIntoEmptyInfo(a);
    FoldEncoded(AnnotationInfo([]), a.Fields(), b.Write(), AnnotationInfo.Set);
    FoldWritten(AnnotationInfo([]), a.Fields(), AnnotationInfo.Set);
    if |b.Write()| <= INT_MAX {
      AnnotationInfoReads(a, b);
    }
  }

  lemma AnnotationInfoSound(a: AnnotationInfo)
    ensures AllSound(a.Fields())
  {
  }

  lemma MemberDefinitionRoundTrip(a: MemberDefinition, b: MemberDefinition)
    requires |a.Write()| <= INT_MAX
    ensures MemberDefinition.Parse(MemberDefinition([], [], 0, None), a.Write()) == Some(a)
    ensures |b.Write()| <= INT_MAX ==> MemberDefinition.Parse(MemberDefinition([], [], 0, None), a.Write() + b.Write()) == Some(a.Merge(b))
  {
    hide MemberDefinition.Set, MemberDefinition.Fields;
    MemberDefinitionSound(a);
    MemberDefinitionReads(MemberDefinition([], [], 0, None), a);
    MergeIntoEmptyMember(a);
    FoldEncoded(MemberDefinition([], [], 0, None), a.Fields(), b.Write(), MemberDefinition.Set);
    FoldWritten(MemberDefinition([], [], 0, None), a.Fields(), MemberDefinition.Set);
    if |b.Write()| <= INT_MAX {
      MemberDefinitionReads(a, b);
    }
  }

  lemma MemberDefinitionSound(a: MemberDefinition)
    ensures AllSound(a.Fields())
  {
  }

  lemma StadAnnotationRoundTrip(a: StadAnnotation, b: StadAnnotation)
    requires |a.Write()| <= INT_MAX
    ensures StadAnnotation.Parse(StadAnnotation([]), a.Write()) == Some(a)
    ensures |b.Write()| <= INT_MAX ==> StadAnnotation.Parse(StadAnnotation([]), a.Write() + b.Write()) == Some(a.Merge(b))
  {
    hide StadAnnotation.Set, StadAnnotation.Fields;
    StadAnnotationSound(a);
    StadAnnotationReads(StadAnnotation([]), a);
    assert StadAnnotation([]).Merge(a) == a;
    FoldEncoded(StadAnnotation([]), a.Fields(), b.Write(), StadAnnotation.Set);
    FoldWritten(StadAnnotation([]), a.Fields(), StadAnnotation.Set);
    if |b.Write()| <= INT_MAX {
      StadAnnotationReads(a, b);
    }
  }

  lemma StadAnnotationSound(a: StadAnnotation)
    ensures AllSound(a.Fields())
  {
  }
}
